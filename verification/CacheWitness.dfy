/** Short histories from an empty cache after which the containers, or the events, no longer agree. */
module CacheWitness {
  import opened Wrappers
  import opened Lru
  import opened LruBounds
  import opened CacheRepair
  import opened CacheStorage
  import opened Overlay
  import opened EventLog
  import opened SnapshotStorage

  /** A write to a key whose item has expired and is not purged. */
  method WriteOverExpired() returns (storage: Storage)
    ensures fresh(storage) && !storage.Valid()
  {
    hide Consistent, Evict;
    storage := new Storage(Config(9, 1, 1, 0, 8));
    var first := storage.CommitWrite([1], Item([], 5), 0);
    FrontFound(Entry([1], Item([], 5)), storage.Recency());
    var second := storage.CommitWrite([1], Item([], 9), 6);
  }

  lemma FrontFound(e: Entry, rec: seq<Entry>)
    ensures rec != [] && rec[0] == e ==> Find(rec, e.key) == Some(e.item)
  {
  }

  /** Two writes in a snapshot, the second of which makes the overlay evict the first: its event dangles. */
  method OverlayEvicts() returns (snapshot: Snapshot)
    ensures fresh(snapshot) && !snapshot.Valid()
  {
    hide Consistent, Evict, Tied;
    var main := new Storage(Config(1, 1, 1, 0, 8));
    snapshot := new Snapshot(main);
    var a, b := Entry([1], Item([], 5)), Entry([2], Item([], 5));
    NeverStale(main.config, a, b);
    var first := snapshot.CommitWrite(a.key, a.item, 0);
    var second := snapshot.CommitWrite(b.key, b.item, 0);
  }

  /** Of two keys of size one, a cache of size one has room for the first only. */
  lemma NeverStale(cfg: Config, a: Entry, b: Entry)
    requires cfg == Config(1, 1, 1, 0, 8) && a == Entry([1], Item([], 5)) && b == Entry([2], Item([], 5))
    ensures Steady(cfg, [], [], Write(a.key, a.item, 0)) && OwnAfter(cfg, [], Write(a.key, a.item, 0)) == [a]
    ensures !Steady(cfg, [a], [], Write(b.key, b.item, 0))
  {
    TotalOne(cfg, a);
    FindOne(a, b.key);
    assert a.key[0] != b.key[0];
    assert [a][1..] == [];
    assert Only([a], b.key) == [];
  }
}
