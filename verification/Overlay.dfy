/**
  Commits during a snapshot: they go to an overlay and an event log that is replayed at the end.
  When the log is faithful to the commits, and why replaying it gives what direct application gives.
 */
module Overlay {
  import opened Wrappers
  import opened Lru
  import opened LruBounds
  import LruLaw

  // ---------- One commit on the overlay ----------

  /** The overlay's item if it has an unexpired one, else the frozen storage's. */
  function Lookup(own: seq<Entry>, main: seq<Entry>, key: Key, t: int): Option<Item> {
    if Get(own, key, t).Some? then Get(own, key, t) else Get(main, key, t)
  }

  /** The memory a write asks the overlay for. */
  function Needed(cfg: Config, own: seq<Entry>, main: seq<Entry>, key: Key, item: Item, t: int): int {
    Size(cfg, key, item) - match Lookup(own, main, key, t) case None => 0 case Some(o) => Size(cfg, key, o)
  }

  /** The overlay has the memory, or nothing to evict but the key itself. */
  ghost predicate HasRoom(cfg: Config, own: seq<Entry>, main: seq<Entry>, key: Key, item: Item, t: int) {
    cfg.cacheSize - Total(cfg, own) >= Needed(cfg, own, main, key, item, t) || Only(own, key) == own
  }

  /** A write neither evicts from the overlay nor meets an expired overlay item of its key. */
  ghost predicate Steady(cfg: Config, own: seq<Entry>, main: seq<Entry>, c: Commit) {
    c.Write? && Accepted(cfg, c.key, c.item, c.at) ==>
      HasRoom(cfg, own, main, c.key, c.item, c.at) && !Stale(own, c.key, c.at)
  }

  /** The overlay after a steady commit. */
  function OwnAfter(cfg: Config, own: seq<Entry>, c: Commit): seq<Entry> {
    if c.Write? && Accepted(cfg, c.key, c.item, c.at)
    then [Entry(c.key, c.item)] + Without(own, c.key)
    else own
  }

  /** Whether a commit leaves an event. */
  predicate Recorded(cfg: Config, own: seq<Entry>, main: seq<Entry>, c: Commit) {
    match c
    case Read(key, t) => Lookup(own, main, key, t).Some?
    case Write(key, item, t) => Accepted(cfg, key, item, t)
    case Purge(_) => true
  }

  /** Events of a key share one overlay item, so rewriting the key changes what its earlier events say. */
  function Overwritten(log: seq<Commit>, key: Key, item: Item): (r: seq<Commit>)
    ensures |r| == |log|
    ensures forall i | 0 <= i < |log| ::
              r[i] == if log[i].Write? && log[i].key == key then Write(key, item, log[i].at) else log[i]
  {
    seq(|log|, i requires 0 <= i < |log| =>
      if log[i].Write? && log[i].key == key then Write(key, item, log[i].at) else log[i])
  }

  /** What the event log says after a steady commit. */
  function LogAfter(cfg: Config, own: seq<Entry>, main: seq<Entry>, log: seq<Commit>, c: Commit): seq<Commit> {
    if !Recorded(cfg, own, main, c) then log
    else (if c.Write? then Overwritten(log, c.key, c.item) else log) + [c]
  }

  // ---------- Runs of commits ----------

  ghost predicate SteadyRun(cfg: Config, own: seq<Entry>, main: seq<Entry>, cs: seq<Commit>)
    decreases |cs|
  {
    cs == [] || (Steady(cfg, own, main, cs[0]) && SteadyRun(cfg, OwnAfter(cfg, own, cs[0]), main, cs[1..]))
  }

  /** The log at the end of a run. */
  function LogRun(cfg: Config, own: seq<Entry>, main: seq<Entry>, log: seq<Commit>, cs: seq<Commit>): seq<Commit>
    decreases |cs|
  {
    if cs == [] then log
    else LogRun(cfg, OwnAfter(cfg, own, cs[0]), main, LogAfter(cfg, own, main, log, cs[0]), cs[1..])
  }

  /** The recorded commits themselves. */
  function RecordedRun(cfg: Config, own: seq<Entry>, main: seq<Entry>, cs: seq<Commit>): seq<Commit>
    decreases |cs|
  {
    if cs == [] then []
    else
      (if Recorded(cfg, own, main, cs[0]) then [cs[0]] else []) +
      RecordedRun(cfg, OwnAfter(cfg, own, cs[0]), main, cs[1..])
  }

  /** No key is rewritten with another item. */
  ghost predicate SameItems(log: seq<Commit>) {
    forall i, j | 0 <= i < j < |log| && log[i].Write? && log[j].Write? && log[i].key == log[j].key ::
      log[i].item == log[j].item
  }

  // ---------- Faithfulness of the log ----------

  lemma OverwrittenSame(log: seq<Commit>, c: Commit)
    requires c.Write? && SameItems(log)
    ensures SameItems(Overwritten(log, c.key, c.item) + [c])
    ensures SameItems(log + [c]) ==> Overwritten(log, c.key, c.item) == log
  {
    var r := Overwritten(log, c.key, c.item);
    var all := log + [c];
    if SameItems(all) {
      forall i | 0 <= i < |log| ensures r[i] == log[i] { assert all[i] == log[i] && all[|log|] == c; }
    }
  }

  lemma {:induction false} SameItemsPrefix(log: seq<Commit>, more: seq<Commit>)
    requires SameItems(log + more)
    ensures SameItems(log)
  {
    var all := log + more;
    forall i, j | 0 <= i < j < |log| && log[i].Write? && log[j].Write? && log[i].key == log[j].key
      ensures log[i].item == log[j].item
    {
      assert all[i] == log[i] && all[j] == log[j];
    }
  }

  lemma {:induction false} LogRunSame(cfg: Config, own: seq<Entry>, main: seq<Entry>, log: seq<Commit>, cs: seq<Commit>)
    requires SameItems(log)
    ensures SameItems(LogRun(cfg, own, main, log, cs))
    decreases |cs|
  {
    if cs == [] {
    } else {
      var log' := LogAfter(cfg, own, main, log, cs[0]);
      if cs[0].Write? { OverwrittenSame(log, cs[0]); }
      LogRunSame(cfg, OwnAfter(cfg, own, cs[0]), main, log', cs[1..]);
    }
  }

  lemma {:induction false} LogRunRecorded(cfg: Config, own: seq<Entry>, main: seq<Entry>, log: seq<Commit>,
                                          cs: seq<Commit>)
    requires SameItems(log + RecordedRun(cfg, own, main, cs))
    ensures LogRun(cfg, own, main, log, cs) == log + RecordedRun(cfg, own, main, cs)
    decreases |cs|
  {
    if cs == [] {
    } else {
      var c, own' := cs[0], OwnAfter(cfg, own, cs[0]);
      var rest := RecordedRun(cfg, own', main, cs[1..]);
      SameItemsPrefix(log, RecordedRun(cfg, own, main, cs));
      if Recorded(cfg, own, main, c) {
        assert log + ([c] + rest) == (log + [c]) + rest;
        SameItemsPrefix(log + [c], rest);
        if c.Write? { OverwrittenSame(log, c); }
        LogRunRecorded(cfg, own', main, log + [c], cs[1..]);
      } else {
        assert [] + rest == rest;
        LogRunRecorded(cfg, own', main, log, cs[1..]);
      }
    }
  }

  /** The log holds the recorded commits exactly when no key is rewritten with another item. */
  lemma LogIsFaithful(cfg: Config, main: seq<Entry>, cs: seq<Commit>)
    ensures var recorded := RecordedRun(cfg, [], main, cs);
            LogRun(cfg, [], main, [], cs) == recorded <==> SameItems(recorded)
  {
    hide LogRun, RecordedRun;
    LogRunSame(cfg, [], main, [], cs);
    assert [] + RecordedRun(cfg, [], main, cs) == RecordedRun(cfg, [], main, cs);
    if SameItems(RecordedRun(cfg, [], main, cs)) { LogRunRecorded(cfg, [], main, [], cs); }
  }

  // ---------- Replaying equals applying ----------

  lemma KeyedFind(rec: seq<Entry>, e: Entry)
    requires Keyed(rec)
    ensures e in rec <==> Find(rec, e.key) == Some(e.item)
  {
    if e in rec {
      var i :| 0 <= i < |rec| && rec[i] == e;
      WithoutAt(rec, i);
    }
    if Find(rec, e.key) == Some(e.item) { var i := FindAt(rec, e.key); }
  }

  /** Every item of the direct state is the overlay's, or the frozen storage's if the overlay has none. */
  ghost predicate Covered(direct: seq<Entry>, own: seq<Entry>, main: seq<Entry>) {
    forall e :: e in direct ==> CoveredBy(e, own, main)
  }

  ghost predicate CoveredBy(e: Entry, own: seq<Entry>, main: seq<Entry>) {
    Find(own, e.key) == Some(e.item) || (Find(own, e.key).None? && Find(main, e.key) == Some(e.item))
  }

  lemma {:induction false} FindWithoutOther(rec: seq<Entry>, key: Key, k: Key)
    requires k != key
    ensures Find(Without(rec, key), k) == Find(rec, k)
  {
    if rec != [] && rec[0].key != key {
      FindWithoutOther(rec[1..], key, k);
      assert ([rec[0]] + Without(rec[1..], key))[1..] == Without(rec[1..], key);
    }
  }

  lemma OwnFind(cfg: Config, own: seq<Entry>, c: Commit, k: Key)
    ensures Find(OwnAfter(cfg, own, c), k) ==
            if c.Write? && Accepted(cfg, c.key, c.item, c.at) && c.key == k then Some(c.item) else Find(own, k)
  {
    if c.Write? && Accepted(cfg, c.key, c.item, c.at) {
      assert OwnAfter(cfg, own, c)[1..] == Without(own, c.key);
      if c.key != k { FindWithoutOther(own, c.key, k); }
    }
  }

  /** A commit adds at most its own entry, under a key nothing else then has. */
  lemma ApplyMembers(cfg: Config, rec: seq<Entry>, c: Commit, e: Entry)
    requires cfg.purgeInterval > 0 && Keyed(rec) && CleanCommit(cfg, rec, c) && e in Apply(cfg, rec, c)
    ensures if c.Write? && Accepted(cfg, c.key, c.item, c.at) && e.key == c.key then e.item == c.item else e in rec
  {
    ApplyKeeps(cfg, rec, c);
    match c
    case Read(key, t) =>
      WithoutKeyed(rec, key);
      if Get(rec, key, t).Some? { KeyedFind(rec, Entry(key, Find(rec, key).value)); }
    case Write(key, item, t) =>
      if Accepted(cfg, key, item, t) { PutMembers(cfg, rec, key, item, t, e); }
    case Purge(t) => PurgedMembers(cfg, rec, t, e);
  }

  lemma PutMembers(cfg: Config, rec: seq<Entry>, key: Key, item: Item, t: int, e: Entry)
    requires Keyed(rec) && !Stale(rec, key, t) && e in Put(cfg, rec, key, item, t)
    ensures if e.key == key then e.item == item else e in rec
  {
    hide Evict, Find, Without, Total, Size;
    var room := Room(cfg, rec, key, item, t);
    EvictKeyed(cfg, rec, key, cfg.cacheSize - Total(cfg, rec), Size(cfg, key, item) - OldSize(cfg, rec, key, t));
    WithoutKeyed(room, key);
    var tail := if Get(rec, key, t).Some? then Without(room, key) else room;
    PutKeyed(cfg, rec, key, item, t);
    ConsKeyed(Entry(key, item), tail);
    FrontOrTail(Entry(key, item), tail, e);
  }

  lemma FrontOrTail(front: Entry, tail: seq<Entry>, e: Entry)
    requires e in [front] + tail && Lacks(tail, front.key)
    ensures e == front || (e in tail && e.key != front.key)
  {
  }

  lemma CoveredStep(cfg: Config, direct: seq<Entry>, own: seq<Entry>, main: seq<Entry>, c: Commit)
    requires cfg.purgeInterval > 0 && Keyed(direct) && CleanCommit(cfg, direct, c) && Covered(direct, own, main)
    ensures Covered(Apply(cfg, direct, c), OwnAfter(cfg, own, c), main)
  {
    forall e | e in Apply(cfg, direct, c) ensures CoveredBy(e, OwnAfter(cfg, own, c), main) {
      ApplyMembers(cfg, direct, c, e);
      OwnFind(cfg, own, c, e.key);
      assert e in direct ==> CoveredBy(e, own, main);
    }
  }

  /** A commit that leaves no event would have changed nothing. */
  lemma UnrecordedIsIdle(cfg: Config, direct: seq<Entry>, own: seq<Entry>, main: seq<Entry>, c: Commit)
    requires cfg.purgeInterval > 0 && Keyed(direct) && Covered(direct, own, main) && !Recorded(cfg, own, main, c)
    ensures Apply(cfg, direct, c) == direct
  {
    if c.Read? && Find(direct, c.key).Some? {
      var e := Entry(c.key, Find(direct, c.key).value);
      KeyedFind(direct, e);
      assert CoveredBy(e, own, main);
    }
  }

  lemma {:induction false} ReplayRun(cfg: Config, direct: seq<Entry>, own: seq<Entry>, main: seq<Entry>,
                                     cs: seq<Commit>)
    requires cfg.purgeInterval > 0 && Keyed(direct) && Covered(direct, own, main) && Clean(cfg, direct, cs)
    ensures ApplyAll(cfg, direct, RecordedRun(cfg, own, main, cs)) == ApplyAll(cfg, direct, cs)
    ensures Clean(cfg, direct, RecordedRun(cfg, own, main, cs))
    decreases |cs|
  {
    if cs == [] {
    } else {
      var c, own' := cs[0], OwnAfter(cfg, own, cs[0]);
      var rest := RecordedRun(cfg, own', main, cs[1..]);
      ApplyKeeps(cfg, direct, c);
      CoveredStep(cfg, direct, own, main, c);
      ReplayRun(cfg, Apply(cfg, direct, c), own', main, cs[1..]);
      if Recorded(cfg, own, main, c) {
        assert ([c] + rest)[1..] == rest;
      } else {
        UnrecordedIsIdle(cfg, direct, own, main, c);
        assert [] + rest == rest;
      }
    }
  }

  /**
    Snapshot transparency: replaying the log gives the state that applying the commits directly gives,
    recency order and evictions included, whenever no key is rewritten with another item.
   */
  lemma ReplayEqualsDirect(cfg: Config, main: seq<Entry>, cs: seq<Commit>)
    requires cfg.purgeInterval > 0 && Keyed(main) && Clean(cfg, main, cs)
    requires SameItems(RecordedRun(cfg, [], main, cs))
    ensures ApplyAll(cfg, main, LogRun(cfg, [], main, [], cs)) == ApplyAll(cfg, main, cs)
    ensures Clean(cfg, main, LogRun(cfg, [], main, [], cs))
  {
    LogIsFaithful(cfg, main, cs);
    forall e | e in main ensures CoveredBy(e, [], main) { KeyedFind(main, e); }
    ReplayRun(cfg, main, [], main, cs);
  }

  // ---------- A rewritten key ----------

  lemma TotalOne(cfg: Config, e: Entry)
    ensures Total(cfg, [e]) == Size(cfg, e.key, e.item)
  {
    assert [e][1..] == [];
  }

  lemma FindOne(e: Entry, key: Key)
    ensures Find([e], key) == if e.key == key then Some(e.item) else None
  {
    assert [e][1..] == [];
  }

  /** A write that must make room next to one other entry evicts it. */
  lemma PutEvictsOne(cfg: Config, e: Entry, n: Entry, t: int)
    requires n.key != e.key && Size(cfg, n.key, n.item) > cfg.cacheSize - Size(cfg, e.key, e.item)
    ensures Put(cfg, [e], n.key, n.item, t) == [n]
  {
    TotalOne(cfg, e);
    var rec, available := [e], cfg.cacheSize - Size(cfg, e.key, e.item);
    assert rec[1..] == [] && rec[..|rec| - 1] == [];
    assert Find(rec, n.key).None?;
    var size := Size(cfg, n.key, n.item);
    assert Evict(cfg, rec, n.key, available, size) == Evict(cfg, [], n.key, cfg.cacheSize, size);
  }

  /** A write of a new key that fits evicts nothing. */
  lemma PutFitsNext(cfg: Config, e: Entry, n: Entry, t: int)
    requires n.key != e.key && Size(cfg, n.key, n.item) <= cfg.cacheSize - Size(cfg, e.key, e.item)
    ensures Put(cfg, [e], n.key, n.item, t) == [n, e]
  {
    TotalOne(cfg, e);
    assert [e][1..] == [];
    assert Find([e], n.key).None?;
    assert Room(cfg, [e], n.key, n.item, t) == [e];
  }

  /** Rewriting the front entry with an item no larger keeps the others. */
  lemma PutShrinks(cfg: Config, front: Item, rest: seq<Entry>, n: Entry, t: int)
    requires !Expired(front, t) && |n.item.data| <= |front.data|
    requires Total(cfg, [Entry(n.key, front)] + rest) <= cfg.cacheSize
    ensures Put(cfg, [Entry(n.key, front)] + rest, n.key, n.item, t) == [n] + rest
  {
    var rec := [Entry(n.key, front)] + rest;
    assert rec[1..] == rest && Find(rec, n.key) == Some(front);
    assert Room(cfg, rec, n.key, n.item, t) == rec;
  }

  /** A rewritten key can change the outcome: the earlier write replays with the later item and evicts less. */
  lemma RewriteShowsThrough() returns (cfg: Config, main: seq<Entry>, cs: seq<Commit>)
    ensures cfg.purgeInterval > 0 && Keyed(main) && Clean(cfg, main, cs) && SteadyRun(cfg, [], main, cs)
    ensures ApplyAll(cfg, main, LogRun(cfg, [], main, [], cs)) != ApplyAll(cfg, main, cs)
  {
    cfg := Config(2, 1, 1, 0, 8);
    var kept, big, small := Entry([1], Item([], 9)), Entry([2], Item([0], 9)), Entry([2], Item([], 9));
    var c1, c2 := Write([2], big.item, 0), Write([2], small.item, 0);
    main, cs := [kept], [c1, c2];
    assert cs[1..] == [c2] && [c2][1..] == [] && [c2, c2][1..] == [c2];
    assert [big] + [] == [big] && [small] + [] == [small] && [small] + [kept] == [small, kept];
    assert [kept][1..] == [] && [big][1..] == [] && [small][1..] == [];
    TotalOne(cfg, big);
    TotalOne(cfg, kept);
    ConsTotal(cfg, small, [kept]);
    PutEvictsOne(cfg, kept, big, 0);
    PutShrinks(cfg, big.item, [], small, 0);
    PutFitsNext(cfg, kept, small, 0);
    PutShrinks(cfg, small.item, [kept], small, 0);
    RewriteRuns(cfg, main, c1, c2, [big], [small], [small, kept]);
    assert Without([big], [2]) == [] && OwnAfter(cfg, [], c1) == [big];
    FindOne(kept, [2]);
    FindOne(big, [2]);
    assert Clean(cfg, [big], [c2]) by { assert Clean(cfg, [small], []); }
    assert Clean(cfg, main, cs) by { assert Apply(cfg, main, cs[0]) == [big]; }
  }

  lemma RewriteRuns(cfg: Config, main: seq<Entry>, c1: Commit, c2: Commit, first: seq<Entry>, second: seq<Entry>,
                    replayed: seq<Entry>)
    requires cfg.purgeInterval > 0 && c1.Write? && c2.Write? && c1.key == c2.key && c1.at == c2.at
    requires Accepted(cfg, c1.key, c1.item, c1.at) && Accepted(cfg, c2.key, c2.item, c2.at)
    requires Apply(cfg, main, c1) == first && Apply(cfg, first, c2) == second
    requires Apply(cfg, main, c2) == replayed && Apply(cfg, replayed, c2) == replayed
    ensures ApplyAll(cfg, main, [c1, c2]) == second
    ensures ApplyAll(cfg, main, LogRun(cfg, [], main, [], [c1, c2])) == replayed
  {
    assert [c1, c2][1..] == [c2] && [c2][1..] == [] && [c2, c2][1..] == [c2];
    assert ApplyAll(cfg, first, [c2]) == ApplyAll(cfg, second, []);
    var own := OwnAfter(cfg, [], c1);
    assert LogAfter(cfg, [], main, [], c1) == [c1];
    assert LogAfter(cfg, own, main, [c1], c2) == [c2, c2];
    assert LogRun(cfg, own, main, [c1], [c2]) == LogRun(cfg, OwnAfter(cfg, own, c2), main, [c2, c2], []);
    assert ApplyAll(cfg, replayed, [c2]) == ApplyAll(cfg, replayed, []);
  }

  // ---------- What the overlay evicts ----------

  lemma {:induction false} OnlyShorter(rec: seq<Entry>, key: Key)
    ensures |Only(rec, key)| <= |rec|
    ensures |Only(rec, key)| == |rec| ==> Only(rec, key) == rec
    ensures Only(rec, key) == rec <==> forall i | 0 <= i < |rec| :: rec[i].key == key
  {
    OnlyFind(rec, key);
    if rec == [] {
    } else {
      OnlyShorter(rec[1..], key);
      assert forall i | 0 < i < |rec| :: rec[i] == rec[1..][i - 1];
      if rec[0].key == key { assert [rec[0]] + rec[1..] == rec; }
    }
  }

  lemma {:induction false} FreedNone(cfg: Config, rec: seq<Entry>, key: Key)
    requires Only(rec, key) == rec
    ensures Freed(cfg, rec, key) == 0
  {
    if rec == [] {
    } else {
      OnlyShorter(rec, key);
      OnlyShorter(rec[1..], key);
      assert forall i | 0 < i < |rec| :: rec[i] == rec[1..][i - 1];
      FreedNone(cfg, rec[1..], key);
    }
  }

  lemma OnlyTail(rec: seq<Entry>, n: nat, key: Key)
    requires n <= |rec|
    ensures Only(rec, key) == rec ==> Only(rec[n..], key) == rec[n..]
  {
    hide Only;
    OnlyShorter(rec[n..], key);
    OnlyShorter(rec, key);
    assert forall i | 0 <= i < |rec[n..]| :: rec[n..][i] == rec[n + i];
  }

  lemma CutWhole(rec: seq<Entry>, n: nat, key: Key)
    requires n <= |rec|
    ensures rec[..n] + Only(rec[n..], key) == rec <==> Only(rec[n..], key) == rec[n..]
  {
    hide Only;
    var only := Only(rec[n..], key);
    assert rec == rec[..n] + rec[n..];
    assert (rec[..n] + only)[n..] == only;
  }

  /** Eviction leaves everything exactly when there is room or nothing else to evict. */
  lemma NothingEvicted(cfg: Config, rec: seq<Entry>, key: Key, available: int, required: int)
    ensures Evict(cfg, rec, key, available, required) == rec <==> available >= required || Only(rec, key) == rec
  {
    hide Only, Freed;
    if available < required {
      hide Evict;
      var n := EvictIsMinimal(cfg, rec, key, available, required);
      CutWhole(rec, n, key);
      OnlyTail(rec, n, key);
      assert n == 0 ==> rec[n..] == rec;
      if Only(rec[n..], key) == rec[n..] { FreedNone(cfg, rec[n..], key); }
    }
  }

  // ---------- What readers see ----------

  function OwnRun(cfg: Config, own: seq<Entry>, cs: seq<Commit>): seq<Entry>
    decreases |cs|
  {
    if cs == [] then own else OwnAfter(cfg, OwnRun(cfg, own, cs[..|cs| - 1]), cs[|cs| - 1])
  }

  /** The overlay holds, of each key, the item last written to it. */
  lemma {:induction false} OwnIsWritten(cfg: Config, cs: seq<Commit>, key: Key)
    ensures Find(OwnRun(cfg, [], cs), key) == LruLaw.LastWritten(cfg, [], cs, key)
    decreases |cs|
  {
    if cs == [] {
    } else {
      var front, c := cs[..|cs| - 1], cs[|cs| - 1];
      OwnIsWritten(cfg, front, key);
      OwnFind(cfg, OwnRun(cfg, [], front), c, key);
    }
  }

  /** During a snapshot a read sees the item last written in it, if unexpired, and otherwise the frozen cache's. */
  lemma SnapshotReads(cfg: Config, main: seq<Entry>, cs: seq<Commit>, key: Key, t: int)
    requires Keyed(main)
    ensures var found, written := Lookup(OwnRun(cfg, [], cs), main, key, t), LruLaw.LastWritten(cfg, [], cs, key);
            if written.Some? && t < written.value.expiresAt then found == written
            else
              && (found.Some? <==> LruLaw.Live(main, key, t))
              && (found.Some? ==> Entry(key, found.value) in main)
  {
    OwnIsWritten(cfg, cs, key);
    LruLaw.ReadMoves(main, key, t);
    if Find(main, key).Some? { var i := FindAt(main, key); }
  }

  /** A write asks for its own bytes less those of the item a reader would find. */
  lemma NeededInBytes(cfg: Config, own: seq<Entry>, main: seq<Entry>, key: Key, item: Item, t: int)
    ensures var found := Lookup(own, main, key, t);
            Needed(cfg, own, main, key, item, t) ==
            if found.Some? then |item.data| - |found.value.data| else cfg.overhead + |key| + |item.data|
  {
  }
}
