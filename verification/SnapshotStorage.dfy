/** The storage used while a snapshot is in progress: an overlay over the frozen storage, and an event log. */
module SnapshotStorage {
  import opened Wrappers
  import opened Lru
  import opened LruBounds
  import opened CacheIndex
  import opened CacheRepair
  import opened CacheStorage
  import opened Overlay
  import opened EventLog

  // ---------- What eviction does to the nodes ----------

  /** A list with the same entries whose nodes come from a valid list is that list. */
  lemma SameNodes(items: seq<Node>, items': seq<Node>, m: map<Key, Iters>, nextId: nat)
    requires ListOk(items, m, nextId) && Within(items', items) && Strip(items') == Strip(items)
    ensures items' == items
  {
    forall i | 0 <= i < |items| ensures items'[i] == items[i] {
      assert items'[i] in items && Strip(items')[i] == Strip(items)[i];
      assert NodeOk(m, items'[i], nextId) && NodeOk(m, items[i], nextId);
    }
  }

  /** If entries changed, some node is gone, and it is not the protected key's. */
  lemma LostNode(cfg: Config, items: seq<Node>, items': seq<Node>, m: map<Key, Iters>, nextId: nat, key: Key,
                 available: int, required: int) returns (x: Node)
    requires ListOk(items, m, nextId) && Within(items', items)
    requires Strip(items') == Evict(cfg, Strip(items), key, available, required) != Strip(items)
    ensures Lost(items, items', nextId, x)
  {
    var rec := Strip(items);
    ListKeyed(items, m, nextId);
    var i := EvictedOne(cfg, rec, key, available, required);
    x := items[i];
    assert NodeOk(m, x, nextId);
    forall y | y in items' ensures y.id != x.id {
      var j :| 0 <= j < |items'| && items'[j] == y;
      assert Strip(items')[j].key != rec[i].key;
      FindNodeMember(items, y);
      FindNodeMember(items, x);
    }
  }

  lemma EvictedOne(cfg: Config, rec: seq<Entry>, key: Key, available: int, required: int) returns (i: nat)
    requires Keyed(rec) && Evict(cfg, rec, key, available, required) != rec
    ensures i < |rec| && rec[i].key != key && Lacks(Evict(cfg, rec, key, available, required), rec[i].key)
  {
    var n := EvictIsMinimal(cfg, rec, key, available, required);
    i := CutOne(rec, n, key);
    CutLoses(rec, n, key, i);
  }

  lemma CutOne(rec: seq<Entry>, n: nat, key: Key) returns (i: nat)
    requires n <= |rec| && rec[..n] + Only(rec[n..], key) != rec
    ensures n <= i < |rec| && rec[i].key != key
  {
    var back := rec[n..];
    assert rec == rec[..n] + back;
    OnlyShorter(back, key);
    var k :| 0 <= k < |back| && back[k].key != key;
    i := n + k;
  }

  lemma CutLoses(rec: seq<Entry>, n: nat, key: Key, i: nat)
    requires Keyed(rec) && n <= i < |rec| && rec[i].key != key
    ensures Lacks(rec[..n] + Only(rec[n..], key), rec[i].key)
  {
    var only := Only(rec[n..], key);
    var room := rec[..n] + only;
    OnlyFind(rec[n..], key);
    forall j | 0 <= j < |room| ensures room[j].key != rec[i].key {
      assert if j < n then room[j] == rec[j] else room[j] == only[j - n];
    }
  }

  /** The list starts with the key's node, which is new or was the key's before; the others were there before. */
  ghost predicate NewFront(items: seq<Node>, nextId: nat, items': seq<Node>, key: Key) {
    && items' != [] && items'[0].key == key
    && (forall y :: y in items'[1..] ==> y in items)
    && (items'[0].id == nextId || exists y :: y in items && y.key == key && y.id == items'[0].id)
  }

  ghost predicate Lost(items: seq<Node>, room: seq<Node>, nextId: nat, x: Node) {
    x in items && x.id < nextId && forall y :: y in room ==> y.id != x.id
  }

  lemma StayOrLose(cfg: Config, items: seq<Node>, m: map<Key, Iters>, buckets: map<int, seq<Slot>>, used: int,
                   nextId: nat, room: seq<Node>, key: Key, required: int) returns (x: Node)
    requires Consistent(cfg, items, m, buckets, used, nextId) && Within(room, items)
    requires Strip(room) == Evict(cfg, Strip(items), key, cfg.cacheSize - used, required)
    ensures if cfg.cacheSize - Total(cfg, Strip(items)) >= required || Only(Strip(items), key) == Strip(items)
            then room == items else Lost(items, room, nextId, x)
  {
    hide Consistent, ListOk, Strip, Evict, Only, Total, Within, Lost;
    Agreement(cfg, items, m, buckets, used, nextId);
    NothingEvicted(cfg, Strip(items), key, cfg.cacheSize - used, required);
    if Strip(room) == Strip(items) {
      SameNodes(items, room, m, nextId);
      x := *;
    } else {
      x := LostNode(cfg, items, room, m, nextId, key, cfg.cacheSize - used, required);
    }
  }

  /** The event of a lost node points nowhere, whatever write follows. */
  lemma LostIsDangling(events: seq<Event>, items: seq<Node>, room: seq<Node>, nextId: nat, x: Node, events': seq<Event>,
                       items': seq<Node>, key: Key)
    requires Tied(events, items) && Lost(items, room, nextId, x)
    requires events <= events' && NewFront(room, nextId, items', key)
    ensures !Tied(events', items')
  {
    forall y | y in items' ensures y.id != x.id {
      assert y == items'[0] || y in items'[1..];
      if y == items'[0] && y.id != nextId {
        var z :| z in room && z.key == key && z.id == y.id;
      }
    }
    Dangling(events, items, x, items', events');
  }

  class Snapshot {
    const own: Storage
    const main: Storage
    var events: seq<Event>

    ghost predicate Stores()
      reads this, own, main
    {
      own != main && own.config == main.config && own.Valid() && main.Valid()
    }

    /** Both storages are consistent, every event's node is alive and every overlay node has an event. */
    ghost predicate Valid()
      reads this, own, main
    {
      Stores() && Tied(events, own.items)
    }

    /** The commits the events stand for. */
    ghost function Log(): seq<Commit>
      requires Valid()
      reads this, own, main
    {
      Denote(events, own.items)
    }

    constructor (main: Storage)
      requires main.Valid()
      ensures Valid() && this.main == main && fresh(own) && Log() == [] && own.Recency() == []
    {
      var own := new Storage(main.config);
      this.own := own;
      this.main := main;
      events := [];
    }

    method Clear()
      requires Valid()
      modifies this, own
      ensures Valid() && Log() == [] && own.Recency() == []
    {
      own.Clear();
      events := [];
    }

    method GetItem(key: Key, at: int) returns (r: Option<Item>)
      requires Stores()
      ensures r == Lookup(own.Recency(), main.Recency(), key, at)
    {
      var node := own.GetItem(key, at);
      if node.None? { node := main.GetItem(key, at); }
      r := if node.Some? then Some(node.value.item) else None;
    }

    method CommitRead(key: Key, readAt: int) returns (ok: bool)
      requires Valid()
      modifies this, own`commitCode
      ensures Valid() && own.Recency() == old(own.Recency())
      ensures Log() == LogAfter(main.config, own.Recency(), main.Recency(), old(Log()), Read(key, readAt))
      ensures ok <==> Lookup(own.Recency(), main.Recency(), key, readAt).Some?
      ensures own.commitCode == if ok then DoneOk else NotFound
    {
      var item := GetItem(key, readAt);
      if item.None? {
        own.commitCode := NotFound;
        return false;
      }
      TiedOther(events, own.items, ReadEvent(key, readAt));
      events := events + [ReadEvent(key, readAt)];
      own.commitCode := DoneOk;
      return true;
    }

    method CommitPurge(purgedAt: int)
      requires Valid()
      modifies this, own`commitCode
      ensures Valid() && own.Recency() == old(own.Recency())
      ensures Log() == LogAfter(main.config, own.Recency(), main.Recency(), old(Log()), Purge(purgedAt))
      ensures own.commitCode == DoneOk
    {
      TiedOther(events, own.items, PurgeEvent(purgedAt));
      events := events + [PurgeEvent(purgedAt)];
      own.commitCode := DoneOk;
    }

    /** The memory a write needs is what it adds over the item a reader would find. */
    method GetRequiredMemory(key: Key, item: Item, writtenAt: int) returns (required: int)
      requires Valid()
      ensures required == Needed(main.config, own.Recency(), main.Recency(), key, item, writtenAt)
    {
      var oldItem := GetItem(key, writtenAt);
      required := Size(main.config, key, item) - if oldItem.Some? then Size(main.config, key, oldItem.value) else 0;
    }

    method InsertItem(key: Key, item: Item, writtenAt: int)
      requires Stores()
      modifies this, own
      ensures own.commitCode == old(own.commitCode) && old(events) <= events
      ensures NewFront(old(own.items), old(own.nextId), own.items, key)
      ensures Stores() <==> Find(old(own.Recency()), key).None?
      ensures own.Recency() == [Entry(key, item)] + old(own.Recency())
      ensures old(Valid()) && Stores() ==>
                Valid() && Log() == Overwritten(old(Log()), key, item) + [Write(key, item, writtenAt)]
    {
      ghost var items := own.items;
      own.Present(key);
      if key !in own.itemMap { own.NoNodesOf(key); }
      var node := own.InsertItem(key, item);
      if Tied(events, items) && own.Valid() { FrontTied(events, items, items, node, writtenAt); }
      events := events + [WriteEvent(key, node.id, writtenAt)];
    }

    method UpdateItem(key: Key, item: Item, writtenAt: int)
      requires Stores()
      modifies this, own
      ensures own.commitCode == old(own.commitCode) && old(events) <= events
      ensures NewFront(old(own.items), old(own.nextId), own.items, key)
      ensures Stores() <==> !Stale(old(own.Recency()), key, writtenAt)
      ensures Stores() ==> own.Recency() == [Entry(key, item)] + Without(old(own.Recency()), key)
      ensures old(Valid()) && Stores() ==>
                Valid() && Log() == Overwritten(old(Log()), key, item) + [Write(key, item, writtenAt)]
    {
      ghost var items := own.items;
      own.Present(key);
      var present := own.GetItem(key, writtenAt);
      if present.Some? {
        own.NodesOf(key);
        var node := own.UpdateItem(key, item);
        forall n: nat | n != node.id ensures FindNode(EraseNode(items, node.id), n) == FindNode(items, n) {
          FindErased(items, node.id, n);
        }
        if Tied(events, items) { FrontTied(events, items, EraseNode(items, node.id), node, writtenAt); }
        events := events + [WriteEvent(key, node.id, writtenAt)];
      } else {
        if key !in own.itemMap { own.Absent(key); }
        InsertItem(key, item, writtenAt);
      }
    }

    /** Evict from the overlay. If nothing had to go the very nodes stay, else some node is lost. */
    method MakeRoom(key: Key, required: int) returns (ghost x: Node)
      requires Valid()
      modifies own
      ensures Stores() && own.nextId == old(own.nextId) && own.commitCode == old(own.commitCode)
      ensures var rec := old(own.Recency());
              if main.config.cacheSize - Total(main.config, rec) >= required || Only(rec, key) == rec
              then own.items == old(own.items)
              else Lost(old(own.items), own.items, own.nextId, x)
    {
      hide Consistent, Strip, Evict, Only, Total, Within, Lost, Tied;
      ghost var items, m, buckets, used := own.items, own.itemMap, own.buckets, own.usedMemory;
      own.EvictLruData(key, required);
      x := StayOrLose(own.config, items, m, buckets, used, own.nextId, own.items, key, required);
    }

    method StoreItem(key: Key, item: Item, writtenAt: int)
      requires Stores()
      modifies this, own
      ensures own.commitCode == old(own.commitCode) && old(events) <= events
      ensures NewFront(old(own.items), old(own.nextId), own.items, key)
      ensures Stores() <==> !Stale(old(own.Recency()), key, writtenAt)
      ensures Stores() ==> own.Recency() == [Entry(key, item)] + Without(old(own.Recency()), key)
      ensures old(Valid()) && Stores() ==>
                Valid() && Log() == Overwritten(old(Log()), key, item) + [Write(key, item, writtenAt)]
    {
      var oldItem := GetItem(key, writtenAt);
      if oldItem.Some? {
        UpdateItem(key, item, writtenAt);
      } else {
        FindAbsent(own.Recency(), key);
        if Find(own.Recency(), key).None? { WithoutAbsent(own.Recency(), key); }
        InsertItem(key, item, writtenAt);
      }
    }

    method WriteItem(key: Key, item: Item, writtenAt: int)
      requires Valid()
      modifies this, own
      ensures own.commitCode == old(own.commitCode)
      ensures Valid() <==> HasRoom(main.config, old(own.Recency()), main.Recency(), key, item, writtenAt) &&
                           !Stale(old(own.Recency()), key, writtenAt)
      ensures Valid() ==> own.Recency() == [Entry(key, item)] + Without(old(own.Recency()), key)
      ensures Valid() ==> Log() == Overwritten(old(Log()), key, item) + [Write(key, item, writtenAt)]
    {
      ghost var items := own.items;
      var required := GetRequiredMemory(key, item, writtenAt);
      ghost var x := MakeRoom(key, required);
      ghost var room := own.items;
      StoreItem(key, item, writtenAt);
      if room != items { LostIsDangling(old(events), items, room, old(own.nextId), x, events, own.items, key); }
    }

    method CommitWrite(key: Key, item: Item, writtenAt: int) returns (ok: bool)
      requires Valid()
      modifies this, own
      ensures Valid() <==> Steady(main.config, old(own.Recency()), main.Recency(), Write(key, item, writtenAt))
      ensures Valid() ==> own.Recency() == OwnAfter(main.config, old(own.Recency()), Write(key, item, writtenAt))
      ensures Valid() ==>
                Log() ==
                LogAfter(main.config, old(own.Recency()), main.Recency(), old(Log()), Write(key, item, writtenAt))
      ensures ok <==> Accepted(main.config, key, item, writtenAt)
      ensures own.commitCode == if ok then DoneOk else if |key| > main.config.maxKeySize then KeyTooBig else WrongExpiry
    {
      if |key| > own.config.maxKeySize {
        own.commitCode := KeyTooBig;
        return false;
      }
      if Expired(item, writtenAt) {
        own.commitCode := WrongExpiry;
        return false;
      }
      WriteItem(key, item, writtenAt);
      own.commitCode := DoneOk;
      return true;
    }
  }
}
