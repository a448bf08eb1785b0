/** The cache storage: recency list, key map, expiry buckets and byte counter, updated in place. */
module CacheStorage {
  import opened Wrappers
  import opened LittleEndian
  import opened Lru
  import opened LruBounds
  import opened LruLaw
  import opened CacheIndex
  import opened CacheRepair
  import opened SnapshotChunks

  datatype CommitCode = DoneOk | NotFound | KeyTooBig | WrongExpiry

  // ---------- Facts the loops need ----------

  lemma {:induction false} EraseAt(items: seq<Node>, p: nat)
    requires DistinctNodes(items) && p < |items|
    ensures EraseNode(items, items[p].id) == items[..p] + items[p + 1..]
  {
    if p == 0 {
    } else {
      var rest := items[1..];
      assert items[0].id != items[p].id && rest[p - 1] == items[p];
      EraseAt(rest, p - 1);
      assert [items[0]] + (rest[..p - 1] + rest[p..]) == items[..p] + items[p + 1..];
    }
  }

  /** Position of the node an iterator points to, or the end. */
  function Position(items: seq<Node>, id: nat): (p: nat)
    ensures p <= |items| && (p < |items| ==> items[p].id == id)
  {
    if items == [] || items[0].id == id then 0 else 1 + Position(items[1..], id)
  }

  lemma {:induction false} PositionAt(items: seq<Node>, p: nat)
    requires DistinctNodes(items) && p < |items|
    ensures Position(items, items[p].id) == p
  {
    if p == 0 {
    } else {
      assert items[0].id != items[p].id && items[1..][p - 1] == items[p];
      PositionAt(items[1..], p - 1);
    }
  }

  lemma {:induction false} PurgedWithout(cfg: Config, rec: seq<Entry>, key: Key, t: int)
    requires cfg.purgeInterval > 0 && Find(rec, key).Some? && Due(cfg, Find(rec, key).value, t)
    ensures Purged(cfg, Without(rec, key), t) == Purged(cfg, rec, t)
  {
    if rec[0].key != key {
      PurgedWithout(cfg, rec[1..], key, t);
      assert ([rec[0]] + Without(rec[1..], key))[1..] == Without(rec[1..], key);
    }
  }

  lemma {:induction false} PurgedNone(cfg: Config, rec: seq<Entry>, t: int)
    requires cfg.purgeInterval > 0 && forall e :: e in rec ==> !Due(cfg, e.item, t)
    ensures Purged(cfg, rec, t) == rec
  {
    if rec == [] {
    } else {
      assert rec[0] in rec;
      PurgedNone(cfg, rec[1..], t);
    }
  }

  /** What a walk from position `it` still has to do to the entries before it. */
  ghost function Pending(cfg: Config, items: seq<Node>, it: nat, key: Key, available: int, required: int): seq<Entry>
    requires it <= |items|
  {
    Evict(cfg, Strip(items[..it]), key, available, required) + Strip(items[it..])
  }

  /** The walk ends with the goal, on nodes of the original list; folded like `Consistent`. */
  ghost predicate Walking(cfg: Config, all: seq<Node>, items: seq<Node>, it: nat, key: Key, available: int,
                          required: int, goal: seq<Entry>)
    requires it <= |items|
  {
    forall x :: Unfold(x) ==> Pending(cfg, items, it, key, available, required) == goal && Within(items, all)
  }

  ghost predicate Within(items: seq<Node>, all: seq<Node>) {
    forall x :: x in items ==> x in all
  }

  lemma Started(cfg: Config, items: seq<Node>, key: Key, available: int, required: int)
    ensures Walking(cfg, items, items, |items|, key, available, required,
                    Evict(cfg, Strip(items), key, available, required))
  {
    assert items[..|items|] == items;
  }

  lemma Stopped(cfg: Config, all: seq<Node>, items: seq<Node>, it: nat, key: Key, available: int, required: int,
                goal: seq<Entry>)
    requires it <= |items| && (it == 0 || available >= required)
    requires Walking(cfg, all, items, it, key, available, required, goal)
    ensures Strip(items) == goal && Within(items, all)
  {
    assert Unfold(0);
    assert Strip(items[..it]) + Strip(items[it..]) == Strip(items);
  }

  /** Skipping the protected node leaves the same work. */
  lemma WalkPast(cfg: Config, all: seq<Node>, items: seq<Node>, it: nat, key: Key, available: int, required: int,
                 goal: seq<Entry>)
    requires 0 < it <= |items| && available < required && items[it - 1].key == key
    requires Walking(cfg, all, items, it, key, available, required, goal)
    ensures Walking(cfg, all, items, it - 1, key, available, required, goal)
  {
    assert Unfold(0);
    var x, left := items[it - 1], Strip(items[..it]);
    assert left[..it - 1] == Strip(items[..it - 1]);
    assert Strip(items[it - 1..]) == [Entry(x.key, x.item)] + Strip(items[it..]);
  }

  /** So does erasing another node and counting its memory. */
  lemma WalkErased(cfg: Config, all: seq<Node>, items: seq<Node>, items': seq<Node>, it: nat, key: Key, available: int,
                   available': int, required: int, goal: seq<Entry>)
    requires 0 < it <= |items| && available < required && items[it - 1].key != key
    requires items' == items[..it - 1] + items[it..]
    requires available' == available + Size(cfg, items[it - 1].key, items[it - 1].item)
    requires Walking(cfg, all, items, it, key, available, required, goal)
    ensures Walking(cfg, all, items', it - 1, key, available', required, goal)
  {
    assert Unfold(0);
    var left := Strip(items[..it]);
    assert left[..it - 1] == Strip(items[..it - 1]);
    assert items'[..it - 1] == items[..it - 1] && items'[it - 1..] == items[it..];
  }

  class Storage {
    const config: Config
    var items: seq<Node>
    var itemMap: map<Key, Iters>
    var buckets: map<int, seq<Slot>>
    var usedMemory: int
    var nextId: nat
    var commitCode: CommitCode

    ghost predicate Valid()
      reads this
    {
      config.purgeInterval > 0 && Consistent(config, items, itemMap, buckets, usedMemory, nextId)
    }

    /** Keys and items from most to least recently used. */
    ghost function Recency(): seq<Entry>
      reads this
    {
      Strip(items)
    }

    constructor (config: Config)
      requires config.purgeInterval > 0
      ensures Valid() && Recency() == [] && this.config == config
    {
      this.config := config;
      items, itemMap, buckets, usedMemory, nextId := [], map[], map[], 0, 0;
      commitCode := DoneOk;
      Agreement(config, [], map[], map[], 0, 0);
    }

    method Clear()
      requires Valid()
      modifies this
      ensures Valid() && Recency() == [] && commitCode == old(commitCode)
    {
      items, itemMap, buckets, usedMemory := [], map[], map[], 0;
      Agreement(config, [], map[], map[], 0, nextId);
    }

    /** The unexpired node of a key. */
    method GetItem(key: Key, when: int) returns (r: Option<Node>)
      requires Valid()
      ensures r.Some? <==> Get(Recency(), key, when).Some?
      ensures r.Some? ==> r.value in items && r.value.key == key && Get(Recency(), key, when) == Some(r.value.item)
    {
      Agreement(config, items, itemMap, buckets, usedMemory, nextId);
      KeyInMap(items, itemMap, nextId, key);
      if key in itemMap {
        ghost var x := KeyNode(items, itemMap, nextId, key);
        var node := FindNode(items, itemMap[key].node).value;
        if !Expired(node.item, when) { return Some(node); }
      }
      return None;
    }

    /** The item a pointer to a list node leads to. */
    function FindItem(node: nat): Item
      requires FindNode(items, node).Some?
      reads this
    {
      FindNode(items, node).value.item
    }

    method RemoveItem(key: Key) returns (next: nat)
      requires Valid()
      modifies `items, `itemMap, `buckets, `usedMemory
      ensures Valid() && Recency() == Without(old(Recency()), key)
      ensures key in old(itemMap) ==>
                && old(itemMap)[key].bucket in old(buckets)
                && itemMap == old(itemMap) - {key}
                && buckets == DropSlot(old(buckets), old(itemMap)[key].bucket, old(itemMap)[key].slot)
                && items == EraseNode(old(items), old(itemMap)[key].node)
                && next == Position(old(items), old(itemMap)[key].node)
      ensures key !in old(itemMap) ==>
                next == |items| && items == old(items) && itemMap == old(itemMap) && buckets == old(buckets)
    {
      if key in itemMap {
        var iters := itemMap[key];
        ghost var x := RemoveKeeps(config, items, itemMap, buckets, usedMemory, nextId, key);
        var size := Size(config, key, FindNode(items, iters.node).value.item);
        next := Position(items, iters.node);
        items := EraseNode(items, iters.node);
        itemMap := itemMap - {key};
        buckets := DropSlot(buckets, iters.bucket, iters.slot);
        usedMemory := usedMemory - size;
      } else {
        Absent(key);
        next := |items|;
      }
    }

    lemma Absent(key: Key)
      requires Valid() && key !in itemMap
      ensures Without(Recency(), key) == Recency() && Find(Recency(), key).None?
    {
      Agreement(config, items, itemMap, buckets, usedMemory, nextId);
      KeyInMap(items, itemMap, nextId, key);
      FindAbsent(Strip(items), key);
      WithoutAbsent(Strip(items), key);
    }

    /** A key already in the map keeps its old iterators: the containers then disagree. */
    method InsertItem(key: Key, item: Item) returns (node: Node)
      requires Valid()
      modifies `items, `itemMap, `buckets, `usedMemory, `nextId
      ensures node == Node(old(nextId), key, item) && items == [node] + old(items)
      ensures Recency() == [Entry(key, item)] + old(Recency())
      ensures Valid() <==> key !in old(itemMap)
      ensures nextId == old(nextId) + 1
    {
      hide Consistent, Strip, AddSlot, NextPurge, Size;
      var t := NextPurge(item.expiresAt, config.purgeInterval);
      var it := Iters(nextId, t, nextId);
      node := Node(nextId, key, item);
      InsertKeeps(config, items, itemMap, buckets, usedMemory, nextId, node, it);
      items := [node] + items;
      itemMap := if key in itemMap then itemMap else itemMap[key := it];
      buckets := AddSlot(buckets, t, Slot(nextId, key));
      usedMemory := usedMemory + Size(config, key, item);
      nextId := nextId + 1;
    }

    /** The nodes of a present key: exactly the one the map points to. */
    lemma NodesOf(key: Key)
      requires Valid() && key in itemMap
      ensures forall x :: x in items ==> (x.key == key <==> x.id == itemMap[key].node)
      ensures forall x :: x in EraseNode(items, itemMap[key].node) ==> x in items
    {
      Agreement(config, items, itemMap, buckets, usedMemory, nextId);
      forall x | x in items ensures x.key == key <==> x.id == itemMap[key].node {
        NodeForKey(items, itemMap, nextId, x, key);
      }
      EraseNodeMembers(items, itemMap[key].node);
    }

    /** No node has an absent key or the next identity. */
    lemma NoNodesOf(key: Key)
      requires Valid() && key !in itemMap
      ensures forall x :: x in items ==> x.key != key && x.id != nextId
    {
      Agreement(config, items, itemMap, buckets, usedMemory, nextId);
      forall x | x in items ensures x.key != key && x.id != nextId { assert NodeOk(itemMap, x, nextId); }
    }

    /** Move the key's slot to the bucket of its new expiry, if that is another one. */
    method UpdateItemExpiryBucket(key: Key, oldExpiry: int, newExpiry: int)
      requires config.purgeInterval > 0 && key in itemMap && itemMap[key].bucket in buckets
      modifies `itemMap, `buckets, `nextId
      ensures var t1, t2 := NextPurge(oldExpiry, config.purgeInterval), NextPurge(newExpiry, config.purgeInterval);
              && itemMap == MovedMap(old(itemMap), key, t1, t2, old(nextId))
              && buckets == MovedBuckets(old(itemMap), old(buckets), key, t1, t2, old(nextId))
              && nextId == if t1 == t2 then old(nextId) else old(nextId) + 1
    {
      var expiry1 := NextPurge(oldExpiry, config.purgeInterval);
      var expiry2 := NextPurge(newExpiry, config.purgeInterval);
      if expiry1 == expiry2 { return; }
      var iters := itemMap[key];
      buckets := AddSlot(buckets, expiry2, Slot(nextId, key));
      itemMap := itemMap[key := iters.(bucket := expiry2, slot := nextId)];
      nextId := nextId + 1;
      buckets := DropSlot(buckets, iters.bucket, iters.slot);
    }

    method UpdateItem(key: Key, item: Item) returns (node: Node)
      requires Valid() && key in itemMap
      modifies `items, `itemMap, `buckets, `usedMemory, `nextId
      ensures Valid() && node == Node(old(itemMap)[key].node, key, item)
      ensures items == [node] + EraseNode(old(items), node.id)
      ensures Recency() == [Entry(key, item)] + Without(old(Recency()), key)
      ensures nextId >= old(nextId)
    {
      var id := itemMap[key].node;
      ghost var x := UpdateKeeps(config, items, itemMap, buckets, usedMemory, nextId, key, item);
      var oldItem := FindNode(items, id).value.item;
      ghost var t1 := NextPurge(oldItem.expiresAt, config.purgeInterval);
      ghost var t2 := NextPurge(item.expiresAt, config.purgeInterval);
      ghost var itemMap' := MovedMap(itemMap, key, t1, t2, nextId);
      ghost var buckets' := MovedBuckets(itemMap, buckets, key, t1, t2, nextId);
      usedMemory := usedMemory + (Size(config, key, item) - Size(config, key, oldItem));
      node := Node(id, key, item);
      items := [node] + EraseNode(items, id);
      UpdateItemExpiryBucket(key, oldItem.expiresAt, item.expiresAt);
      assert itemMap == itemMap' && buckets == buckets';
    }

    /** Move the key's node to the front. */
    method MarkAsRecentlyUsed(key: Key)
      requires Valid()
      modifies `items
      ensures Valid()
      ensures Recency() == match Find(old(Recency()), key)
                           case None => old(Recency())
                           case Some(item) => [Entry(key, item)] + Without(old(Recency()), key)
    {
      if key in itemMap {
        ghost var x := RemoveKeeps(config, items, itemMap, buckets, usedMemory, nextId, key);
        ghost var y := UpdateKeeps(config, items, itemMap, buckets, usedMemory, nextId, key, x.item);
        var node := FindNode(items, itemMap[key].node).value;
        items := [node] + EraseNode(items, itemMap[key].node);
      } else {
        Absent(key);
      }
    }

    method CommitRead(key: Key, readAt: int) returns (ok: bool)
      requires Valid()
      modifies `items, `commitCode
      ensures Valid() && Recency() == Touch(old(Recency()), key, readAt)
      ensures ok <==> Live(old(Recency()), key, readAt)
      ensures ok <==> Get(old(Recency()), key, readAt).Some?
      ensures if ok then MovedToFront(old(Recency()), key, Recency()) else Recency() == old(Recency())
      ensures commitCode == if ok then DoneOk else NotFound
    {
      Sums();
      ReadMoves(Recency(), key, readAt);
      var item := GetItem(key, readAt);
      if item.None? {
        commitCode := NotFound;
        return false;
      }
      commitCode := DoneOk;
      MarkAsRecentlyUsed(key);
      return true;
    }

    method GetRequiredMemory(key: Key, item: Item, writtenAt: int) returns (required: int)
      requires Valid()
      ensures required == Size(config, key, item) - OldSize(config, Recency(), key, writtenAt)
    {
      var oldItem := GetItem(key, writtenAt);
      var oldSize := if oldItem.Some? then Size(config, key, oldItem.value.item) else 0;
      required := Size(config, key, item) - oldSize;
    }

    /** Where a node of the list sits and what erasing it by key does. */
    lemma NodeAt(p: nat)
      requires Valid() && p < |items|
      ensures var x := items[p];
              && x.key in itemMap && itemMap[x.key].node == x.id && Position(items, x.id) == p
              && EraseNode(items, x.id) == items[..p] + items[p + 1..]
    {
      Agreement(config, items, itemMap, buckets, usedMemory, nextId);
      assert NodeOk(itemMap, items[p], nextId);
      EraseAt(items, p);
      PositionAt(items, p);
    }

    lemma Sums()
      requires Valid()
      ensures usedMemory == Total(config, Recency()) && Keyed(Recency())
    {
      Agreement(config, items, itemMap, buckets, usedMemory, nextId);
      ListKeyed(items, itemMap, nextId);
    }

    method EraseBefore(it: nat) returns (next: nat)
      requires Valid() && 0 < it <= |items|
      modifies `items, `itemMap, `buckets, `usedMemory
      ensures Valid() && next == it - 1 && items == old(items)[..it - 1] + old(items)[it..]
    {
      NodeAt(it - 1);
      hide Consistent, Strip;
      next := RemoveItem(items[it - 1].key);
    }

    /** Remove the item before a position by its key, which moves the walk to the position before it. */
    method EvictBefore(it: nat, key: Key, available: int, ghost required: int, ghost all: seq<Node>,
                       ghost goal: seq<Entry>)
      returns (next: nat, availableNow: int)
      requires Valid() && 0 < it <= |items| && available < required && items[it - 1].key != key
      requires Walking(config, all, items, it, key, available, required, goal)
      modifies `items, `itemMap, `buckets, `usedMemory
      ensures Valid() && next == it - 1 <= |items|
      ensures Walking(config, all, items, next, key, availableNow, required, goal)
    {
      ghost var before := items;
      var size := Size(config, items[it - 1].key, items[it - 1].item);
      next := EraseBefore(it);
      availableNow := available + size;
      WalkErased(config, all, before, items, it, key, available, availableNow, required, goal);
    }

    method EvictLruData(key: Key, memoryRequired: int)
      requires Valid()
      modifies `items, `itemMap, `buckets, `usedMemory
      ensures Valid() && Within(items, old(items))
      ensures Recency() == Evict(config, old(Recency()), key, config.cacheSize - old(usedMemory), memoryRequired)
    {
      var available := config.cacheSize - usedMemory;
      if available >= memoryRequired { return; }
      Started(config, items, key, available, memoryRequired);
      EvictBack(key, available, memoryRequired, Evict(config, Recency(), key, available, memoryRequired));
    }

    /** Walk from the back, skipping the protected key, until enough memory is available. */
    method EvictBack(key: Key, availableMemory: int, memoryRequired: int, ghost goal: seq<Entry>)
      requires Valid() && availableMemory < memoryRequired
      requires Walking(config, items, items, |items|, key, availableMemory, memoryRequired, goal)
      modifies `items, `itemMap, `buckets, `usedMemory
      ensures Valid() && Within(items, old(items)) && Recency() == goal
    {
      hide Consistent, Walking, Within, Strip;
      ghost var all := items;
      var available, it := availableMemory, |items|;
      while it > 0
        invariant 0 <= it <= |items| && Valid() && available < memoryRequired
        invariant Walking(config, all, items, it, key, available, memoryRequired, goal)
        decreases it
      {
        if items[it - 1].key == key {
          WalkPast(config, all, items, it, key, available, memoryRequired, goal);
          it := it - 1;
          continue;
        }
        it, available := EvictBefore(it, key, available, memoryRequired, all, goal);
        if available >= memoryRequired { break; }
      }
      Stopped(config, all, items, it, key, available, memoryRequired, goal);
    }

    method CommitWrite(key: Key, item: Item, writtenAt: int) returns (ok: bool)
      requires Valid()
      modifies this
      ensures Recency() == Apply(config, old(Recency()), Write(key, item, writtenAt))
      ensures Valid() <==> CleanCommit(config, old(Recency()), Write(key, item, writtenAt))
      ensures ok <==> |key| <= config.maxKeySize && writtenAt < item.expiresAt
      ensures ok && Valid() ==> LeastEvicted(config, old(Recency()), key, item, Recency())
      ensures !ok ==> Recency() == old(Recency())
      ensures commitCode == if ok then DoneOk else if |key| > config.maxKeySize then KeyTooBig else WrongExpiry
    {
      hide LeastEvicted, Consistent, Strip, Total, Evict, Keyed;
      Sums();
      if |key| > config.maxKeySize {
        commitCode := KeyTooBig;
        return false;
      }
      if Expired(item, writtenAt) {
        commitCode := WrongExpiry;
        return false;
      }
      var required := GetRequiredMemory(key, item, writtenAt);
      ghost var before := Recency();
      if !Stale(before, key, writtenAt) { PutIsMinimal(config, before, key, item, writtenAt); }
      RoomKeepsKey(config, before, key, item, writtenAt);
      EvictLruData(key, required);
      assert Recency() == Room(config, before, key, item, writtenAt);
      Present(key);
      var oldItem := GetItem(key, writtenAt);
      if oldItem.Some? {
        var node := UpdateItem(key, item);
      } else {
        var node := InsertItem(key, item);
      }
      commitCode := DoneOk;
      return true;
    }

    lemma Present(key: Key)
      requires Valid()
      ensures key in itemMap <==> Find(Recency(), key).Some?
    {
      Agreement(config, items, itemMap, buckets, usedMemory, nextId);
      KeyInMap(items, itemMap, nextId, key);
    }

    /** The items a purge must remove are those in the buckets that are due. */
    lemma NothingDue(t: int)
      requires Valid()
      requires forall u | u in buckets :: u > NextPurge(t, config.purgeInterval) - config.purgeInterval
      ensures Purged(config, Recency(), t) == Recency()
    {
      Agreement(config, items, itemMap, buckets, usedMemory, nextId);
      forall e | e in Recency() ensures !Due(config, e.item, t) {
        var i :| 0 <= i < |items| && Strip(items)[i] == e;
        assert NodeOk(itemMap, items[i], nextId);
        assert itemMap[e.key].bucket in buckets;
      }
      PurgedNone(config, Recency(), t);
    }

    lemma SlotDue(t: int, u: int, i: nat)
      requires Valid() && u in buckets && i < |buckets[u]|
      requires u <= NextPurge(t, config.purgeInterval) - config.purgeInterval
      ensures var slot := buckets[u][i];
              && slot.key in itemMap && itemMap[slot.key].bucket == u && itemMap[slot.key].slot == slot.id
              && Purged(config, Without(Recency(), slot.key), t) == Purged(config, Recency(), t)
    {
      Agreement(config, items, itemMap, buckets, usedMemory, nextId);
      var slot := buckets[u][i];
      assert BucketOk(itemMap, u, buckets[u], nextId);
      assert SlotOk(itemMap, u, slot, nextId);
      var x := KeyNode(items, itemMap, nextId, slot.key);
      KeyInMap(items, itemMap, nextId, slot.key);
      PurgedWithout(config, Recency(), slot.key, t);
    }

    lemma NoEmptyBucket(u: int)
      requires Valid() && u in buckets
      ensures buckets[u] != []
    {
      Agreement(config, items, itemMap, buckets, usedMemory, nextId);
      assert BucketOk(itemMap, u, buckets[u], nextId);
    }

    /** Remove every item of one due bucket; the last removal erases the bucket. */
    method PurgeBucket(u: int, ghost t: int)
      requires Valid() && u in buckets && u <= NextPurge(t, config.purgeInterval) - config.purgeInterval
      modifies `items, `itemMap, `buckets, `usedMemory
      ensures Valid() && buckets == old(buckets) - {u}
      ensures Purged(config, Recency(), t) == old(Purged(config, Recency(), t))
    {
      var keys := buckets[u];
      NoEmptyBucket(u);
      var j := 0;
      while j < |keys|
        invariant 0 <= j <= |keys| && Valid()
        invariant j < |keys| ==> buckets == old(buckets)[u := keys[j..]]
        invariant j == |keys| ==> buckets == old(buckets) - {u}
        invariant Purged(config, Recency(), t) == old(Purged(config, Recency(), t))
      {
        SlotDue(t, u, 0);
        assert keys[j..][0] == keys[j] && keys[j..][1..] == keys[j + 1..];
        var next := RemoveItem(keys[j].key);
        j := j + 1;
      }
    }

    method CommitPurge(purgedAt: int)
      requires Valid()
      modifies `items, `itemMap, `buckets, `usedMemory
      ensures Valid() && Recency() == Purged(config, old(Recency()), purgedAt)
    {
      var prev := NextPurge(purgedAt, config.purgeInterval) - config.purgeInterval;
      while buckets != map[]
        invariant Valid() && Purged(config, Recency(), purgedAt) == Purged(config, old(Recency()), purgedAt)
        decreases buckets.Keys
      {
        assert buckets.Keys != {};
        ghost var least := LeastExists(buckets.Keys);
        var u :| u in buckets && forall v | v in buckets :: u <= v;
        if u > prev {
          NothingDue(purgedAt);
          return;
        }
        PurgeBucket(u, purgedAt);
      }
      NothingDue(purgedAt);
    }

    /** Fill one chunk with items from the index on; a negative index, as an unsigned number, is past the end. */
    method ReadSnapshotChunk(chunkSize: nat, itemIndex: int) returns (chunk: array<Byte>, index: int, read: nat)
      ensures fresh(chunk) && read <= chunk.Length == chunkSize
      ensures var rec := Recency();
              var start := if 0 <= itemIndex <= |rec| then itemIndex else |rec|;
              var stop := Stop(config.wordSize, rec, start, chunkSize);
              && chunk[..read] == EncodeAll(config.wordSize, rec[start..stop])
              && index == if stop == |rec| then -1 else stop
    {
      var start := if 0 <= itemIndex <= |items| then itemIndex else |items|;
      chunk, index, read := FillChunk(config.wordSize, Strip(items), start, chunkSize);
    }
  }
}
