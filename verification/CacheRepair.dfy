/** Each elementary change of the three containers keeps them in agreement. */
module CacheRepair {
  import opened Wrappers
  import opened Lru
  import opened LruBounds
  import opened CacheIndex

  // ---------- The list ----------

  lemma EraseList(items: seq<Node>, m: map<Key, Iters>, nextId: nat, key: Key)
    requires ListOk(items, m, nextId) && key in m
    ensures ListOk(EraseNode(items, m[key].node), m - {key}, nextId)
    ensures Strip(EraseNode(items, m[key].node)) == Without(Strip(items), key)
    ensures forall y :: y in EraseNode(items, m[key].node) ==> y.id != m[key].node
  {
    var id, m' := m[key].node, m - {key};
    var items' := EraseNode(items, id);
    EraseNodeMembers(items, id);
    forall x | x in items ensures x.key == key <==> x.id == id { NodeForKey(items, m, nextId, x, key); }
    EraseIsWithout(items, key, id);
    forall x | x in items' ensures NodeOk(m', x, nextId) { assert NodeOk(m, x, nextId); }
    forall k | k in m' ensures HasNode(items', k) {
      assert HasNode(items, k);
      var y :| y in items && y.key == k;
      assert y in items';
    }
  }

  /** A new node at the front, with the map pointing to it. */
  lemma PushList(items: seq<Node>, m: map<Key, Iters>, nextId: nat, x: Node, it: Iters)
    requires ListOk(items, m, nextId) && x.key !in m && x.id < nextId
    requires forall y :: y in items ==> y.id != x.id
    requires it.node == x.id
    ensures ListOk([x] + items, m[x.key := it], nextId)
    ensures Strip([x] + items) == [Entry(x.key, x.item)] + Strip(items)
  {
    var items', m' := [x] + items, m[x.key := it];
    forall y | y in items' ensures NodeOk(m', y, nextId) { assert y != x ==> NodeOk(m, y, nextId); }
    forall k | k in m' ensures HasNode(items', k) {
      if k == x.key {
        assert x in items';
      } else {
        assert HasNode(items, k);
        var y :| y in items && y.key == k;
        assert y in items';
      }
    }
    forall i, j | 0 <= i < j < |items'| ensures items'[i].id != items'[j].id {
      assert items'[j] == items[j - 1] && items[j - 1] in items;
      assert i > 0 ==> items'[i] == items[i - 1];
    }
  }

  /** The node of a key, perhaps with another item, moves to the front. */
  lemma FrontList(items: seq<Node>, m: map<Key, Iters>, nextId: nat, key: Key, item: Item)
    requires ListOk(items, m, nextId) && key in m && m[key].node < nextId
    ensures var items' := [Node(m[key].node, key, item)] + EraseNode(items, m[key].node);
            ListOk(items', m, nextId) && Strip(items') == [Entry(key, item)] + Without(Strip(items), key)
  {
    hide ListOk, Strip, Without, EraseNode;
    EraseList(items, m, nextId, key);
    assert m == (m - {key})[key := m[key]];
    PushList(EraseNode(items, m[key].node), m - {key}, nextId, Node(m[key].node, key, item), m[key]);
  }

  lemma LaterNodes(items: seq<Node>, m: map<Key, Iters>, nextId: nat)
    requires ListOk(items, m, nextId)
    ensures ListOk(items, m, nextId + 1)
    ensures forall x :: x in items ==> x.id != nextId
  {
    forall x | x in items ensures NodeOk(m, x, nextId + 1) && x.id != nextId { assert NodeOk(m, x, nextId); }
  }

  lemma KeyNode(items: seq<Node>, m: map<Key, Iters>, nextId: nat, key: Key) returns (x: Node)
    requires ListOk(items, m, nextId) && key in m
    ensures x in items && x.key == key && x.id == m[key].node < nextId
    ensures FindNode(items, m[key].node) == Some(x)
  {
    assert HasNode(items, key);
    x :| x in items && x.key == key;
    assert NodeOk(m, x, nextId);
    FindNodeMember(items, x);
  }

  // ---------- The buckets ----------

  lemma DropBucket(m: map<Key, Iters>, buckets: map<int, seq<Slot>>, nextId: nat, key: Key)
    requires BucketsOk(m, buckets, nextId) && key in m
    ensures BucketsOk(m - {key}, DropSlot(buckets, m[key].bucket, m[key].slot), nextId)
  {
    var m', t0, id := m - {key}, m[key].bucket, m[key].slot;
    var buckets' := DropSlot(buckets, t0, id);
    assert BucketOk(m, t0, buckets[t0], nextId);
    EraseSlotMembers(buckets[t0], id);
    forall x | x in buckets[t0] ensures x.key == key <==> x.id == id {
      assert SlotOk(m, t0, x, nextId);
      SameSlot(buckets[t0], x, Slot(id, key));
    }
    forall t | t in buckets' ensures BucketOk(m', t, buckets'[t], nextId) {
      assert BucketOk(m, t, buckets[t], nextId);
      forall x | x in buckets'[t] ensures SlotOk(m', t, x, nextId) {
        assert SlotOk(m, t, x, nextId);
      }
    }
    forall k | k in m' ensures m'[k].bucket in buckets' && Slot(m'[k].slot, k) in buckets'[m'[k].bucket] {
      var s := Slot(m[k].slot, k);
      assert s in buckets[m[k].bucket];
      assert m[k].bucket == t0 ==> s in EraseSlot(buckets[t0], id);
    }
  }

  lemma SameSlot(slots: seq<Slot>, x: Slot, y: Slot)
    requires DistinctSlots(slots) && x in slots && y in slots
    ensures x.id == y.id ==> x == y
  {
    var i :| 0 <= i < |slots| && slots[i] == x;
    var j :| 0 <= j < |slots| && slots[j] == y;
  }

  lemma AddBucket(m: map<Key, Iters>, buckets: map<int, seq<Slot>>, nextId: nat, key: Key, it: Iters)
    requires BucketsOk(m, buckets, nextId) && key !in m && it.slot < nextId
    requires forall t, x :: t in buckets && x in buckets[t] ==> x.id != it.slot
    ensures BucketsOk(m[key := it], AddSlot(buckets, it.bucket, Slot(it.slot, key)), nextId)
  {
    var m', slot := m[key := it], Slot(it.slot, key);
    var buckets' := AddSlot(buckets, it.bucket, slot);
    forall t | t in buckets' ensures BucketOk(m', t, buckets'[t], nextId) {
      if t in buckets {
        assert BucketOk(m, t, buckets[t], nextId);
        forall x | x in buckets[t] ensures SlotOk(m', t, x, nextId) { assert SlotOk(m, t, x, nextId); }
        forall i | 0 <= i < |buckets[t]| ensures buckets[t][i].id != it.slot { assert buckets[t][i] in buckets[t]; }
      }
    }
  }

  lemma FreshSlot(m: map<Key, Iters>, buckets: map<int, seq<Slot>>, nextId: nat)
    requires BucketsOk(m, buckets, nextId)
    ensures forall t, x :: t in buckets && x in buckets[t] ==> x.id != nextId
  {
    forall t, x | t in buckets && x in buckets[t] ensures x.id != nextId {
      assert BucketOk(m, t, buckets[t], nextId);
      assert SlotOk(m, t, x, nextId);
    }
  }

  /** Adding to one bucket and dropping from another can be done in either order. */
  lemma DropAfterAdd(buckets: map<int, seq<Slot>>, t0: int, id: nat, t1: int, slot: Slot)
    requires t0 in buckets && t0 != t1
    ensures DropSlot(AddSlot(buckets, t1, slot), t0, id) == AddSlot(DropSlot(buckets, t0, id), t1, slot)
  {
    assert AddSlot(buckets, t1, slot)[t0] == buckets[t0];
  }

  lemma MoveBucket(m: map<Key, Iters>, buckets: map<int, seq<Slot>>, nextId: nat, key: Key, t: int)
    requires BucketsOk(m, buckets, nextId) && key in m && m[key].bucket != t
    ensures var it := m[key].(bucket := t, slot := nextId);
            BucketsOk(m[key := it], DropSlot(AddSlot(buckets, t, Slot(nextId, key)), m[key].bucket, m[key].slot),
                      nextId + 1)
  {
    var it := m[key].(bucket := t, slot := nextId);
    DropAfterAdd(buckets, m[key].bucket, m[key].slot, t, Slot(nextId, key));
    DropBucket(m, buckets, nextId, key);
    var m', b' := m - {key}, DropSlot(buckets, m[key].bucket, m[key].slot);
    FreshSlot(m', b', nextId);
    LaterSlots(m', b', nextId);
    AddBucket(m', b', nextId + 1, key, it);
    assert m'[key := it] == m[key := it];
  }

  lemma LaterSlots(m: map<Key, Iters>, buckets: map<int, seq<Slot>>, nextId: nat)
    requires BucketsOk(m, buckets, nextId)
    ensures BucketsOk(m, buckets, nextId + 1)
  {
    forall t | t in buckets ensures BucketOk(m, t, buckets[t], nextId + 1) {
      assert BucketOk(m, t, buckets[t], nextId);
      forall x | x in buckets[t] ensures SlotOk(m, t, x, nextId + 1) { assert SlotOk(m, t, x, nextId); }
    }
  }

  // ---------- All containers ----------

  /** The containers agree and the counter is the exact sum of the sizes. */
  ghost predicate Agree(cfg: Config, items: seq<Node>, m: map<Key, Iters>, buckets: map<int, seq<Slot>>, used: int,
                        nextId: nat)
  {
    && cfg.purgeInterval > 0
    && ListOk(items, m, nextId) && BucketsOk(m, buckets, nextId) && TimesOk(cfg, items, m)
    && used == Total(cfg, Strip(items))
  }

  /** `Agree`, kept folded: a proof that needs its parts says so with `Agreement`. */
  ghost predicate Consistent(cfg: Config, items: seq<Node>, m: map<Key, Iters>, buckets: map<int, seq<Slot>>, used: int,
                             nextId: nat)
  {
    forall x :: Unfold(x) ==> Agree(cfg, items, m, buckets, used, nextId)
  }

  lemma Agreement(cfg: Config, items: seq<Node>, m: map<Key, Iters>, buckets: map<int, seq<Slot>>, used: int,
                  nextId: nat)
    ensures Consistent(cfg, items, m, buckets, used, nextId) <==> Agree(cfg, items, m, buckets, used, nextId)
  {
    assert Unfold(0);
  }

  lemma RemoveKeeps(cfg: Config, items: seq<Node>, m: map<Key, Iters>, buckets: map<int, seq<Slot>>, used: int,
                    nextId: nat, key: Key) returns (x: Node)
    requires Consistent(cfg, items, m, buckets, used, nextId) && key in m
    ensures m[key].bucket in buckets && FindNode(items, m[key].node) == Some(x) && x.key == key
    ensures Consistent(cfg, EraseNode(items, m[key].node), m - {key}, DropSlot(buckets, m[key].bucket, m[key].slot),
                       used - Size(cfg, key, x.item), nextId)
    ensures Strip(EraseNode(items, m[key].node)) == Without(Strip(items), key)
  {
    Agreement(cfg, items, m, buckets, used, nextId);
    x := KeyNode(items, m, nextId, key);
    EraseList(items, m, nextId, key);
    DropBucket(m, buckets, nextId, key);
    EraseTimes(cfg, items, m, key, m[key].node);
    KeyInMap(items, m, nextId, key);
    TotalWithout(cfg, Strip(items), key);
    Agreement(cfg, EraseNode(items, m[key].node), m - {key}, DropSlot(buckets, m[key].bucket, m[key].slot),
              used - Size(cfg, key, x.item), nextId);
  }

  lemma EraseTimes(cfg: Config, items: seq<Node>, m: map<Key, Iters>, key: Key, id: nat)
    requires cfg.purgeInterval > 0 && TimesOk(cfg, items, m) && DistinctNodes(items)
    ensures TimesOk(cfg, EraseNode(items, id), m - {key})
  {
    EraseNodeMembers(items, id);
  }

  /** Inserting keeps agreement exactly when the key was absent. */
  lemma InsertKeeps(cfg: Config, items: seq<Node>, m: map<Key, Iters>, buckets: map<int, seq<Slot>>, used: int,
                    nextId: nat, node: Node, it: Iters)
    requires Consistent(cfg, items, m, buckets, used, nextId) && cfg.purgeInterval > 0
    requires node.id == nextId && it == Iters(nextId, NextPurge(node.item.expiresAt, cfg.purgeInterval), nextId)
    ensures Consistent(cfg, [node] + items, if node.key in m then m else m[node.key := it],
                       AddSlot(buckets, it.bucket, Slot(nextId, node.key)),
                       used + Size(cfg, node.key, node.item), nextId + 1)
            <==> node.key !in m
    ensures Strip([node] + items) == [Entry(node.key, node.item)] + Strip(items)
  {
    var key, items' := node.key, [node] + items;
    var m' := if key in m then m else m[key := it];
    var buckets' := AddSlot(buckets, it.bucket, Slot(nextId, key));
    Agreement(cfg, items, m, buckets, used, nextId);
    Agreement(cfg, items', m', buckets', used + Size(cfg, key, node.item), nextId + 1);
    assert Strip(items') == [Entry(key, node.item)] + Strip(items);
    if key in m {
      var y := KeyNode(items, m, nextId, key);
      assert node in items' && !NodeOk(m, node, nextId + 1);
    } else {
      LaterNodes(items, m, nextId);
      LaterSlots(m, buckets, nextId);
      FreshSlot(m, buckets, nextId);
      PushList(items, m, nextId + 1, node, it);
      AddBucket(m, buckets, nextId + 1, key, it);
      ConsTotal(cfg, Entry(key, node.item), Strip(items));
      PushTimes(cfg, items, m, node, it);
    }
  }

  lemma PushTimes(cfg: Config, items: seq<Node>, m: map<Key, Iters>, node: Node, it: Iters)
    requires cfg.purgeInterval > 0 && TimesOk(cfg, items, m)
    requires forall x :: x in items ==> x.key != node.key
    requires it.bucket == NextPurge(node.item.expiresAt, cfg.purgeInterval)
    ensures TimesOk(cfg, [node] + items, m[node.key := it])
  {
    var items', m' := [node] + items, m[node.key := it];
    forall x | x in items' && x.key in m' ensures m'[x.key].bucket == NextPurge(x.item.expiresAt, cfg.purgeInterval) {
      assert x == node || x in items;
    }
  }

  lemma Rebucketed(items: seq<Node>, m: map<Key, Iters>, nextId: nat, key: Key, it: Iters)
    requires ListOk(items, m, nextId) && key in m && it.node == m[key].node
    ensures ListOk(items, m[key := it], nextId)
  {
    forall x | x in items ensures NodeOk(m[key := it], x, nextId) { assert NodeOk(m, x, nextId); }
  }

  lemma FrontTimes(cfg: Config, items: seq<Node>, m: map<Key, Iters>, nextId: nat, key: Key, item: Item, it: Iters)
    requires cfg.purgeInterval > 0 && ListOk(items, m, nextId) && TimesOk(cfg, items, m) && key in m
    requires it.bucket == NextPurge(item.expiresAt, cfg.purgeInterval)
    ensures TimesOk(cfg, [Node(m[key].node, key, item)] + EraseNode(items, m[key].node), m[key := it])
  {
    var rest := EraseNode(items, m[key].node);
    EraseNodeMembers(items, m[key].node);
    forall x | x in rest ensures x.key != key { NodeForKey(items, m, nextId, x, key); }
    EraseTimes(cfg, items, m, key, m[key].node);
    PushTimes(cfg, rest, m - {key}, Node(m[key].node, key, item), it);
    assert (m - {key})[key := it] == m[key := it];
  }

  lemma FrontTotal(cfg: Config, items: seq<Node>, key: Key, item: Item, rest: seq<Entry>)
    requires Find(Strip(items), key).Some? && rest == Without(Strip(items), key)
    ensures Total(cfg, [Entry(key, item)] + rest) ==
            Total(cfg, Strip(items)) + Size(cfg, key, item) - Size(cfg, key, Find(Strip(items), key).value)
  {
    TotalWithout(cfg, Strip(items), key);
    ConsTotal(cfg, Entry(key, item), rest);
  }

  /** Replacing the item of a present key, moving its node to the front and its slot to the right bucket. */
  lemma UpdateKeeps(cfg: Config, items: seq<Node>, m: map<Key, Iters>, buckets: map<int, seq<Slot>>, used: int,
                    nextId: nat, key: Key, item: Item) returns (x: Node)
    requires Consistent(cfg, items, m, buckets, used, nextId) && key in m && cfg.purgeInterval > 0
    ensures m[key].bucket in buckets && FindNode(items, m[key].node) == Some(x)
    ensures x in items && x.key == key && x.id == m[key].node && Find(Strip(items), key) == Some(x.item)
    ensures var items' := [Node(x.id, key, item)] + EraseNode(items, x.id);
            var t0, t := NextPurge(x.item.expiresAt, cfg.purgeInterval), NextPurge(item.expiresAt, cfg.purgeInterval);
            var used' := used + Size(cfg, key, item) - Size(cfg, key, x.item);
            && Strip(items') == [Entry(key, item)] + Without(Strip(items), key)
            && Consistent(cfg, items', MovedMap(m, key, t0, t, nextId), MovedBuckets(m, buckets, key, t0, t, nextId),
                          used',
                          if t0 == t then nextId else nextId + 1)
  {
    hide Consistent, ListOk, Strip, Without, Total, Size, EraseNode, DropSlot, Find, FindNode;
    Agreement(cfg, items, m, buckets, used, nextId);
    x := KeyNode(items, m, nextId, key);
    KeyInMap(items, m, nextId, key);
    FrontList(items, m, nextId, key, item);
    var items' := [Node(x.id, key, item)] + EraseNode(items, x.id);
    var t := NextPurge(item.expiresAt, cfg.purgeInterval);
    var used' := used + Size(cfg, key, item) - Size(cfg, key, x.item);
    FrontTotal(cfg, items, key, item, Without(Strip(items), key));
    if t == m[key].bucket {
      FrontTimes(cfg, items, m, nextId, key, item, m[key]);
      assert m[key := m[key]] == m;
      Agreement(cfg, items', m, buckets, used', nextId);
    } else {
      var it := m[key].(bucket := t, slot := nextId);
      FrontTimes(cfg, items, m, nextId, key, item, it);
      LaterNodes(items', m, nextId);
      Rebucketed(items', m, nextId + 1, key, it);
      MoveBucket(m, buckets, nextId, key, t);
      Agreement(cfg, items', m[key := it],
                DropSlot(AddSlot(buckets, t, Slot(nextId, key)), m[key].bucket, m[key].slot), used', nextId + 1);
    }
  }
}
