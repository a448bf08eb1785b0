/**
  The three containers behind the cache: the recency list, the key map of iterators and the expiry buckets.
  A list iterator is modelled by the identity of its node, which erasing or moving other nodes does not change.
 */
module CacheIndex {
  import opened Wrappers
  import opened Lru

  datatype Node = Node(id: nat, key: Key, item: Item)

  /** An element of an expiry bucket. */
  datatype Slot = Slot(id: nat, key: Key)

  /** The iterators kept per key: list node, bucket time, bucket element. */
  datatype Iters = Iters(node: nat, bucket: int, slot: nat)

  // ---------- Lists of nodes ----------

  function Strip(items: seq<Node>): (r: seq<Entry>)
    ensures |r| == |items|
    ensures forall i | 0 <= i < |r| :: r[i] == Entry(items[i].key, items[i].item)
  {
    seq(|items|, i requires 0 <= i < |items| => Entry(items[i].key, items[i].item))
  }

  ghost predicate DistinctNodes(items: seq<Node>) {
    forall i, j | 0 <= i < j < |items| :: items[i].id != items[j].id
  }

  function FindNode(items: seq<Node>, id: nat): Option<Node> {
    if items == [] then None
    else if items[0].id == id then Some(items[0])
    else FindNode(items[1..], id)
  }

  /** The list without the node an iterator points to. */
  function EraseNode(items: seq<Node>, id: nat): seq<Node> {
    if items == [] then []
    else if items[0].id == id then items[1..]
    else [items[0]] + EraseNode(items[1..], id)
  }

  lemma NodeTail(items: seq<Node>, x: Node)
    requires DistinctNodes(items) && items != []
    ensures DistinctNodes(items[1..]) && (x in items <==> x == items[0] || x in items[1..])
    ensures x in items[1..] ==> x.id != items[0].id
  {
    var rest := items[1..];
    assert forall i | 0 <= i < |rest| :: rest[i] == items[i + 1];
  }

  lemma {:induction false} EraseNodeMember(items: seq<Node>, id: nat, x: Node)
    requires DistinctNodes(items)
    ensures x in EraseNode(items, id) <==> x in items && x.id != id
  {
    if items == [] {
    } else {
      NodeTail(items, x);
      if items[0].id != id { EraseNodeMember(items[1..], id, x); }
    }
  }

  lemma {:induction false} EraseNodeMembers(items: seq<Node>, id: nat)
    requires DistinctNodes(items)
    ensures DistinctNodes(EraseNode(items, id))
    ensures forall x :: x in EraseNode(items, id) <==> x in items && x.id != id
  {
    forall x ensures x in EraseNode(items, id) <==> x in items && x.id != id { EraseNodeMember(items, id, x); }
    if items == [] {
    } else {
      NodeTail(items, items[0]);
      if items[0].id != id {
        EraseNodeMembers(items[1..], id);
        var rest := EraseNode(items[1..], id);
        forall i | 0 <= i < |rest| ensures rest[i].id != items[0].id { NodeTail(items, rest[i]); }
      }
    }
  }

  lemma {:induction false} FindNodeMember(items: seq<Node>, x: Node)
    requires DistinctNodes(items) && x in items
    ensures FindNode(items, x.id) == Some(x)
  {
    if items[0] != x {
      assert x in items[1..];
      var j :| 0 <= j < |items[1..]| && items[1..][j] == x;
      assert items[j + 1] == x;
      FindNodeMember(items[1..], x);
    }
  }

  // ---------- Buckets ----------

  ghost predicate DistinctSlots(slots: seq<Slot>) {
    forall i, j | 0 <= i < j < |slots| :: slots[i].id != slots[j].id
  }

  function EraseSlot(slots: seq<Slot>, id: nat): seq<Slot> {
    if slots == [] then []
    else if slots[0].id == id then slots[1..]
    else [slots[0]] + EraseSlot(slots[1..], id)
  }

  lemma SlotTail(slots: seq<Slot>, x: Slot)
    requires DistinctSlots(slots) && slots != []
    ensures DistinctSlots(slots[1..]) && (x in slots <==> x == slots[0] || x in slots[1..])
    ensures x in slots[1..] ==> x.id != slots[0].id
  {
    var rest := slots[1..];
    assert forall i | 0 <= i < |rest| :: rest[i] == slots[i + 1];
  }

  lemma {:induction false} EraseSlotMember(slots: seq<Slot>, id: nat, x: Slot)
    requires DistinctSlots(slots)
    ensures x in EraseSlot(slots, id) <==> x in slots && x.id != id
  {
    if slots == [] {
    } else {
      SlotTail(slots, x);
      if slots[0].id != id { EraseSlotMember(slots[1..], id, x); }
    }
  }

  lemma {:induction false} EraseSlotMembers(slots: seq<Slot>, id: nat)
    requires DistinctSlots(slots)
    ensures DistinctSlots(EraseSlot(slots, id))
    ensures forall x :: x in EraseSlot(slots, id) <==> x in slots && x.id != id
  {
    forall x ensures x in EraseSlot(slots, id) <==> x in slots && x.id != id { EraseSlotMember(slots, id, x); }
    if slots == [] {
    } else {
      SlotTail(slots, slots[0]);
      if slots[0].id != id {
        EraseSlotMembers(slots[1..], id);
        var rest := EraseSlot(slots[1..], id);
        forall i | 0 <= i < |rest| ensures rest[i].id != slots[0].id { SlotTail(slots, rest[i]); }
      }
    }
  }

  function AddSlot(buckets: map<int, seq<Slot>>, t: int, slot: Slot): map<int, seq<Slot>> {
    buckets[t := (if t in buckets then buckets[t] else []) + [slot]]
  }

  /** Erase one element and, if that empties its bucket, the bucket. */
  function DropSlot(buckets: map<int, seq<Slot>>, t: int, id: nat): map<int, seq<Slot>>
    requires t in buckets
  {
    var slots := EraseSlot(buckets[t], id);
    if slots == [] then buckets - {t} else buckets[t := slots]
  }

  /** The map after a key's slot moves from bucket t1 to bucket t2 under a new identity. */
  function MovedMap(m: map<Key, Iters>, key: Key, t1: int, t2: int, nextId: nat): map<Key, Iters>
    requires key in m
  {
    if t1 == t2 then m else m[key := m[key].(bucket := t2, slot := nextId)]
  }

  /** The buckets after that move: the new element goes in before the old one is erased. */
  function MovedBuckets(m: map<Key, Iters>, buckets: map<int, seq<Slot>>, key: Key, t1: int, t2: int,
                        nextId: nat): map<int, seq<Slot>>
    requires key in m && m[key].bucket in buckets
  {
    if t1 == t2 then buckets else DropSlot(AddSlot(buckets, t2, Slot(nextId, key)), m[key].bucket, m[key].slot)
  }

  // ---------- Agreement of the containers ----------

  ghost predicate NodeOk(m: map<Key, Iters>, x: Node, nextId: nat) {
    x.id < nextId && x.key in m && m[x.key].node == x.id
  }

  ghost predicate HasNode(items: seq<Node>, key: Key) {
    exists x :: x in items && x.key == key
  }

  /** The list holds one node per key of the map, and the map points to it. */
  ghost predicate ListOk(items: seq<Node>, m: map<Key, Iters>, nextId: nat) {
    && DistinctNodes(items)
    && (forall x :: x in items ==> NodeOk(m, x, nextId))
    && (forall k :: k in m ==> HasNode(items, k))
  }

  ghost predicate SlotOk(m: map<Key, Iters>, t: int, x: Slot, nextId: nat) {
    x.id < nextId && x.key in m && m[x.key].bucket == t && m[x.key].slot == x.id
  }

  ghost predicate BucketOk(m: map<Key, Iters>, t: int, slots: seq<Slot>, nextId: nat) {
    slots != [] && DistinctSlots(slots) && forall x :: x in slots ==> SlotOk(m, t, x, nextId)
  }

  /** Each key of the map is in exactly the bucket it points to, and no bucket is empty. */
  ghost predicate BucketsOk(m: map<Key, Iters>, buckets: map<int, seq<Slot>>, nextId: nat) {
    && (forall k :: k in m ==> m[k].bucket in buckets && Slot(m[k].slot, k) in buckets[m[k].bucket])
    && (forall t :: t in buckets ==> BucketOk(m, t, buckets[t], nextId))
  }

  /** Each item's bucket is the one for its expiry. */
  ghost predicate TimesOk(cfg: Config, items: seq<Node>, m: map<Key, Iters>)
    requires cfg.purgeInterval > 0
  {
    forall x :: x in items && x.key in m ==> m[x.key].bucket == NextPurge(x.item.expiresAt, cfg.purgeInterval)
  }

  lemma NodeForKey(items: seq<Node>, m: map<Key, Iters>, nextId: nat, x: Node, key: Key)
    requires ListOk(items, m, nextId) && x in items && key in m
    ensures x.key == key <==> x.id == m[key].node
  {
    assert NodeOk(m, x, nextId);
    assert HasNode(items, key);
    var y :| y in items && y.key == key;
    assert NodeOk(m, y, nextId);
    FindNodeMember(items, x);
    FindNodeMember(items, y);
  }

  lemma {:induction false} EraseIsWithout(items: seq<Node>, key: Key, id: nat)
    requires forall x :: x in items ==> (x.key == key <==> x.id == id)
    ensures Strip(EraseNode(items, id)) == Without(Strip(items), key)
  {
    if items == [] {
    } else {
      assert items[0] in items && Strip(items)[1..] == Strip(items[1..]);
      if items[0].id != id {
        EraseIsWithout(items[1..], key, id);
        assert Strip([items[0]] + EraseNode(items[1..], id)) == [Strip(items)[0]] + Strip(EraseNode(items[1..], id));
      }
    }
  }

  lemma {:induction false} FindIsFind(items: seq<Node>, key: Key, id: nat)
    requires forall x :: x in items ==> (x.key == key <==> x.id == id)
    ensures Find(Strip(items), key) == (match FindNode(items, id) case None => None case Some(x) => Some(x.item))
    ensures FindNode(items, id).Some? ==> FindNode(items, id).value in items && FindNode(items, id).value.id == id
  {
    if items == [] {
    } else {
      assert items[0] in items && Strip(items)[1..] == Strip(items[1..]);
      if items[0].id != id { FindIsFind(items[1..], key, id); }
    }
  }

  /** The list has no two entries of one key. */
  lemma ListKeyed(items: seq<Node>, m: map<Key, Iters>, nextId: nat)
    requires ListOk(items, m, nextId)
    ensures Keyed(Strip(items))
  {
    forall i, j | 0 <= i < j < |items| ensures items[i].key != items[j].key {
      assert NodeOk(m, items[i], nextId) && NodeOk(m, items[j], nextId);
    }
  }

  lemma KeyInMap(items: seq<Node>, m: map<Key, Iters>, nextId: nat, key: Key)
    requires ListOk(items, m, nextId)
    ensures key in m <==> Find(Strip(items), key).Some?
    ensures key in m ==> FindNode(items, m[key].node).Some? && FindNode(items, m[key].node).value.key == key
    ensures key in m ==> Find(Strip(items), key) == Some(FindNode(items, m[key].node).value.item)
  {
    if key in m {
      forall x | x in items ensures x.key == key <==> x.id == m[key].node { NodeForKey(items, m, nextId, x, key); }
      FindIsFind(items, key, m[key].node);
      assert HasNode(items, key);
      var y :| y in items && y.key == key;
      assert NodeOk(m, y, nextId);
      FindNodeMember(items, y);
    } else {
      forall i | 0 <= i < |items| ensures Strip(items)[i].key != key { assert NodeOk(m, items[i], nextId); }
      FindAbsent(Strip(items), key);
    }
  }
}
