/** The overlay's events: a write event points to the overlay's list node, not to a copy of the item. */
module EventLog {
  import opened Wrappers
  import opened Lru
  import opened CacheIndex
  import opened Overlay

  datatype Event =
    | ReadEvent(key: Key, at: int)
    | WriteEvent(key: Key, node: nat, at: int)
    | PurgeEvent(at: int)

  /** The node a write event points to is still in the list, under the event's key. */
  predicate Holds(e: Event, items: seq<Node>) {
    e.WriteEvent? ==> FindNode(items, e.node).Some? && FindNode(items, e.node).value.key == e.key
  }

  function Deref(e: Event, items: seq<Node>): Commit
    requires Holds(e, items)
  {
    match e
    case ReadEvent(key, t) => Read(key, t)
    case WriteEvent(key, node, t) => Write(key, FindNode(items, node).value.item, t)
    case PurgeEvent(t) => Purge(t)
  }

  ghost predicate AllHold(events: seq<Event>, items: seq<Node>) {
    forall i | 0 <= i < |events| :: Holds(events[i], items)
  }

  /** The commits the events stand for. */
  ghost function Denote(events: seq<Event>, items: seq<Node>): (r: seq<Commit>)
    requires AllHold(events, items)
    ensures |r| == |events| && forall i | 0 <= i < |r| :: r[i] == Deref(events[i], items)
  {
    seq(|events|, i requires 0 <= i < |events| => Deref(events[i], items))
  }

  ghost predicate HasEvent(events: seq<Event>, id: nat) {
    exists i | 0 <= i < |events| :: events[i].WriteEvent? && events[i].node == id
  }

  /** Every write event's node is there, and every node has an event. */
  ghost predicate Tied(events: seq<Event>, items: seq<Node>) {
    AllHold(events, items) && forall x :: x in items ==> HasEvent(events, x.id)
  }

  lemma {:induction false} FindErased(items: seq<Node>, id: nat, n: nat)
    requires n != id
    ensures FindNode(EraseNode(items, id), n) == FindNode(items, n)
  {
    if items != [] && items[0].id != id {
      FindErased(items[1..], id, n);
      assert ([items[0]] + EraseNode(items[1..], id))[1..] == EraseNode(items[1..], id);
    }
  }

  lemma {:induction false} FindIsMember(items: seq<Node>, id: nat)
    requires FindNode(items, id).Some?
    ensures FindNode(items, id).value in items && FindNode(items, id).value.id == id
  {
    if items[0].id != id { FindIsMember(items[1..], id); }
  }

  lemma FindFront(node: Node, items: seq<Node>, n: nat)
    ensures FindNode([node] + items, n) == if node.id == n then Some(node) else FindNode(items, n)
  {
    assert ([node] + items)[1..] == items;
  }

  lemma EventsGrow(events: seq<Event>, e: Event, id: nat)
    ensures HasEvent(events + [e], id) <==> HasEvent(events, id) || (e.WriteEvent? && e.node == id)
  {
    var all := events + [e];
    if HasEvent(events, id) {
      var i :| 0 <= i < |events| && events[i].WriteEvent? && events[i].node == id;
      assert all[i] == events[i];
    }
    if e.WriteEvent? && e.node == id { assert all[|events|] == e; }
  }

  lemma TiedOther(events: seq<Event>, items: seq<Node>, e: Event)
    requires Tied(events, items) && !e.WriteEvent?
    ensures Tied(events + [e], items)
    ensures Denote(events + [e], items) == Denote(events, items) + [Deref(e, items)]
  {
    forall x | x in items ensures HasEvent(events + [e], x.id) { EventsGrow(events, e, x.id); }
  }

  /** What an event says once its key's node is in front with a new item. */
  lemma FrontEvent(e: Event, items: seq<Node>, rest: seq<Node>, node: Node)
    requires Holds(e, items)
    requires forall n: nat | n != node.id :: FindNode(rest, n) == FindNode(items, n)
    requires forall x :: x in items ==> (x.key == node.key <==> x.id == node.id)
    ensures Holds(e, [node] + rest)
    ensures Deref(e, [node] + rest) ==
            if e.WriteEvent? && e.key == node.key then Write(node.key, node.item, e.at) else Deref(e, items)
  {
    if e.WriteEvent? {
      FindFront(node, rest, e.node);
      FindIsMember(items, e.node);
    }
  }

  lemma FrontTied(events: seq<Event>, items: seq<Node>, rest: seq<Node>, node: Node, at: int)
    requires Tied(events, items)
    requires forall n: nat | n != node.id :: FindNode(rest, n) == FindNode(items, n)
    requires forall x :: x in items ==> (x.key == node.key <==> x.id == node.id)
    requires forall x :: x in rest ==> x in items
    ensures var events' := events + [WriteEvent(node.key, node.id, at)];
            && Tied(events', [node] + rest)
            && Denote(events', [node] + rest) ==
               Overwritten(Denote(events, items), node.key, node.item) + [Write(node.key, node.item, at)]
  {
    var e, items' := WriteEvent(node.key, node.id, at), [node] + rest;
    var events' := events + [e];
    forall i | 0 <= i < |events'|
      ensures Holds(events'[i], items')
      ensures i < |events| ==> Deref(events'[i], items') == Overwritten(Denote(events, items), node.key, node.item)[i]
    {
      if i < |events| { FrontEvent(events[i], items, rest, node); } else { FindFront(node, rest, node.id); }
    }
    forall x | x in items' ensures HasEvent(events', x.id) {
      EventsGrow(events, e, x.id);
      assert x == node || x in items;
    }
    FindFront(node, rest, node.id);
    assert Denote(events', items') ==
           Overwritten(Denote(events, items), node.key, node.item) + [Write(node.key, node.item, at)];
  }

  /** A node that left the list leaves an event pointing nowhere. */
  lemma Dangling(events: seq<Event>, items: seq<Node>, x: Node, items': seq<Node>, events': seq<Event>)
    requires Tied(events, items) && x in items && events <= events'
    requires forall y :: y in items' ==> y.id != x.id
    ensures !Tied(events', items')
  {
    assert HasEvent(events, x.id);
    var i :| 0 <= i < |events| && events[i].WriteEvent? && events[i].node == x.id;
    assert events'[i] == events[i];
    assert FindNode(items', x.id).None? by {
      if FindNode(items', x.id).Some? { FindIsMember(items', x.id); }
    }
  }
}
