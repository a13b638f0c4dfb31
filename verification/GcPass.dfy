/** src/reactor.c and src/event.c on the heap: the gc list is a ring of nodes embedded in
    events, and a gc pass walks it with list_for_each_entry_safe while unlinking and freeing.
    Locking is not recursive: taking the mutex requires that it is free. */
module GcPass {
  import opened RingList

  /** The part of posixc_event that the gc path uses; `released` stands for close and free. */
  class Event {
    const node: Node
    var closing: bool
    var released: bool

    constructor ()
      ensures !closing && !released && fresh(node) && IsRing([node])
    {
      node := new Node();
      closing := false;
      released := false;
    }
  }

  function Nodes(q: seq<Event>): (r: seq<Node>)
    ensures |r| == |q| && forall i :: 0 <= i < |q| ==> r[i] == q[i].node
  {
    seq(|q|, i requires 0 <= i < |q| => q[i].node)
  }

  /** posixc_reactor; `entry` stands for the pointer arithmetic of list_entry. */
  class Reactor {
    const gcEvents: Node
    var locked: bool
    var entry: map<Node, Event>
    var freed: seq<Event>
    ghost var queue: seq<Event>

    ghost predicate Valid()
      reads this, gcEvents, Nodes(queue), queue
    {
      && IsRing([gcEvents] + Nodes(queue))
      && (forall i :: 0 <= i < |queue| ==> Queued(queue[i]))
    }

    /** A queued event is marked, not yet released, and found through its node. */
    ghost predicate Queued(e: Event)
      reads this, e
    {
      e.closing && !e.released && e.node in entry && entry[e.node] == e
    }

    constructor ()
      ensures Valid() && !locked && queue == [] && freed == [] && fresh(gcEvents)
    {
      gcEvents := new Node();
      locked := false;
      entry := map[];
      freed := [];
      queue := [];
      new;
      assert [gcEvents] + Nodes(queue) == [gcEvents];
    }

    /** add_to_gc_list */
    method AddToGcList(e: Event)
      requires Valid() && !locked && e.closing && !e.released
      requires e !in queue && e.node != gcEvents && e.node !in Nodes(queue)
      modifies this, gcEvents, Nodes(queue), e.node
      ensures Valid() && !locked && queue == old(queue) + [e] && freed == old(freed)
    {
      locked := true;
      ghost var ring := [gcEvents] + Nodes(queue);
      assert Linked(ring, |ring| - 1);
      AddTail(e.node, gcEvents, ring);
      queue := queue + [e];
      entry := entry[e.node := e];
      assert ring + [e.node] == [gcEvents] + Nodes(queue);
      locked := false;
    }

    /** posixc_event_destroy of an event not on the gc list, the mutex being free unless the
        event is already closing or the caller is the reactor thread */
    method Destroy(e: Event, isReactor: bool)
      requires Valid() && !e.released
      requires e !in queue && e.node != gcEvents && e.node !in Nodes(queue)
      requires e.closing || isReactor || !locked
      modifies this, gcEvents, Nodes(queue), e, e.node
      ensures Valid() && locked == old(locked) && e.closing && e.released == isReactor
      ensures queue == old(queue) + (if old(e.closing) || isReactor then [] else [e])
      ensures freed == old(freed) + (if isReactor then [e] else [])
      ensures old(e.closing) || isReactor ==> unchanged(gcEvents) && unchanged(set n | n in Nodes(queue)) && entry == old(entry)
    {
      if !e.closing {
        e.closing := true;
        if !isReactor {
          AddToGcList(e);
        }
      }
      if isReactor {
        e.released := true;
        freed := freed + [e];
      }
    }

    /** One turn of the gc loop, with the mutex held: the event at `pos`, which is the first of the queue, goes. */
    method CollectFirst(pos: Node, isReactor: bool)
      requires Valid() && locked && queue != [] && pos == queue[0].node
      modifies this, gcEvents, Nodes(queue), queue[0]
      ensures Valid() && locked && queue == old(queue)[1..] && gcEvents.next == old(pos.next)
      ensures old(queue)[0].released == isReactor
      ensures freed == old(freed) + (if isReactor then [old(queue)[0]] else [])
    {
      var tmp := entry[pos];
      ghost var s := [gcEvents] + Nodes(queue);
      assert s[1] == pos;
      assert Linked(s, 0) && Linked(s, 1);
      Del(pos, s, 1);
      queue := queue[1..];
      assert Cut(s, 1) == [gcEvents] + Nodes(queue);
      assert Linked(Cut(s, 1), 0);
      Destroy(tmp, isReactor);
    }

    /** The first node of the queue, or the head when there is none. */
    lemma FirstNode()
      requires Valid()
      ensures gcEvents.next == if queue == [] then gcEvents else queue[0].node
      ensures gcEvents.next != gcEvents <==> queue != []
      ensures gcEvents.next != null && (gcEvents.next as Node).next != null
      ensures queue != [] ==> Queued(queue[0])
    {
      var ring := [gcEvents] + Nodes(queue);
      assert Linked(ring, 0);
      assert queue != [] ==> ring[1] == queue[0].node && Linked(ring, 1);
    }

    /** `pos->next`. The node is the list's head, or lies inside an event that has not been freed. */
    method Next(pos: Node) returns (n: Node?)
      requires pos == gcEvents || (pos in entry && entry[pos].node == pos && !entry[pos].released)
      ensures n == pos.next
    {
      n := pos.next;
    }

    /** One turn of list_for_each_entry_safe: the event at `pos` goes, and the traversal steps to
        the node it remembered. */
    method Turn(pos: Node, n: Node, isReactor: bool) returns (pos': Node, n': Node)
      requires Valid() && locked && queue != [] && pos == queue[0].node && n == pos.next
      modifies this, gcEvents, Nodes(queue), queue[0]
      ensures Valid() && locked && queue == old(queue)[1..]
      ensures pos' == n && pos' == gcEvents.next && n' == pos'.next
      ensures pos' == if queue == [] then gcEvents else queue[0].node
      ensures pos' != gcEvents <==> queue != []
      ensures old(queue)[0].released == isReactor
      ensures freed == old(freed) + (if isReactor then [old(queue)[0]] else [])
    {
      CollectFirst(pos, isReactor);
      FirstNode();
      pos' := n;
      n' := Next(pos');
    }

    /** The loop of posixc_reactor_gc: list_for_each_entry_safe over a list that shrinks under it. */
    method CollectAll(isReactor: bool)
      requires Valid() && locked
      modifies this, gcEvents, Nodes(queue), queue
      ensures Valid() && locked && queue == []
      ensures freed == old(freed) + (if isReactor then old(queue) else [])
      ensures forall i :: 0 <= i < |old(queue)| ==> old(queue)[i].released == isReactor
    {
      ghost var all, k := queue, 0;
      FirstNode();
      var pos: Node := gcEvents.next;
      var n: Node := Next(pos);
      while pos != gcEvents
        invariant Valid() && locked
        invariant 0 <= k <= |all| && queue == all[k..]
        invariant n == pos.next && pos == if queue == [] then gcEvents else queue[0].node
        invariant pos != gcEvents <==> queue != []
        invariant freed == old(freed) + (if isReactor then all[..k] else [])
        invariant forall i :: 0 <= i < k ==> all[i].released == isReactor
        decreases |all| - k
      {
        assert all[..k + 1] == all[..k] + [queue[0]];
        pos, n := Turn(pos, n, isReactor);
        k := k + 1;
      }
    }

    /** posixc_reactor_gc: a pass of the reactor thread releases exactly the queued events, in
        queue order; a pass of another thread only unlinks them. Either way the list ends empty. */
    method Gc(isReactor: bool)
      requires Valid() && !locked
      modifies this, gcEvents, Nodes(queue), queue
      ensures Valid() && !locked && queue == []
      ensures freed == old(freed) + (if isReactor then old(queue) else [])
      ensures forall i :: 0 <= i < |old(queue)| ==> old(queue)[i].released == isReactor
    {
      locked := true;
      ghost var ring := [gcEvents] + Nodes(queue);
      var empty := IsEmpty(gcEvents, ring);
      if empty {
        assert |ring| == 1 + |queue|;
        locked := false;
        return;
      }
      CollectAll(isReactor);
      locked := false;
    }
  }
}
