/** src/common/list.h: the intrusive circular doubly linked list.

    A ring is described by the ghost sequence of its nodes, the head first. Every operation
    changes only the links the source changes, and its `modifies` clause names just those
    nodes, so rings that share no node with it stay as they are. */
module RingList {

  /** list_head, which is also list_node */
  class Node {
    var next: Node?
    var prev: Node?

    /** INIT_LIST_HEAD */
    constructor ()
      ensures IsRing([this])
    {
      next := this;
      prev := this;
    }
  }

  ghost predicate Distinct<T>(s: seq<T>) {
    forall i, j :: 0 <= i < j < |s| ==> s[i] != s[j]
  }

  ghost predicate Disjoint<T>(s: seq<T>, t: seq<T>) {
    forall i, j :: 0 <= i < |s| && 0 <= j < |t| ==> s[i] != t[j]
  }

  /** `s` lists a whole ring: following `next` (or, backwards, `prev`) from any node visits every other one. */
  ghost predicate IsRing(s: seq<Node>)
    reads s
  {
    && |s| > 0
    && Distinct(s)
    && (forall i :: 0 <= i < |s| ==> Linked(s, i))
  }

  /** The link between position `i` and the one after it, around the end, in both directions. */
  ghost predicate Linked(s: seq<Node>, i: int)
    requires 0 <= i < |s|
    reads s
  {
    var j := if i + 1 < |s| then i + 1 else 0;
    s[i].next == s[j] && s[j].prev == s[i]
  }

  // ----- the operations on one or two rings

  /** __list_add, between positions `k - 1` and `k` of the ring */
  method Insert(cur: Node, prev: Node, next: Node, ghost s: seq<Node>, ghost k: nat)
    requires IsRing(s) && cur !in s
    requires 1 <= k <= |s| && prev == s[k - 1] && next == s[if k < |s| then k else 0]
    modifies cur, prev, next
    ensures IsRing(s[..k] + [cur] + s[k..])
  {
    assert Linked(s, k - 1);
    next.prev := cur;
    cur.next := next;
    cur.prev := prev;
    prev.next := cur;
    ghost var s' := s[..k] + [cur] + s[k..];
    forall i | 0 <= i < |s'|
      ensures Linked(s', i)
    {
      if i < k - 1 {
        assert old(Linked(s, i));
      } else if i > k {
        assert old(Linked(s, i - 1));
      }
    }
  }

  /** list_add */
  method Add(cur: Node, head: Node, ghost s: seq<Node>)
    requires IsRing(s) && head == s[0] && cur !in s
    modifies cur, head, head.next
    ensures IsRing([head, cur] + s[1..])
  {
    assert Linked(s, 0);
    Insert(cur, head, head.next, s, 1);
    assert s[..1] + [cur] + s[1..] == [head, cur] + s[1..];
  }

  /** list_add_tail */
  method AddTail(cur: Node, head: Node, ghost s: seq<Node>)
    requires IsRing(s) && head == s[0] && cur !in s
    modifies cur, head, head.prev
    ensures IsRing(s + [cur])
  {
    assert Linked(s, |s| - 1);
    Insert(cur, head.prev, head, s, |s|);
    assert s[..|s|] + [cur] + s[|s|..] == s + [cur];
  }

  /** __list_del, of the node at position `k` */
  method Unlink(prev: Node, next: Node, ghost s: seq<Node>, ghost k: nat)
    requires IsRing(s)
    requires 1 <= k < |s| && prev == s[k - 1] && next == s[if k + 1 < |s| then k + 1 else 0]
    modifies prev, next
    ensures IsRing(Cut(s, k))
    ensures s[k].next == next && s[k].prev == prev
  {
    assert Linked(s, k - 1) && Linked(s, k);
    next.prev := prev;
    prev.next := next;
    ghost var s' := Cut(s, k);
    forall i | 0 <= i < |s'|
      ensures Linked(s', i)
    {
      if i < k - 1 {
        assert old(Linked(s, i));
      } else if i >= k {
        assert old(Linked(s, i + 1));
      }
    }
  }

  /** list_del */
  method Del(entry: Node, ghost s: seq<Node>, ghost k: nat)
    requires IsRing(s) && 1 <= k < |s| && entry == s[k]
    modifies entry, entry.prev, entry.next
    ensures IsRing(Cut(s, k))
    ensures entry.next == null && entry.prev == null
  {
    assert Linked(s, k - 1) && Linked(s, k);
    Unlink(entry.prev, entry.next, s, k);
    entry.next := null;
    entry.prev := null;
  }

  /** list_del_init */
  method DelInit(entry: Node, ghost s: seq<Node>, ghost k: nat)
    requires IsRing(s) && 1 <= k < |s| && entry == s[k]
    modifies entry, entry.prev, entry.next
    ensures IsRing(Cut(s, k))
    ensures IsRing([entry])
  {
    assert Linked(s, k - 1) && Linked(s, k);
    Unlink(entry.prev, entry.next, s, k);
    entry.next := entry;
    entry.prev := entry;
  }

  /** The node at position `k` taken out. */
  function Cut<T>(s: seq<T>, k: int): seq<T>
    requires 0 <= k < |s|
  {
    s[..k] + s[k + 1..]
  }

  /** list_move: from position `k` of ring `s` to right behind the head of ring `t`, which may be `s` itself. */
  method Move(list: Node, head: Node, ghost s: seq<Node>, ghost k: nat, ghost t: seq<Node>)
    requires IsRing(s) && 1 <= k < |s| && list == s[k]
    requires IsRing(t) && head == t[0] && (t == s || Disjoint(s, t))
    modifies list, list.prev, list.next, head, head.next
    ensures t == s ==> IsRing([head, list] + Cut(s, k)[1..])
    ensures t != s ==> IsRing(Cut(s, k)) && IsRing([head, list] + t[1..])
  {
    assert Linked(s, k - 1) && Linked(s, k) && Linked(t, 0);
    Unlink(list.prev, list.next, s, k);
    ghost var c := Cut(s, k);
    assert t == s ==> Linked(c, 0);
    label unlinked:
    Add(list, head, if t == s then c else t);
    forall i | t != s && 0 <= i < |c|
      ensures Linked(c, i)
    {
      assert old@unlinked(Linked(c, i)) && c[i] == s[if i < k then i else i + 1];
    }
  }

  /** list_move_tail */
  method MoveTail(list: Node, head: Node, ghost s: seq<Node>, ghost k: nat, ghost t: seq<Node>)
    requires IsRing(s) && 1 <= k < |s| && list == s[k]
    requires IsRing(t) && head == t[0] && (t == s || Disjoint(s, t))
    modifies list, list.prev, list.next, head, head.prev
    ensures t == s ==> IsRing(Cut(s, k) + [list])
    ensures t != s ==> IsRing(Cut(s, k)) && IsRing(t + [list])
  {
    assert Linked(s, k - 1) && Linked(s, k) && Linked(t, |t| - 1);
    Unlink(list.prev, list.next, s, k);
    ghost var c := Cut(s, k);
    assert t == s ==> Linked(c, |c| - 1);
    label unlinked:
    AddTail(list, head, if t == s then c else t);
    forall i | t != s && 0 <= i < |c|
      ensures Linked(c, i)
    {
      assert old@unlinked(Linked(c, i)) && c[i] == s[if i < k then i else i + 1];
    }
  }

  /** list_empty */
  method IsEmpty(head: Node, ghost s: seq<Node>) returns (empty: bool)
    requires IsRing(s) && head == s[0]
    ensures empty <==> s[1..] == []
  {
    assert Linked(s, 0);
    empty := head.next == head;
  }

  /** __list_splice: the nodes of a non-empty ring `l` go right behind the head of `s`. */
  method SpliceNonEmpty(list: Node, head: Node, ghost l: seq<Node>, ghost s: seq<Node>)
    requires IsRing(l) && list == l[0] && |l| > 1
    requires IsRing(s) && head == s[0]
    requires Disjoint(l, s)
    modifies head, head.next, list.next, list.prev
    ensures IsRing([head] + l[1..] + s[1..])
    ensures list.next == old(list.next) && list.prev == old(list.prev)
  {
    assert Linked(l, 0) && Linked(l, |l| - 1) && Linked(s, 0);
    var first := list.next;
    var last := list.prev;
    var at := head.next;
    first.prev := head;
    head.next := first;
    last.next := at;
    at.prev := last;
    ghost var s' := [head] + l[1..] + s[1..];
    forall i | 0 <= i < |s'|
      ensures Linked(s', i)
    {
      if 0 < i < |l| - 1 {
        assert old(Linked(l, i));
      } else if i >= |l| {
        assert old(Linked(s, i - |l| + 1));
      }
    }
  }

  /** list_splice: the head that was emptied keeps its old links. */
  method Splice(list: Node, head: Node, ghost l: seq<Node>, ghost s: seq<Node>)
    requires IsRing(l) && list == l[0]
    requires IsRing(s) && head == s[0]
    requires Disjoint(l, s)
    modifies head, head.next, list.next, list.prev
    ensures IsRing([head] + l[1..] + s[1..])
    ensures list.next == old(list.next) && list.prev == old(list.prev)
  {
    var empty := IsEmpty(list, l);
    if !empty {
      SpliceNonEmpty(list, head, l, s);
    } else {
      assert [head] + l[1..] + s[1..] == s;
    }
  }

  /** list_splice_init */
  method SpliceInit(list: Node, head: Node, ghost l: seq<Node>, ghost s: seq<Node>)
    requires IsRing(l) && list == l[0]
    requires IsRing(s) && head == s[0]
    requires Disjoint(l, s)
    modifies list, head, head.next, list.next, list.prev
    ensures IsRing([head] + l[1..] + s[1..])
    ensures IsRing([list])
  {
    var empty := IsEmpty(list, l);
    if !empty {
      SpliceNonEmpty(list, head, l, s);
      ghost var s' := [head] + l[1..] + s[1..];
      assert list !in s';
      label spliced:
      list.next := list;
      list.prev := list;
      forall i | 0 <= i < |s'|
        ensures Linked(s', i)
      {
        assert old@spliced(Linked(s', i));
      }
    } else {
      assert [head] + l[1..] + s[1..] == s;
      assert l == [list];
    }
  }

  // ----- traversals

  /** list_for_each: forwards, every node but the head, once. */
  method ForEach(head: Node, ghost s: seq<Node>) returns (visited: seq<Node>)
    requires IsRing(s) && head == s[0]
    ensures visited == s[1..]
  {
    visited := [];
    assert Linked(s, 0);
    var pos := head.next;
    while pos != head
      invariant |visited| < |s| && visited == s[1..1 + |visited|]
      invariant pos == s[if 1 + |visited| < |s| then 1 + |visited| else 0]
      decreases |s| - |visited|
    {
      assert Linked(s, 1 + |visited|);
      visited := visited + [pos];
      pos := pos.next;
    }
  }

  /** list_for_each_prev: the same nodes backwards. */
  method ForEachPrev(head: Node, ghost s: seq<Node>) returns (visited: seq<Node>)
    requires IsRing(s) && head == s[0]
    ensures |visited| == |s| - 1 && forall i :: 0 <= i < |visited| ==> visited[i] == s[|s| - 1 - i]
  {
    visited := [];
    assert Linked(s, |s| - 1);
    var pos := head.prev;
    while pos != head
      invariant |visited| < |s| && forall i :: 0 <= i < |visited| ==> visited[i] == s[|s| - 1 - i]
      invariant pos == s[|s| - 1 - |visited|]
      decreases |s| - |visited|
    {
      assert Linked(s, |s| - 2 - |visited|);
      visited := visited + [pos];
      pos := pos.prev;
    }
  }
}
