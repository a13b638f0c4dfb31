/** src/common/list.h over whole runs: a family of lists, and any sequence of list
    operations on it, refine plain sequences. */
module ListRuns {
  import opened RingList

  /** One list operation; lists are named by number, nodes by reference. */
  datatype Cmd =
    | Add(n: Node, h: nat)
    | AddTail(n: Node, h: nat)
    | Del(n: Node)
    | Move(n: Node, h: nat)
    | MoveTail(n: Node, h: nat)
    | SpliceInit(from: nat, to: nat)

  // ----- the plain sequences

  function Without(l: seq<Node>, n: Node): seq<Node> {
    if l == [] then [] else if l[0] == n then l[1..] else [l[0]] + Without(l[1..], n)
  }

  function DropNode(ls: seq<seq<Node>>, n: Node): (r: seq<seq<Node>>)
    ensures |r| == |ls|
  {
    seq(|ls|, h requires 0 <= h < |ls| => Without(ls[h], n))
  }

  ghost predicate Holds(ls: seq<seq<Node>>, n: Node) {
    exists h :: 0 <= h < |ls| && n in ls[h]
  }

  /** What the caller owes: lists that exist, a free node to add, a queued node to take out. */
  ghost predicate Allowed(heads: seq<Node>, ls: seq<seq<Node>>, c: Cmd) {
    match c
    case Add(n, h) => h < |ls| && n !in heads && !Holds(ls, n)
    case AddTail(n, h) => h < |ls| && n !in heads && !Holds(ls, n)
    case Del(n) => Holds(ls, n)
    case Move(n, h) => h < |ls| && Holds(ls, n)
    case MoveTail(n, h) => h < |ls| && Holds(ls, n)
    case SpliceInit(from, to) => from < |ls| && to < |ls| && from != to
  }

  ghost function Apply(heads: seq<Node>, ls: seq<seq<Node>>, c: Cmd): (r: seq<seq<Node>>)
    requires Allowed(heads, ls, c)
    ensures |r| == |ls|
  {
    match c
    case Add(n, h) => ls[h := [n] + ls[h]]
    case AddTail(n, h) => ls[h := ls[h] + [n]]
    case Del(n) => DropNode(ls, n)
    case Move(n, h) => var r := DropNode(ls, n); r[h := [n] + r[h]]
    case MoveTail(n, h) => var r := DropNode(ls, n); r[h := r[h] + [n]]
    case SpliceInit(from, to) => ls[to := ls[from] + ls[to]][from := []]
  }

  ghost predicate AllAllowed(heads: seq<Node>, ls: seq<seq<Node>>, cs: seq<Cmd>)
    decreases |cs|
  {
    cs == [] || (Allowed(heads, ls, cs[0]) && AllAllowed(heads, Apply(heads, ls, cs[0]), cs[1..]))
  }

  ghost function ApplyAll(heads: seq<Node>, ls: seq<seq<Node>>, cs: seq<Cmd>): seq<seq<Node>>
    requires AllAllowed(heads, ls, cs)
    decreases |cs|
  {
    if cs == [] then ls else ApplyAll(heads, Apply(heads, ls, cs[0]), cs[1..])
  }

  lemma {:induction false} WithoutCuts(l: seq<Node>, k: nat)
    requires k < |l| && Distinct(l)
    ensures Without(l, l[k]) == Cut(l, k)
  {
    if k > 0 {
      WithoutCuts(l[1..], k - 1);
      assert Cut(l, k) == [l[0]] + Cut(l[1..], k - 1);
    }
  }

  lemma {:induction false} WithoutAbsent(l: seq<Node>, n: Node)
    requires n !in l
    ensures Without(l, n) == l
  {
    if l != [] {
      WithoutAbsent(l[1..], n);
    }
  }

  /** `l'` is `l` without the one place where `n` stands, or `l` itself where it does not. */
  ghost predicate TakenOut(l: seq<Node>, l': seq<Node>, n: Node) {
    && (n !in l ==> l' == l)
    && forall k :: 0 <= k < |l| && l[k] == n ==> l' == l[..k] + l[k + 1..]
  }

  lemma WithoutTakesOut(l: seq<Node>, n: Node)
    requires Distinct(l)
    ensures TakenOut(l, Without(l, n), n)
  {
    if n !in l {
      WithoutAbsent(l, n);
    }
    forall k | 0 <= k < |l| && l[k] == n
      ensures Without(l, n) == l[..k] + l[k + 1..]
    {
      WithoutCuts(l, k);
    }
  }

  /** What taking out and moving do to every list, in terms of the places in it. */
  lemma DeletesAndMoves(heads: seq<Node>, ls: seq<seq<Node>>, c: Cmd, g: nat)
    requires Allowed(heads, ls, c) && g < |ls| && Distinct(ls[g])
    requires c.Del? || c.Move? || c.MoveTail?
    ensures var l := Apply(heads, ls, c)[g];
            && (c.Del? || g != c.h ==> TakenOut(ls[g], l, c.n))
            && (c.Move? && g == c.h ==> |l| > 0 && l[0] == c.n && TakenOut(ls[g], l[1..], c.n))
            && (c.MoveTail? && g == c.h ==>
                  |l| > 0 && l[|l| - 1] == c.n && TakenOut(ls[g], l[..|l| - 1], c.n))
  {
    WithoutTakesOut(ls[g], c.n);
  }

  ghost predicate InPool(l: seq<Node>, pool: set<Node>) {
    forall i :: 0 <= i < |l| ==> l[i] in pool
  }

  lemma {:induction false} WithoutInPool(l: seq<Node>, n: Node, pool: set<Node>)
    requires InPool(l, pool)
    ensures InPool(Without(l, n), pool)
  {
    if l != [] {
      WithoutInPool(l[1..], n, pool);
    }
  }

  lemma ApplyInPool(heads: seq<Node>, ls: seq<seq<Node>>, c: Cmd, pool: set<Node>)
    requires Allowed(heads, ls, c)
    requires forall h :: 0 <= h < |ls| ==> InPool(ls[h], pool)
    requires !c.SpliceInit? ==> c.n in pool
    ensures forall h :: 0 <= h < |ls| ==> InPool(Apply(heads, ls, c)[h], pool)
  {
    forall h | 0 <= h < |ls|
      ensures InPool(Apply(heads, ls, c)[h], pool)
    {
      if !c.SpliceInit? {
        WithoutInPool(ls[h], c.n, pool);
      }
    }
  }

  // ----- the rings

  ghost function NodesOf(rings: seq<seq<Node>>): set<Node> {
    set h, i | 0 <= h < |rings| && 0 <= i < |rings[h]| :: rings[h][i]
  }

  /** Rings of which no two share a node, each led by its head. */
  ghost predicate Family(heads: seq<Node>, rings: seq<seq<Node>>)
    reads NodesOf(rings)
  {
    && |rings| == |heads|
    && (forall h :: 0 <= h < |rings| ==> IsRing(rings[h]) && rings[h][0] == heads[h])
    && Apart(rings)
  }

  ghost predicate Apart(rings: seq<seq<Node>>) {
    forall g, h :: 0 <= g < |rings| && 0 <= h < |rings| && g != h ==> Disjoint(rings[g], rings[h])
  }

  /** Node `n` belongs to no ring but, perhaps, number `h`. */
  ghost predicate FreeBut(rings: seq<seq<Node>>, n: Node, h: nat) {
    forall g :: 0 <= g < |rings| && g != h ==> n !in rings[g]
  }

  ghost predicate FreeOfAll(rings: seq<seq<Node>>, n: Node) {
    forall g :: 0 <= g < |rings| ==> n !in rings[g]
  }

  /** Replacing one ring by nodes that belong to no other keeps the rings apart. */
  lemma ReplaceKeepsApart(rings: seq<seq<Node>>, h: nat, r: seq<Node>)
    requires Apart(rings) && h < |rings|
    requires forall i :: 0 <= i < |r| ==> FreeBut(rings, r[i], h)
    ensures Apart(rings[h := r])
  {
    var rings' := rings[h := r];
    forall g, f | 0 <= g < |rings'| && 0 <= f < |rings'| && g != f
      ensures Disjoint(rings'[g], rings'[f])
    {
      assert g != h && f != h ==> Disjoint(rings[g], rings[f]);
    }
  }

  lemma MemberIsFree(rings: seq<seq<Node>>, h: nat, i: nat)
    requires Apart(rings) && h < |rings| && i < |rings[h]|
    ensures FreeBut(rings, rings[h][i], h)
  {
    forall g | 0 <= g < |rings| && g != h
      ensures rings[h][i] !in rings[g]
    {
      assert Disjoint(rings[h], rings[g]);
    }
  }

  /** A ring loses the node at `k`: the rings stay apart, and the node is free of all of them. */
  lemma CutKeepsApart(rings: seq<seq<Node>>, g: nat, k: nat)
    requires Apart(rings) && g < |rings| && 1 <= k < |rings[g]| && Distinct(rings[g])
    ensures Apart(rings[g := Cut(rings[g], k)])
    ensures FreeOfAll(rings[g := Cut(rings[g], k)], rings[g][k])
  {
    var r := Cut(rings[g], k);
    forall i | 0 <= i < |r|
      ensures FreeBut(rings, r[i], g)
    {
      MemberIsFree(rings, g, if i < k then i else i + 1);
    }
    ReplaceKeepsApart(rings, g, r);
    MemberIsFree(rings, g, k);
  }

  /** A ring gains a node that was free. */
  lemma GainKeepsApart(rings: seq<seq<Node>>, h: nat, n: Node, r: seq<Node>)
    requires Apart(rings) && h < |rings|
    requires FreeOfAll(rings, n)
    requires forall i :: 0 <= i < |r| ==> r[i] == n || r[i] in rings[h]
    ensures Apart(rings[h := r])
  {
    forall i | 0 <= i < |r|
      ensures FreeBut(rings, r[i], h)
    {
      if r[i] != n {
        var j :| 0 <= j < |rings[h]| && rings[h][j] == r[i];
        MemberIsFree(rings, h, j);
      }
    }
    ReplaceKeepsApart(rings, h, r);
  }

  lemma ContentsOfUpdate(rings: seq<seq<Node>>, h: nat, r: seq<Node>)
    requires forall g :: 0 <= g < |rings| ==> |rings[g]| > 0
    requires h < |rings| && |r| > 0
    ensures Contents(rings[h := r]) == Contents(rings)[h := r[1..]]
  {
  }

  /** The rings without their heads. */
  ghost function Contents(rings: seq<seq<Node>>): (r: seq<seq<Node>>)
    requires forall h :: 0 <= h < |rings| ==> |rings[h]| > 0
    ensures |r| == |rings|
    ensures forall h :: 0 <= h < |r| ==> r[h] == rings[h][1..]
  {
    seq(|rings|, h requires 0 <= h < |rings| => rings[h][1..])
  }

  /** A queued node has a place, and taking it out of every list is cutting it there. */
  lemma Locate(heads: seq<Node>, rings: seq<seq<Node>>, n: Node) returns (g: nat, k: nat)
    requires Family(heads, rings)
    requires Holds(Contents(rings), n)
    ensures g < |rings| && 1 <= k < |rings[g]| && rings[g][k] == n
    ensures DropNode(Contents(rings), n) == Contents(rings[g := Cut(rings[g], k)])
  {
    var ls := Contents(rings);
    g :| 0 <= g < |ls| && n in ls[g];
    var j :| 0 <= j < |ls[g]| && ls[g][j] == n;
    k := j + 1;
    CutIsDrop(rings, g, k);
  }

  lemma CutIsDrop(rings: seq<seq<Node>>, g: nat, k: nat)
    requires forall h :: 0 <= h < |rings| ==> |rings[h]| > 0
    requires Apart(rings) && g < |rings| && 1 <= k < |rings[g]| && Distinct(rings[g])
    ensures DropNode(Contents(rings), rings[g][k]) == Contents(rings[g := Cut(rings[g], k)])
  {
    var ls, n := Contents(rings), rings[g][k];
    WithoutCuts(ls[g], k - 1);
    assert Cut(rings[g], k)[1..] == Cut(ls[g], k - 1);
    MemberIsFree(rings, g, k);
    forall h | 0 <= h < |ls| && h != g
      ensures Without(ls[h], n) == ls[h]
    {
      WithoutAbsent(ls[h], n);
    }
    ContentsOfUpdate(rings, g, Cut(rings[g], k));
  }

  ghost predicate Headed(heads: seq<Node>, rings: seq<seq<Node>>) {
    |rings| == |heads| && forall h :: 0 <= h < |rings| ==> |rings[h]| > 0 && rings[h][0] == heads[h]
  }

  /** No operation brings in a node from outside the pool it was given. */
  lemma PoolKept(heads: seq<Node>, rings: seq<seq<Node>>, rings': seq<seq<Node>>, c: Cmd, pool: set<Node>)
    requires Headed(heads, rings) && Headed(heads, rings')
    requires NodesOf(rings) <= pool && (!c.SpliceInit? ==> c.n in pool)
    requires Allowed(heads, Contents(rings), c)
    requires Contents(rings') == Apply(heads, Contents(rings), c)
    ensures NodesOf(rings') <= pool
  {
    var ls := Contents(rings);
    forall h | 0 <= h < |rings|
      ensures InPool(ls[h], pool) && heads[h] in pool
    {
      assert forall i :: 0 <= i < |rings[h]| ==> rings[h][i] in NodesOf(rings);
    }
    ApplyInPool(heads, ls, c, pool);
    forall h, i | 0 <= h < |rings'| && 0 <= i < |rings'[h]|
      ensures rings'[h][i] in pool
    {
      assert InPool(Contents(rings')[h], pool);
      assert i > 0 ==> rings'[h][i] == Contents(rings')[h][i - 1];
    }
  }

  /** What a move does to the ring sequences, within one list or between two. */
  lemma MovePlan(heads: seq<Node>, rings: seq<seq<Node>>, g: nat, k: nat, h: nat, tail: bool)
    returns (plan: seq<seq<Node>>)
    requires Headed(heads, rings) && Apart(rings) && h < |rings|
    requires g < |rings| && 1 <= k < |rings[g]| && Distinct(rings[g])
    ensures Headed(heads, plan) && Apart(plan)
    ensures forall f :: 0 <= f < |rings| && f != g && f != h ==> plan[f] == rings[f]
    ensures g != h ==> plan[g] == Cut(rings[g], k)
    ensures var base := if g == h then Cut(rings[g], k) else rings[h];
            plan[h] == if tail then base + [rings[g][k]] else [heads[h], rings[g][k]] + base[1..]
    ensures var r := DropNode(Contents(rings), rings[g][k]);
            Contents(plan) == r[h := if tail then r[h] + [rings[g][k]] else [rings[g][k]] + r[h]]
  {
    var n := rings[g][k];
    CutKeepsApart(rings, g, k);
    CutIsDrop(rings, g, k);
    var mid := rings[g := Cut(rings[g], k)];
    var r := if tail then mid[h] + [n] else [heads[h], n] + mid[h][1..];
    GainKeepsApart(mid, h, n, r);
    ContentsOfUpdate(mid, h, r);
    assert r[1..] == if tail then mid[h][1..] + [n] else [n] + mid[h][1..];
    plan := mid[h := r];
  }

  lemma SplicePlan(heads: seq<Node>, rings: seq<seq<Node>>, from: nat, to: nat)
    returns (plan: seq<seq<Node>>)
    requires Headed(heads, rings) && Apart(rings)
    requires from < |rings| && to < |rings| && from != to && Distinct(rings[from])
    ensures Headed(heads, plan) && Apart(plan)
    ensures forall f :: 0 <= f < |rings| && f != from && f != to ==> plan[f] == rings[f]
    ensures plan[from] == [heads[from]] && plan[to] == [heads[to]] + rings[from][1..] + rings[to][1..]
    ensures Contents(plan) == Contents(rings)[to := rings[from][1..] + rings[to][1..]][from := []]
  {
    MemberIsFree(rings, from, 0);
    ReplaceKeepsApart(rings, from, [heads[from]]);
    var mid := rings[from := [heads[from]]];
    var r := [heads[to]] + rings[from][1..] + rings[to][1..];
    forall i | 0 <= i < |r|
      ensures FreeBut(mid, r[i], to)
    {
      if 1 <= i < |rings[from]| {
        MemberIsFree(rings, from, i);
      } else {
        MemberIsFree(rings, to, if i == 0 then 0 else i - |rings[from]| + 1);
      }
    }
    ReplaceKeepsApart(mid, to, r);
    plan := mid[to := r];
    assert r[1..] == rings[from][1..] + rings[to][1..];
  }

  lemma FreeNode(heads: seq<Node>, rings: seq<seq<Node>>, n: Node)
    requires Family(heads, rings)
    requires n !in heads && !Holds(Contents(rings), n)
    ensures FreeOfAll(rings, n)
  {
    forall h | 0 <= h < |rings|
      ensures n !in rings[h]
    {
      assert rings[h] == [heads[h]] + Contents(rings)[h];
    }
  }

  /** A family of lists as the program holds it. */
  class Lists {
    const heads: seq<Node>
    ghost var rings: seq<seq<Node>>

    ghost predicate Valid()
      reads this, NodesOf(rings)
    {
      Family(heads, rings)
    }

    /** Heads that INIT_LIST_HEAD has set up start as empty lists. */
    constructor (heads: seq<Node>)
      requires Distinct(heads)
      requires forall h :: 0 <= h < |heads| ==> IsRing([heads[h]])
      ensures Valid() && this.heads == heads
      ensures Contents(rings) == seq(|heads|, _ => [])
    {
      this.heads := heads;
      rings := seq(|heads|, h requires 0 <= h < |heads| => [heads[h]]);
    }

    method DoAdd(n: Node, h: nat)
      requires Valid() && Allowed(heads, Contents(rings), Cmd.Add(n, h))
      modifies this, NodesOf(rings), n
      ensures Valid()
      ensures Contents(rings) == Apply(heads, old(Contents(rings)), Cmd.Add(n, h))
      ensures Contents(rings) == old(Contents(rings))[h := [n] + old(Contents(rings)[h])]
    {
      FreeNode(heads, rings, n);
      assert Linked(rings[h], 0);
      RingList.Add(n, heads[h], rings[h]);
      ghost var r := [heads[h], n] + rings[h][1..];
      GainKeepsApart(rings, h, n, r);
      ContentsOfUpdate(rings, h, r);
      assert r[1..] == [n] + rings[h][1..];
      rings := rings[h := r];
    }

    method DoAddTail(n: Node, h: nat)
      requires Valid() && Allowed(heads, Contents(rings), Cmd.AddTail(n, h))
      modifies this, NodesOf(rings), n
      ensures Valid()
      ensures Contents(rings) == Apply(heads, old(Contents(rings)), Cmd.AddTail(n, h))
      ensures Contents(rings) == old(Contents(rings))[h := old(Contents(rings)[h]) + [n]]
    {
      FreeNode(heads, rings, n);
      assert Linked(rings[h], |rings[h]| - 1);
      RingList.AddTail(n, heads[h], rings[h]);
      ghost var r := rings[h] + [n];
      GainKeepsApart(rings, h, n, r);
      ContentsOfUpdate(rings, h, r);
      assert r[1..] == rings[h][1..] + [n];
      rings := rings[h := r];
    }

    method DoDel(n: Node)
      requires Valid() && Allowed(heads, Contents(rings), Cmd.Del(n))
      modifies this, NodesOf(rings)
      ensures Valid()
      ensures Contents(rings) == Apply(heads, old(Contents(rings)), Cmd.Del(n))
    {
      ghost var g, k := Locate(heads, rings, n);
      assert Linked(rings[g], k - 1) && Linked(rings[g], k);
      RingList.Del(n, rings[g], k);
      CutKeepsApart(rings, g, k);
      rings := rings[g := Cut(rings[g], k)];
    }

    method DoMove(n: Node, h: nat)
      requires Valid() && Allowed(heads, Contents(rings), Cmd.Move(n, h))
      modifies this, NodesOf(rings)
      ensures Valid()
      ensures Contents(rings) == Apply(heads, old(Contents(rings)), Cmd.Move(n, h))
    {
      ghost var g, k := Locate(heads, rings, n);
      assert Linked(rings[g], k - 1) && Linked(rings[g], k) && Linked(rings[h], 0);
      RingList.Move(n, heads[h], rings[g], k, rings[h]);
      rings := MovePlan(heads, rings, g, k, h, false);
    }

    method DoMoveTail(n: Node, h: nat)
      requires Valid() && Allowed(heads, Contents(rings), Cmd.MoveTail(n, h))
      modifies this, NodesOf(rings)
      ensures Valid()
      ensures Contents(rings) == Apply(heads, old(Contents(rings)), Cmd.MoveTail(n, h))
    {
      ghost var g, k := Locate(heads, rings, n);
      assert Linked(rings[g], k - 1) && Linked(rings[g], k) && Linked(rings[h], |rings[h]| - 1);
      RingList.MoveTail(n, heads[h], rings[g], k, rings[h]);
      rings := MovePlan(heads, rings, g, k, h, true);
    }

    method DoSpliceInit(from: nat, to: nat)
      requires Valid() && Allowed(heads, Contents(rings), Cmd.SpliceInit(from, to))
      modifies this, NodesOf(rings)
      ensures Valid()
      ensures Contents(rings) == Apply(heads, old(Contents(rings)), Cmd.SpliceInit(from, to))
      ensures Contents(rings) == old(Contents(rings))[to := old(Contents(rings)[from] + Contents(rings)[to])][from := []]
    {
      assert Linked(rings[to], 0) && Linked(rings[from], 0) && Linked(rings[from], |rings[from]| - 1);
      RingList.SpliceInit(heads[from], heads[to], rings[from], rings[to]);
      rings := SplicePlan(heads, rings, from, to);
    }

    /** Any one operation does to the sequences what its name says, and nothing to any other list. */
    method Exec(c: Cmd)
      requires Valid() && Allowed(heads, Contents(rings), c)
      modifies this, NodesOf(rings), if c.SpliceInit? then {} else {c.n}
      ensures Valid()
      ensures Contents(rings) == Apply(heads, old(Contents(rings)), c)
    {
      match c {
        case Add(n, h) => DoAdd(n, h);
        case AddTail(n, h) => DoAddTail(n, h);
        case Del(n) => DoDel(n);
        case Move(n, h) => DoMove(n, h);
        case MoveTail(n, h) => DoMoveTail(n, h);
        case SpliceInit(from, to) => DoSpliceInit(from, to);
      }
    }

    /** Any run of allowed operations does what the run on plain sequences does. */
    method Run(cs: seq<Cmd>, ghost pool: set<Node>)
      requires Valid() && AllAllowed(heads, Contents(rings), cs)
      requires NodesOf(rings) <= pool && forall i :: 0 <= i < |cs| && !cs[i].SpliceInit? ==> cs[i].n in pool
      modifies this, pool
      ensures Valid()
      ensures Contents(rings) == ApplyAll(heads, old(Contents(rings)), cs)
      decreases |cs|
    {
      if |cs| > 0 {
        ghost var before := rings;
        Exec(cs[0]);
        PoolKept(heads, before, rings, cs[0], pool);
        Run(cs[1..], pool);
      }
    }
  }
}
