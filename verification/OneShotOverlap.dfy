/** Which submits break the one-shot promise: exactly those that enable a filter whose entry is
    still waiting. A run of the library shows the extra callback. */
module OneShotOverlap {
  import opened Matching
  import opened Reactor
  import opened ReactorFrames
  import opened ReactorOneShot
  import opened ReactorPaths
  import opened ReactorRuns
  import opened ReactorSafety
  import opened ReactorWakeups

  /** The callbacks of a filter so far exceed the submits that named it. */
  predicate Exceeds(s: State, e: Eid, f: Filter) {
    e in s.events && s.events[e].calls[f] > s.events[e].submits[f]
  }

  /** From `s`, keeping every rule outside `broken` and without a further overlap, they can come to
      exceed them. */
  ghost predicate CanExceed(broken: set<Rule>, s: State, e: Eid, f: Filter)
    requires e in s.events
  {
    exists z :: Leads(broken, s, z) && Exceeds(z, e, f) && z.events[e].overlaps[f] == s.events[e].overlaps[f]
  }

  // ----- no callback is left when the submits are used up

  lemma PaidUpCannotExceed(broken: set<Rule>, s: State, e: Eid, f: Filter)
    requires Keyed(s) && OneShot(s, e, f) && Owed(s, e, f) <= s.events[e].submits[f]
    ensures !CanExceed(broken, s, e, f)
  {
    forall z | Leads(broken, s, z) && Exceeds(z, e, f)
      ensures z.events[e].overlaps[f] != s.events[e].overlaps[f]
    {
      var states, steps :| PathWithout(broken, states, steps) && states[0] == s && states[|steps|] == z;
      SurplusNeverGrows(states, steps, |steps|, e, f);
      KindIsKept(states, steps, |steps|, e);
    }
  }

  lemma {:induction false} KindIsKept(states: seq<State>, steps: seq<Step>, i: nat, e: Eid)
    requires IsPath(states, steps) && i <= |steps| && e in states[0].events
    ensures e in states[i].events && states[i].events[e].kind == states[0].events[e].kind
  {
    if i > 0 {
      KindIsKept(states, steps, i - 1, e);
      StepEvent(states[i - 1], steps[i - 1], e);
    }
  }

  // ----- what holds wherever a path leads

  ghost predicate Sane(s: State) {
    Inv(s) && Unshared(s) && forall e :: HolderSubmits(s, e)
  }

  lemma StaysSane(s: State, z: State)
    requires Sane(s) && Leads({}, s, z)
    ensures Sane(z)
  {
    var states, steps :| PathWithout({}, states, steps) && states[0] == s && states[|steps|] == z;
    KeepsRules({}, states, steps);
    StaysSafe(states, steps, |steps|);
    forall e
      ensures HolderSubmits(z, e)
    {
      ReachableHolder(states, steps, |steps|, e);
    }
  }

  // ----- other submits can be ended without harm to this event

  /** The reactor thread is between two entries, and the event is free and enabled for `f`. */
  ghost predicate Ready(s: State, e: Eid, f: Filter) {
    && PcOf(s, REACTOR) == Idle && !s.inCallback
    && e in s.events && f in Filters(s.events[e].kind)
    && !s.events[e].released && s.events[e].mtx == None && Live(s, e, f)
  }

  /** Nothing has happened to the event but `n` callbacks of filter `f`, and others. */
  ghost predicate OnlyCalls(s: State, z: State, e: Eid, f: Filter, n: nat)
    requires e in s.events
  {
    && e in z.events && z.events[e].submits == s.events[e].submits && z.events[e].overlaps == s.events[e].overlaps
    && z.events[e].calls[f] == s.events[e].calls[f] + n
  }

  /** Another event that enables its filters does not touch this one's. */
  lemma EnableSparesLive(s: State, z: State, e': Eid, e: Eid, f: Filter)
    requires Unshared(s) && e' in s.events && !s.events[e'].released && e != e'
    requires e in s.events && !s.events[e].released && f in Filters(s.events[e].kind) && Live(s, e, f)
    requires e in z.events && z.events[e] == s.events[e] && z.knotes == Enable(s, e')
    ensures Live(z, e, f)
  {
    var k := (s.events[e].ident, f);
    if k in Keys(s.events[e']) {
      OwnKey(s, e, e', f);
    }
  }

  lemma EndFromUnlock(s0: State, s: State, u: Tid, e': Eid, e: Eid, f: Filter) returns (z: State)
    requires Leads({}, s0, s) && Ready(s, e, f) && e' != e && e' in s.events && !s.events[e'].released
    requires PcOf(s, u) == SubUnlock(e')
    ensures Leads({}, s0, z) && Ready(z, e, f) && z.batch == s.batch && OnlyCalls(s, z, e, f, 0)
    ensures e' in z.events && z.events[e'].mtx == None
  {
    z := EndStep({}, s0, s, u, e');
  }

  lemma EndFromEnable(s0: State, s: State, u: Tid, e': Eid, e: Eid, f: Filter) returns (z: State)
    requires Leads({}, s0, s) && Unshared(s) && Ready(s, e, f) && e' != e && e' in s.events && !s.events[e'].released
    requires PcOf(s, u) == SubEnable(e')
    ensures Leads({}, s0, z) && Ready(z, e, f) && z.batch == s.batch && OnlyCalls(s, z, e, f, 0)
    ensures e' in z.events && z.events[e'].mtx == None
  {
    var s1 := EnableStep({}, s0, s, u, e');
    EnableSparesLive(s, s1, e', e, f);
    z := EndFromUnlock(s0, s1, u, e', e, f);
  }

  lemma EndFromMark(s0: State, s: State, u: Tid, e': Eid, e: Eid, f: Filter) returns (z: State)
    requires Sane(s0) && Leads({}, s0, s) && Ready(s, e, f) && e' != e && e' in s.events && !s.events[e'].released
    requires PcOf(s, u).SubMark? && PcOf(s, u).e == e'
    ensures Leads({}, s0, z) && Ready(z, e, f) && z.batch == s.batch && OnlyCalls(s, z, e, f, 0)
    ensures e' in z.events && z.events[e'].mtx == None
  {
    var s1 := BitsStep({}, s0, s, u, e', PcOf(s, u).mask);
    StaysSane(s0, s1);
    z := EndFromEnable(s0, s1, u, e', e, f);
  }

  /** Whoever holds another event's mutex can give it back. */
  lemma FreeMutex(s0: State, s: State, e': Eid, e: Eid, f: Filter) returns (z: State)
    requires Sane(s0) && Leads({}, s0, s) && Ready(s, e, f) && e' != e && e' in s.events && !s.events[e'].released
    ensures Leads({}, s0, z) && Ready(z, e, f) && z.batch == s.batch && OnlyCalls(s, z, e, f, 0)
    ensures e' in z.events && z.events[e'].mtx == None
  {
    StaysSane(s0, s);
    assert HolderSubmits(s, e');
    if s.events[e'].mtx == None {
      z := s;
    } else {
      var u := s.events[e'].mtx.value;
      match PcOf(s, u) {
        case SubMark(_, _) => z := EndFromMark(s0, s, u, e', e, f);
        case SubEnable(_) => z := EndFromEnable(s0, s, u, e', e, f);
        case SubUnlock(_) => z := EndFromUnlock(s0, s, u, e', e, f);
      }
    }
  }

  // ----- a waiting entry and an enabled filter make two callbacks

  lemma CallFirst(s0: State, s: State, e: Eid, f: Filter) returns (z: State)
    requires Leads({}, s0, s) && Ready(s, e, f) && s.batch != []
    requires s.batch[0].e in s.events && s.events[s.batch[0].e].mtx == None
    ensures Leads({}, s0, z) && Ready(z, e, f) && z.batch == s.batch[1..]
    ensures OnlyCalls(s, z, e, f, One(s.batch[0].e == e && s.batch[0].f == f))
  {
    var s1 := DispatchStep({}, s0, s);
    z := ReturnStep({}, s0, s1);
    assert PcOf(z, REACTOR) == PcOf(s, REACTOR);
  }

  lemma DrainOne(s0: State, s: State, e: Eid, f: Filter) returns (z: State)
    requires Sane(s0) && Leads({}, s0, s) && Ready(s, e, f) && s.batch != []
    ensures Leads({}, s0, z) && Ready(z, e, f) && z.batch == s.batch[1..]
    ensures OnlyCalls(s, z, e, f, One(s.batch[0].e == e && s.batch[0].f == f))
  {
    StaysSane(s0, s);
    var s1 := s;
    if s.batch[0].e != e {
      s1 := FreeMutex(s0, s, s.batch[0].e, e, f);
    }
    z := CallFirst(s0, s1, e, f);
  }

  lemma CallsAddUp(s: State, s1: State, z: State, e: Eid, f: Filter, m: nat, n: nat)
    requires e in s.events && OnlyCalls(s, s1, e, f, m) && OnlyCalls(s1, z, e, f, n)
    ensures OnlyCalls(s, z, e, f, m + n)
  {
  }

  /** The reactor thread can work its batch off. */
  lemma {:induction false} Drain(s0: State, s: State, e: Eid, f: Filter) returns (z: State, n: nat)
    requires Sane(s0) && Leads({}, s0, s) && Ready(s, e, f)
    ensures Leads({}, s0, z) && Ready(z, e, f) && z.batch == [] && OnlyCalls(s, z, e, f, n)
    ensures Pending(s, e, f) ==> n >= 1
    decreases |s.batch|
  {
    if s.batch == [] {
      z, n := s, 0;
    } else {
      var first := s.batch[0].e == e && s.batch[0].f == f;
      var s1 := DrainOne(s0, s, e, f);
      var m;
      z, m := Drain(s0, s1, e, f);
      CallsAddUp(s, s1, z, e, f, One(first), m);
      n := One(first) + m;
      if Pending(s, e, f) && !first {
        PendingBehind(s, s1, e, f);
      }
    }
  }

  /** An enabled filter can be delivered and called back. */
  lemma DeliverAgain(s0: State, s: State, e: Eid, f: Filter) returns (z: State)
    requires Leads({}, s0, s) && Ready(s, e, f) && s.batch == []
    ensures Leads({}, s0, z) && OnlyCalls(s, z, e, f, 1)
  {
    var x := Entry(s.events[e].ident, f, e, false);
    assert Deliverable(s, x);
    assert Enabled(s, Poll([x]));
    var s1 := PollStep({}, s0, s, [x]);
    z := DispatchStep({}, s0, s1);
  }

  /** The submitting thread ends its call, and the reactor thread its callback if it is in one. */
  lemma EndCalls(s0: State, s: State, t: Tid, e: Eid, f: Filter) returns (z: State)
    requires Leads({}, s0, s) && PcOf(s, t) == SubUnlock(e) && e in s.events && !s.events[e].released
    requires t != REACTOR ==> PcOf(s, REACTOR) == Idle
    requires f in Filters(s.events[e].kind) && Live(s, e, f)
    ensures Leads({}, s0, z) && Ready(z, e, f) && z.batch == s.batch && OnlyCalls(s, z, e, f, 0)
  {
    var s1 := EndStep({}, s0, s, t, e);
    assert PcOf(s1, REACTOR) == Idle;
    if s1.inCallback {
      z := ReturnStep({}, s0, s1);
      assert PcOf(z, REACTOR) == PcOf(s1, REACTOR);
    } else {
      z := s1;
    }
  }

  /** With an entry waiting, its filter enabled as well, and at most one submit left to answer,
      the callbacks come to exceed the submits. */
  lemma TwoCallbacks(s0: State, s: State, t: Tid, e: Eid, f: Filter) returns (z: State)
    requires Sane(s0) && Leads({}, s0, s) && PcOf(s, t) == SubUnlock(e) && e in s.events && !s.events[e].released
    requires t != REACTOR ==> PcOf(s, REACTOR) == Idle
    requires f in Filters(s.events[e].kind) && Live(s, e, f)
    requires Pending(s, e, f) && s.events[e].calls[f] + 1 >= s.events[e].submits[f]
    ensures Leads({}, s0, z) && Exceeds(z, e, f) && z.events[e].overlaps == s.events[e].overlaps
  {
    var s1 := EndCalls(s0, s, t, e, f);
    assert Pending(s1, e, f);
    var s2, n := Drain(s0, s1, e, f);
    z := DeliverAgain(s0, s2, e, f);
  }

  lemma FewerRules(broken: set<Rule>, s: State, z: State)
    requires Leads({}, s, z)
    ensures Leads(broken, s, z)
  {
    var states, steps :| PathWithout({}, states, steps) && states[0] == s && states[|steps|] == z;
    forall i | 0 <= i < |steps|
      ensures KeepsAllBut(broken, states[i], steps[i])
    {
      assert KeepsAllBut({}, states[i], steps[i]);
    }
    assert PathWithout(broken, states, steps);
  }

  // ----- the rule is exact

  /** A submit that overlaps points the filter at its own event, enabled. */
  lemma OverlapEnables(s: State, e: Eid, f: Filter)
    requires OneShot(s, e, f) && Overlaps(s, e, f)
    ensures var k := (s.events[e].ident, f); k in Enable(s, e) && Enable(s, e)[k] == Knote(e, true)
  {
    assert (s.events[e].ident, f) in Keys(s.events[e]);
  }

  /** In every reachable state where a submit is about to enable its filters, the reactor thread is
      in no other call, and every submit of `f` is still owed its callback: whatever rules are
      kept from then on, the submit makes an excess callback possible if and only if an entry of
      `f` is waiting, its filter disabled by its delivery and its bit set. */
  lemma OverlapIsExact(states: seq<State>, steps: seq<Step>, t: Tid, e: Eid, f: Filter, broken: set<Rule>)
    requires IsRun(states, steps) && RulesKept(states, steps)
    requires var s := states[|steps|];
             && PcOf(s, t) == SubEnable(e) && Enabled(s, Go(t)) && SubmitsOnUnreleased(s, Go(t))
             && (t != REACTOR ==> PcOf(s, REACTOR) == Idle)
             && OneShot(s, e, f) && Owed(s, e, f) == s.events[e].submits[f]
    ensures var s, s' := states[|steps|], Apply(states[|steps|], Go(t));
            e in s'.events && (CanExceed(broken, s', e, f) <==> Overlaps(s, e, f))
  {
    var s := states[|steps|];
    var s' := Apply(s, Go(t));
    ReachedIsSane(states, steps);
    EnableStaysSane(s, s', t);
    EnableOwes(s, s', t, e, f);
    if Overlaps(s, e, f) {
      OverlapExceeds(s, s', t, e, f, broken);
    } else {
      PaidUpCannotExceed(broken, s', e, f);
    }
  }

  lemma ReachedIsSane(states: seq<State>, steps: seq<Step>)
    requires IsRun(states, steps) && RulesKept(states, steps)
    ensures Sane(states[|steps|])
  {
    ReachableIsSafe(states, steps, |steps|);
    forall e
      ensures HolderSubmits(states[|steps|], e)
    {
      ReachableHolder(states, steps, |steps|, e);
    }
  }

  lemma EnableStaysSane(s: State, s': State, t: Tid)
    requires Sane(s) && PcOf(s, t).SubEnable? && Enabled(s, Go(t)) && SubmitsOnUnreleased(s, Go(t))
    requires s' == Apply(s, Go(t))
    ensures Sane(s')
  {
    UnsharedEnablesOwn(s, Go(t));
    StepKeeps(s, Go(t));
    UnsharedKept(s, Go(t));
    forall e
      ensures HolderSubmits(s', e)
    {
      HolderKept(s, Go(t), e);
    }
  }

  lemma OverlapExceeds(s: State, s': State, t: Tid, e: Eid, f: Filter, broken: set<Rule>)
    requires PcOf(s, t) == SubEnable(e) && Enabled(s, Go(t)) && SubmitsOnUnreleased(s, Go(t)) && s' == Apply(s, Go(t))
    requires Sane(s') && (t != REACTOR ==> PcOf(s, REACTOR) == Idle)
    requires OneShot(s, e, f) && Owed(s, e, f) == s.events[e].submits[f] && Overlaps(s, e, f)
    ensures e in s'.events && CanExceed(broken, s', e, f)
  {
    EnableEffect(s, t);
    OverlapEnables(s, e, f);
    assert Pending(s', e, f) && Live(s', e, f);
    Stay({}, s');
    var z := TwoCallbacks(s', s', t, e, f);
    FewerRules(broken, s', z);
  }

  // ----- a run

  const READABLE := Entry(5, READ, 0, false)

  /** The socket's one submit so far named input, and nothing has been called back. */
  ghost predicate InputOnce(s: State) {
    && s.events.Keys == {0}
    && var ev := s.events[0];
    && ev.ident == 5 && ev.kind == SOCK && !ev.closing && !ev.destroyed && !ev.released
    && IN in ev.evmask && ev.submits[READ] == 1 && ev.calls == multiset{}
  }

  /** A user thread creates a socket and submits it for input. */
  lemma SubmittedForInput() returns (s: State)
    ensures Leads({}, INIT, s) && BetweenBatches(s) && (forall u :: PcOf(s, u) == Idle)
    ensures InputOnce(s) && s.events[0].mtx == None
    ensures (5, READ) in s.knotes && s.knotes[(5, READ)] == Knote(0, true)
  {
    var s1 := Created({}, SOCK);
    var s2 := SubmitBits({}, INIT, s1, 1, 0, {IN});
    assert READ in NamedBy(SOCK, {IN});
    assert (5, READ) in Keys(s2.events[0]);
    s := SubmitRest({}, INIT, s2, 1, 0);
  }

  /** Its input is delivered. */
  lemma Delivers() returns (s: State)
    ensures Leads({}, INIT, s) && (forall u :: PcOf(s, u) == Idle)
    ensures InputOnce(s) && s.events[0].mtx == None && s.batch == [READABLE]
    ensures (5, READ) in s.knotes
  {
    var s0 := SubmittedForInput();
    var entries := [READABLE];
    assert Enabled(s0, Poll(entries));
    s := PollStep({}, INIT, s0, entries);
    assert forall u :: PcOf(s, u) == PcOf(s0, u);
  }

  /** Before the entry is consumed, the thread submits the socket for output. */
  lemma SubmittedForOutput() returns (s: State)
    ensures Leads({}, INIT, s) && PcOf(s, 1) == SubEnable(0) && (forall u :: u != 1 ==> PcOf(s, u) == Idle)
    ensures InputOnce(s) && s.batch == [READABLE] && (5, READ) in s.knotes
  {
    var s0 := Delivers();
    assert READ !in NamedBy(SOCK, {OUT});
    s := SubmitBits({}, INIT, s0, 1, 0, {OUT});
  }

  /** Enabling output enables input again. */
  lemma EnabledAgain() returns (s: State)
    ensures Leads({}, INIT, s) && PcOf(s, 1) == SubUnlock(0) && forall u :: u != 1 ==> PcOf(s, u) == Idle
    ensures 0 in s.events && !s.events[0].released && s.events[0].submits[READ] == 1 && s.events[0].calls == multiset{}
    ensures s.events[0].kind == SOCK && Pending(s, 0, READ) && Live(s, 0, READ)
  {
    var s0 := SubmittedForOutput();
    assert (5, READ) in Keys(s0.events[0]);
    s := EnableStep({}, INIT, s0, 1, 0);
    assert s.batch[0].e == 0 && s.batch[0].f == READ;
  }

  /** One submit for input, two callbacks for input: a run within every rule of the callers ends
      beyond the promise. */
  lemma PromiseIsBroken()
    ensures exists states: seq<State>, steps: seq<Step> ::
              IsRun(states, steps) && PathWithout({}, states, steps) && Exceeds(states[|steps|], 0, READ)
  {
    var s := EnabledAgain();
    assert READ in Filters(SOCK);
    var z := TwoCallbacks(INIT, s, 1, 0, READ);
    var states, steps :| PathWithout({}, states, steps) && states[0] == INIT && states[|steps|] == z;
    assert IsRun(states, steps);
  }
}
