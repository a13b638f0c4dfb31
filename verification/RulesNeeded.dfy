/** The rules of the callers are enough to keep every thread away from released events, and
    none of them can be dropped. */
module RulesNeeded {
  import opened Matching
  import opened Reactor
  import opened ReactorPaths
  import opened ReactorWakeups
  import opened ReactorRuns

  /** A step reads or writes an event that has been released. */
  ghost predicate UsesReleased(s: State, step: Step, e: Eid) {
    Enabled(s, step) && e in Touched(s, step) && e in s.events && s.events[e].released
  }

  /** Some run that keeps every rule outside `broken` ends with such a step. */
  ghost predicate CanUseReleased(broken: set<Rule>) {
    exists states, steps, e :: IsRun(states, steps) && PathWithout(broken, states, steps) && EndsInUse(states, steps, e)
  }

  ghost predicate EndsInUse(states: seq<State>, steps: seq<Step>, e: Eid)
    requires |states| == |steps| + 1
  {
    |steps| > 0 && UsesReleased(states[|steps| - 1], steps[|steps| - 1], e)
  }

  /** Some such run ends with a callback for one. */
  ghost predicate CanDispatchReleased(broken: set<Rule>) {
    exists states, steps, e ::
      IsRun(states, steps) && PathWithout(broken, states, steps) && EndsInDispatch(states, steps, e)
  }

  ghost predicate EndsInDispatch(states: seq<State>, steps: seq<Step>, e: Eid)
    requires |states| == |steps| + 1
  {
    EndsInUse(states, steps, e) && steps[|steps| - 1].Dispatch?
  }

  lemma DispatchFollows(broken: set<Rule>, s: State)
    requires Leads(broken, INIT, s) && Enabled(s, Dispatch) && s.events[s.batch[0].e].released
    ensures CanDispatchReleased(broken)
  {
    var states, steps :| PathWithout(broken, states, steps) && states[0] == INIT && states[|steps|] == s;
    var z := Apply(s, Dispatch);
    assert KeepsAllBut(broken, s, Dispatch);
    Extends(broken, states, steps, Dispatch, z);
    var states', steps' := states + [z], steps + [Dispatch];
    assert IsRun(states', steps') && EndsInDispatch(states', steps', s.batch[0].e);
  }

  /** The kernel delivers the user filter that points at the released event 0. */
  const TRIGGERED := Entry(5, USER, 0, false)

  lemma StaleFilterFires(broken: set<Rule>, s: State)
    requires Leads(broken, INIT, s) && BetweenBatches(s) && Deliverable(s, TRIGGERED)
    requires 0 in s.events && s.events[0].released && s.events[0].mtx == None
    ensures CanDispatchReleased(broken)
  {
    var entries := [TRIGGERED];
    assert Enabled(s, Poll(entries));
    var z := PollStep(broken, INIT, s, entries);
    DispatchFollows(broken, z);
  }

  // ----- a submit that has passed its check while the event is destroyed

  lemma SubmitIsUnderWay(broken: set<Rule>) returns (s: State)
    ensures Leads(broken, INIT, s) && PcOf(s, 1) == SubLock(0, {USR}) && (forall u :: u != 1 ==> PcOf(s, u) == Idle)
    ensures BetweenBatches(s) && s.gc == [] && s.rmtx == None && s.events == map[0 := NewEvent(5, USER_EV)]
  {
    var s1 := Created(broken, USER_EV);
    s := SubmitCallStep(broken, INIT, s1, 1, 0, {USR});
  }

  /** Event 0 of the runs below has come to the end of its destruction. */
  ghost predicate Gone(s: State) {
    && 0 in s.events && s.events[0].ident == 5 && s.events[0].kind == USER_EV
    && s.events[0].closing && s.events[0].dereg && s.events[0].mtx == None
  }

  lemma DestroyIsUnderWay(broken: set<Rule>) returns (s: State)
    requires GiveUpOnDestroy in broken
    ensures Leads(broken, INIT, s) && PcOf(s, 1) == SubLock(0, {USR}) && PcOf(s, 2) == Mark(0, false)
    ensures forall u :: u != 1 && u != 2 ==> PcOf(s, u) == Idle
    ensures BetweenBatches(s) && s.gc == [] && s.rmtx == None && s.events.Keys == {0}
    ensures s.events[0].ident == 5 && s.events[0].kind == USER_EV && s.events[0].mtx == None && !s.events[0].released
  {
    var s1 := SubmitIsUnderWay(broken);
    s := DestroyCallStep(broken, INIT, s1, 2, 0);
  }

  lemma DestroyedDuringSubmit(broken: set<Rule>) returns (s: State)
    requires GiveUpOnDestroy in broken
    ensures Leads(broken, INIT, s) && PcOf(s, 1) == SubLock(0, {USR}) && PcOf(s, 2) == Queue(0, false)
    ensures forall u :: u != 1 && u != 2 ==> PcOf(s, u) == Idle
    ensures BetweenBatches(s) && s.gc == [] && s.rmtx == None && s.events.Keys == {0}
    ensures Gone(s) && !s.events[0].released
  {
    var s0 := DestroyIsUnderWay(broken);
    s := MarkAndDereg(broken, INIT, s0, 2, 0);
  }

  // ----- that goes on after the event has been released

  const LATE := {SubmitUnreleased, GiveUpOnDestroy}

  lemma SubmitOutlivesEvent() returns (s: State)
    ensures Leads(LATE, INIT, s) && PcOf(s, 1) == SubLock(0, {USR}) && (forall u :: u != 1 ==> PcOf(s, u) == Idle)
    ensures BetweenBatches(s) && s.events.Keys == {0} && Gone(s) && s.events[0].released
  {
    var s0 := DestroyedDuringSubmit(LATE);
    s := QueueAndCollect(LATE, INIT, s0, 2, 0);
  }

  /** A new event takes the number of the released one. */
  lemma NumberIsReused() returns (s: State)
    ensures Leads(LATE, INIT, s) && PcOf(s, 1) == SubLock(0, {USR}) && (forall u :: u != 1 ==> PcOf(s, u) == Idle)
    ensures BetweenBatches(s) && s.events.Keys == {0, 1} && Gone(s) && s.events[0].released
    ensures s.events[1] == NewEvent(5, USER_EV) && (5, USER) in s.knotes
  {
    var s0 := SubmitOutlivesEvent();
    s := CreateStep(LATE, INIT, s0, 2, 1, 5, USER_EV);
    assert USER in Filters(USER_EV);
  }

  lemma SuccessorIsSubmitted() returns (s: State)
    ensures Leads(LATE, INIT, s) && PcOf(s, 1) == SubLock(0, {USR}) && (forall u :: u != 1 ==> PcOf(s, u) == Idle)
    ensures BetweenBatches(s) && s.events.Keys == {0, 1} && Gone(s) && s.events[0].released
    ensures Armed(s, 1, USER) && s.events[1].ident == 5 && (5, USER) in s.knotes
  {
    var s0 := NumberIsReused();
    s := SubmitAll(LATE, INIT, s0, 2, 1, {USR});
  }

  /** The submit of the released event goes on, and points the filter of the new one at it. */
  lemma LateSubmitSteals() returns (s: State)
    ensures Leads(LATE, INIT, s) && BetweenBatches(s) && (forall u :: PcOf(s, u) == Idle)
    ensures 0 in s.events && s.events[0].released && s.events[0].mtx == None
    ensures Armed(s, 1, USER) && s.events[1].ident == 5 && Deliverable(s, TRIGGERED)
  {
    var s0 := SuccessorIsSubmitted();
    assert (5, USER) in Keys(s0.events[0]);
    s := SubmitFromLock(LATE, INIT, s0, 1, 0, {USR});
  }

  lemma LateSubmitDispatches()
    ensures CanDispatchReleased(LATE)
  {
    var s := LateSubmitSteals();
    StaleFilterFires(LATE, s);
  }

  // ----- that goes on when another event has registered the filter

  const SHARED := {OwnFilters, GiveUpOnDestroy}

  lemma SecondRegisters() returns (s: State)
    ensures Leads(SHARED, INIT, s) && PcOf(s, 1) == SubLock(0, {USR}) && PcOf(s, 2) == Queue(0, false)
    ensures BetweenBatches(s) && s.gc == [] && s.rmtx == None && (5, USER) in s.knotes
    ensures s.events.Keys == {0, 1} && s.events[1].kind == USER_EV && Gone(s) && !s.events[0].released
  {
    var s0 := DestroyedDuringSubmit(SHARED);
    s := CreateStep(SHARED, INIT, s0, 3, 1, 5, USER_EV);
    assert USER in Filters(USER_EV);
  }

  /** The submit of the first event enables the filter that the second one has registered meanwhile,
      and points it at the first. */
  lemma FilterIsStolen() returns (s: State)
    ensures Leads(SHARED, INIT, s) && PcOf(s, 2) == Queue(0, false) && s.gc == [] && s.rmtx == None
    ensures BetweenBatches(s) && Deliverable(s, TRIGGERED)
    ensures s.events.Keys == {0, 1} && s.events[1].kind == USER_EV && Gone(s)
  {
    var s0 := SecondRegisters();
    assert (5, USER) in Keys(s0.events[0]);
    s := SubmitFromLock(SHARED, INIT, s0, 1, 0, {USR});
  }

  lemma ReleasedButEnabled() returns (s: State)
    ensures Leads(SHARED, INIT, s) && BetweenBatches(s) && Deliverable(s, TRIGGERED)
    ensures 0 in s.events && s.events[0].released && s.events[0].mtx == None
  {
    var s0 := FilterIsStolen();
    s := QueueAndCollect(SHARED, INIT, s0, 2, 0);
  }

  lemma SharedFilterDispatches()
    ensures CanDispatchReleased(SHARED)
  {
    var s := ReleasedButEnabled();
    StaleFilterFires(SHARED, s);
  }

  // ----- a callback that destroys its socket while the other entry of it waits

  const RASH := {SparePending}
  const READABLE := Entry(5, READ, 0, false)
  const WRITABLE := Entry(5, WRITE, 0, false)

  lemma BothEnabled() returns (s: State)
    ensures Leads(RASH, INIT, s) && BetweenBatches(s) && Deliverable(s, READABLE) && Deliverable(s, WRITABLE)
    ensures forall u :: PcOf(s, u) == Idle
    ensures s.events.Keys == {0} && s.events[0].kind == SOCK && s.events[0].mtx == None
    ensures !s.events[0].closing && !s.events[0].destroyed
  {
    var s1 := Created(RASH, SOCK);
    assert (5, READ) in Keys(s1.events[0]) && (5, WRITE) in Keys(s1.events[0]);
    s := SubmitAll(RASH, INIT, s1, 1, 0, {IN, OUT});
  }

  lemma BothEntriesWait() returns (s: State)
    ensures Leads(RASH, INIT, s) && s.batch == [READABLE, WRITABLE] && !s.inCallback
    ensures forall u :: PcOf(s, u) == Idle
    ensures s.events.Keys == {0} && s.events[0].kind == SOCK && s.events[0].mtx == None
    ensures !s.events[0].closing && !s.events[0].destroyed
  {
    var s0 := BothEnabled();
    var entries := [READABLE, WRITABLE];
    assert Enabled(s0, Poll(entries));
    s := PollStep(RASH, INIT, s0, entries);
    assert forall u :: PcOf(s, u) == PcOf(s0, u);
  }

  lemma CallbackStartsDestroy() returns (s: State)
    ensures Leads(RASH, INIT, s) && s.batch == [WRITABLE] && PcOf(s, REACTOR) == Mark(0, false) && s.inCallback
    ensures s.events.Keys == {0} && s.events[0].mtx == None
  {
    var s0 := BothEntriesWait();
    var s1 := DispatchStep(RASH, INIT, s0);
    assert forall u :: PcOf(s1, u) == PcOf(s0, u);
    s := DestroyCallStep(RASH, INIT, s1, REACTOR, 0);
  }

  lemma CallbackDestroys() returns (s: State)
    ensures Leads(RASH, INIT, s) && s.batch == [WRITABLE] && PcOf(s, REACTOR) == Idle && !s.inCallback
    ensures 0 in s.events && s.events[0].released && s.events[0].mtx == None
  {
    var s0 := CallbackStartsDestroy();
    var s1 := MarkAndDereg(RASH, INIT, s0, REACTOR, 0);
    var s2 := ReleaseStep(RASH, INIT, s1, REACTOR, 0, false);
    s := ReturnStep(RASH, INIT, s2);
  }

  lemma RashCallbackDispatches()
    ensures CanDispatchReleased(RASH)
  {
    var s := CallbackDestroys();
    DispatchFollows(RASH, s);
  }

  // ----- a callback that destroys what another thread is destroying

  const TWICE := {DestroyOnce}
  const OTHER := Entry(6, USER, 1, false)

  /** A user event that can fire. */
  ghost predicate Ready(s: State, e: Eid, ident: int) {
    && e in s.events && s.events[e].kind == USER_EV && s.events[e].ident == ident && s.events[e].mtx == None
    && !s.events[e].destroyed && !s.events[e].closing && Deliverable(s, Entry(ident, USER, e, false))
  }

  lemma FirstIsReady() returns (s: State)
    ensures Leads(TWICE, INIT, s) && BetweenBatches(s) && (forall u :: PcOf(s, u) == Idle)
    ensures s.events.Keys == {0} && Ready(s, 0, 5)
  {
    var s1 := Created(TWICE, USER_EV);
    assert (5, USER) in Keys(s1.events[0]);
    s := SubmitAll(TWICE, INIT, s1, 1, 0, {USR});
  }

  lemma SecondIsCreated() returns (s: State)
    ensures Leads(TWICE, INIT, s) && BetweenBatches(s) && (forall u :: PcOf(s, u) == Idle)
    ensures s.events.Keys == {0, 1} && Ready(s, 0, 5) && s.events[1] == NewEvent(6, USER_EV) && (6, USER) in s.knotes
  {
    var s0 := FirstIsReady();
    s := CreateStep(TWICE, INIT, s0, 1, 1, 6, USER_EV);
    assert USER in Filters(USER_EV) && (6, USER) in s.knotes;
  }

  lemma BothAreReady() returns (s: State)
    ensures Leads(TWICE, INIT, s) && BetweenBatches(s) && (forall u :: PcOf(s, u) == Idle)
    ensures s.events.Keys == {0, 1} && Ready(s, 0, 5) && Ready(s, 1, 6)
  {
    var s0 := SecondIsCreated();
    assert (6, USER) in Keys(s0.events[1]) && (5, USER) !in Keys(s0.events[1]);
    s := SubmitAll(TWICE, INIT, s0, 1, 1, {USR});
  }

  /** A thread has marked the first event, which has not been deregistered yet. */
  ghost predicate Marked(s: State) {
    && s.events.Keys == {0, 1} && s.events[0].kind == s.events[1].kind == USER_EV && s.events[0].closing
    && s.events[0].mtx == None && s.events[1].mtx == None && Deliverable(s, TRIGGERED)
    && forall u :: u != 1 ==> PcOf(s, u) == Idle
  }

  lemma FirstIsMarked() returns (s: State)
    ensures Leads(TWICE, INIT, s) && BetweenBatches(s) && PcOf(s, 1) == Dereg(0, false)
    ensures Marked(s) && Deliverable(s, OTHER)
  {
    var s0 := BothAreReady();
    var s1 := DestroyCallStep(TWICE, INIT, s0, 1, 0);
    s := MarkStep(TWICE, INIT, s1, 1, 0);
  }

  lemma SecondIsDelivered() returns (s: State)
    ensures Leads(TWICE, INIT, s) && PcOf(s, 1) == Dereg(0, false) && Marked(s)
    ensures s.batch == [OTHER] && !s.inCallback
  {
    var s0 := FirstIsMarked();
    var entries := [OTHER];
    assert Enabled(s0, Poll(entries));
    s := PollStep(TWICE, INIT, s0, entries);
    assert forall u :: PcOf(s, u) == PcOf(s0, u);
  }

  lemma SecondIsCalledBack() returns (s: State)
    ensures Leads(TWICE, INIT, s) && PcOf(s, 1) == Dereg(0, false) && Marked(s) && s.batch == [] && s.inCallback
  {
    var s0 := SecondIsDelivered();
    s := DispatchStep(TWICE, INIT, s0);
    assert forall u :: PcOf(s, u) == PcOf(s0, u);
  }

  /** The callback of the second event destroys the first, which keeps its filter. */
  lemma ReleasedWithFilter() returns (s: State)
    ensures Leads(TWICE, INIT, s) && BetweenBatches(s) && Deliverable(s, TRIGGERED)
    ensures 0 in s.events && s.events[0].released && s.events[0].mtx == None
  {
    var s0 := SecondIsCalledBack();
    var s1 := DestroyAgainStep(TWICE, INIT, s0, 0);
    var s2 := ReleaseStep(TWICE, INIT, s1, REACTOR, 0, false);
    s := ReturnStep(TWICE, INIT, s2);
  }

  lemma SecondDestroyDispatches()
    ensures CanDispatchReleased(TWICE)
  {
    var s := ReleasedWithFilter();
    StaleFilterFires(TWICE, s);
  }

  // ----- together

  lemma MoreBroken(less: set<Rule>, more: set<Rule>)
    requires less <= more && CanDispatchReleased(less)
    ensures CanDispatchReleased(more)
  {
    var states, steps, e :|
      IsRun(states, steps) && PathWithout(less, states, steps) && EndsInDispatch(states, steps, e);
    forall i | 0 <= i < |steps|
      ensures KeepsAllBut(more, states[i], steps[i])
    {
      assert KeepsAllBut(less, states[i], steps[i]);
    }
    assert PathWithout(more, states, steps);
  }

  lemma KeepsCareful(broken: set<Rule>, states: seq<State>, steps: seq<Step>)
    requires PathWithout(broken, states, steps)
    requires DestroyOnce !in broken && SparePending !in broken && GiveUpOnDestroy !in broken
    ensures Careful(states, steps)
  {
    forall i | 0 <= i < |steps|
      ensures DestroysOnce(states[i], steps[i]) && SparesPending(states[i], steps[i])
      ensures GivesUpOnDestroy(states[i], steps[i])
    {
      var s, step := states[i], steps[i];
      assert KeepsAllBut(broken, s, step);
      assert Keeps(DestroyOnce, s, step) && Keeps(SparePending, s, step) && Keeps(GiveUpOnDestroy, s, step);
    }
  }

  /** Callers that call destroy once, spare what has an entry left and give up on destroy. */
  lemma CarefulRulesSuffice(broken: set<Rule>)
    requires DestroyOnce !in broken && SparePending !in broken && GiveUpOnDestroy !in broken
    ensures !CanUseReleased(broken)
  {
    forall states, steps, e | IsRun(states, steps) && PathWithout(broken, states, steps)
      ensures !EndsInUse(states, steps, e)
    {
      KeepsCareful(broken, states, steps);
      if EndsInUse(states, steps, e) {
        NoUseAfterRelease(states, steps, |steps| - 1, e);
      }
    }
  }

  /** Callers whose submits may race with destroy, but not outlive the event, and that keep their
      numbers apart. */
  lemma RacyRulesSuffice(broken: set<Rule>)
    requires broken <= EXTRA
    ensures !CanUseReleased(broken)
  {
    forall states, steps, e | IsRun(states, steps) && PathWithout(broken, states, steps)
      ensures !EndsInUse(states, steps, e)
    {
      KeepsRules(broken, states, steps);
      if EndsInUse(states, steps, e) {
        var n := |steps| - 1;
        ReachableIsSafe(states, steps, n);
        TouchedIsUnreleased(states[n], steps[n], e);
      }
    }
  }

  /** Destroy may be called twice, or a callback may destroy what has an entry left, or submits may
      overlap destroy and, besides, outlive the event or meet another with its number. */
  predicate Endangers(broken: set<Rule>) {
    || DestroyOnce in broken || SparePending in broken
    || (GiveUpOnDestroy in broken && (OwnFilters in broken || SubmitUnreleased in broken))
  }

  lemma BrokenRuleDispatches(broken: set<Rule>)
    requires Endangers(broken)
    ensures CanDispatchReleased(broken)
  {
    if DestroyOnce in broken {
      SecondDestroyDispatches();
      MoreBroken(TWICE, broken);
    } else if SparePending in broken {
      RashCallbackDispatches();
      MoreBroken(RASH, broken);
    } else if OwnFilters in broken {
      SharedFilterDispatches();
      MoreBroken(SHARED, broken);
    } else {
      LateSubmitDispatches();
      MoreBroken(LATE, broken);
    }
  }

  lemma KeptRulesSuffice(broken: set<Rule>)
    requires !Endangers(broken)
    ensures !CanUseReleased(broken)
  {
    if GiveUpOnDestroy in broken {
      forall rule | rule in broken
        ensures rule in EXTRA
      {
        match rule {
          case GiveUpOnDestroy =>
          case CloseOwn =>
          case _ =>
        }
      }
      RacyRulesSuffice(broken);
    } else {
      CarefulRulesSuffice(broken);
    }
  }

  /** For every set of rules that callers may break: some run in which they break no other ends with
      a callback for a released event if and only if the set endangers it, and the same holds of any
      other use. So what keeps the callbacks safe keeps every thread safe. */
  lemma RulesAreExact(broken: set<Rule>)
    ensures CanDispatchReleased(broken) <==> Endangers(broken)
    ensures CanUseReleased(broken) <==> Endangers(broken)
  {
    if Endangers(broken) {
      BrokenRuleDispatches(broken);
    } else {
      KeptRulesSuffice(broken);
    }
  }
}
