/** Which rules of the callers keep wake-ups from being lost. */
module WakeRulesNeeded {
  import opened Matching
  import opened Reactor
  import opened ReactorSafety
  import opened ReactorRuns
  import opened ReactorWakeups
  import opened ReactorPaths
  import RulesNeeded
  import LostWakeup

  /** A bit is set and nothing will serve it. */
  ghost predicate Lost(s: State, e: Eid, f: Filter) {
    Armed(s, e, f) && !Served(s, e, f)
  }

  /** Some run that keeps every rule outside `broken` ends that way. */
  ghost predicate CanLoseWakeup(broken: set<Rule>) {
    exists states, steps, e, f ::
      IsRun(states, steps) && PathWithout(broken, states, steps) && Lost(states[|steps|], e, f)
  }

  lemma LossFollows(broken: set<Rule>, s: State, e: Eid, f: Filter)
    ensures Leads(broken, INIT, s) && Lost(s, e, f) ==> CanLoseWakeup(broken)
  {
    if Leads(broken, INIT, s) && Lost(s, e, f) {
      var states, steps :| PathWithout(broken, states, steps) && states[0] == INIT && states[|steps|] == s;
      assert IsRun(states, steps) && Lost(states[|steps|], e, f);
    }
  }

  // ----- one run for each rule

  lemma ForeignCloseLoses()
    ensures CanLoseWakeup({CloseOwn})
  {
    LostWakeup.WakeupIsLost();
    var states, steps :|
      && IsRun(states, steps) && PathWithout({CloseOwn}, states, steps)
      && Armed(states[|steps|], 1, READ) && !Served(states[|steps|], 1, READ);
    assert Lost(states[|steps|], 1, READ);
  }

  const SHARED := {OwnFilters}

  lemma SubmittedOnce() returns (s: State)
    ensures Leads(SHARED, INIT, s) && BetweenBatches(s) && (forall u :: PcOf(s, u) == Idle)
    ensures s.events.Keys == {0} && Armed(s, 0, USER) && s.events[0].ident == 5
  {
    var s1 := Created(SHARED, USER_EV);
    s := SubmitAll(SHARED, INIT, s1, 1, 0, {USR});
  }

  /** A second event registers the filter of a submitted one, disabled and as its own. */
  lemma SharedFilterLoses()
    ensures CanLoseWakeup(SHARED)
  {
    var s0 := SubmittedOnce();
    var s := CreateStep(SHARED, INIT, s0, 1, 1, 5, USER_EV);
    assert USER in Filters(USER_EV) && s.knotes[(5, USER)] == Knote(1, false);
    LossFollows(SHARED, s, 0, USER);
  }

  /** A late submit on a released event points the filter of its successor at it. */
  lemma LateSubmitLoses()
    ensures CanLoseWakeup(RulesNeeded.LATE)
  {
    var s := RulesNeeded.LateSubmitSteals();
    assert s.knotes[(5, USER)] == Knote(0, true);
    LossFollows(RulesNeeded.LATE, s, 1, USER);
  }

  // ----- a second destroy that deregisters the successor

  const TWICE := {DestroyOnce}

  lemma DestroyedTwice() returns (s: State)
    ensures Leads(TWICE, INIT, s) && PcOf(s, 1) == Mark(0, false) && PcOf(s, 2) == Mark(0, false)
    ensures forall u :: u != 1 && u != 2 ==> PcOf(s, u) == Idle
    ensures BetweenBatches(s) && s.gc == [] && s.rmtx == None && s.events.Keys == {0}
    ensures s.events[0].ident == 5 && s.events[0].kind == USER_EV
  {
    var s1 := Created(TWICE, USER_EV);
    var s2 := DestroyCallStep(TWICE, INIT, s1, 1, 0);
    s := DestroyCallStep(TWICE, INIT, s2, 2, 0);
  }

  lemma DeregisteredByTheFirst() returns (s: State)
    ensures Leads(TWICE, INIT, s) && PcOf(s, 1) == Queue(0, false) && PcOf(s, 2) == Mark(0, false)
    ensures forall u :: u != 1 && u != 2 ==> PcOf(s, u) == Idle
    ensures BetweenBatches(s) && s.gc == [] && s.rmtx == None && s.events.Keys == {0}
    ensures s.events[0].ident == 5 && s.events[0].kind == USER_EV && s.events[0].closing
  {
    var s0 := DestroyedTwice();
    s := MarkAndDereg(TWICE, INIT, s0, 1, 0);
  }

  lemma ReleasedDuringTheSecond() returns (s: State)
    ensures Leads(TWICE, INIT, s) && PcOf(s, 2) == Mark(0, false) && (forall u :: u != 2 ==> PcOf(s, u) == Idle)
    ensures BetweenBatches(s) && s.events.Keys == {0}
    ensures s.events[0].ident == 5 && s.events[0].kind == USER_EV && s.events[0].released
  {
    var s0 := DeregisteredByTheFirst();
    s := QueueAndCollect(TWICE, INIT, s0, 1, 0);
  }

  lemma SuccessorIsCreated() returns (s: State)
    ensures Leads(TWICE, INIT, s) && PcOf(s, 2) == Mark(0, false) && (forall u :: u != 2 ==> PcOf(s, u) == Idle)
    ensures BetweenBatches(s) && s.events.Keys == {0, 1} && s.events[0].ident == 5 && s.events[0].kind == USER_EV
    ensures s.events[1] == NewEvent(5, USER_EV)
  {
    var s0 := ReleasedDuringTheSecond();
    s := CreateStep(TWICE, INIT, s0, 1, 1, 5, USER_EV);
  }

  lemma SuccessorIsSubmitted() returns (s: State)
    ensures Leads(TWICE, INIT, s) && PcOf(s, 2) == Mark(0, false) && (forall u :: u != 2 ==> PcOf(s, u) == Idle)
    ensures BetweenBatches(s) && s.events.Keys == {0, 1} && s.events[0].ident == 5 && s.events[0].kind == USER_EV
    ensures Armed(s, 1, USER) && s.events[1].ident == 5
  {
    var s0 := SuccessorIsCreated();
    s := SubmitAll(TWICE, INIT, s0, 1, 1, {USR});
  }

  lemma SecondDestroyLoses()
    ensures CanLoseWakeup(TWICE)
  {
    var s0 := SuccessorIsSubmitted();
    var s := MarkAndDereg(TWICE, INIT, s0, 2, 0);
    assert (5, USER) in Keys(s0.events[0]);
    LossFollows(TWICE, s, 1, USER);
  }

  // ----- together

  /** Destroy may be called twice, or two events may share a filter, or a release may close a foreign
      descriptor, or submits may both overlap destroy and outlive the event. */
  predicate Endangers(broken: set<Rule>) {
    || DestroyOnce in broken || OwnFilters in broken || CloseOwn in broken
    || (GiveUpOnDestroy in broken && SubmitUnreleased in broken)
  }

  lemma MoreBroken(less: set<Rule>, more: set<Rule>)
    requires less <= more && CanLoseWakeup(less)
    ensures CanLoseWakeup(more)
  {
    var states, steps, e, f :|
      IsRun(states, steps) && PathWithout(less, states, steps) && Lost(states[|steps|], e, f);
    forall i | 0 <= i < |steps|
      ensures KeepsAllBut(more, states[i], steps[i])
    {
      assert KeepsAllBut(less, states[i], steps[i]);
    }
    assert PathWithout(more, states, steps);
  }

  lemma BrokenRuleLoses(broken: set<Rule>)
    requires Endangers(broken)
    ensures CanLoseWakeup(broken)
  {
    if DestroyOnce in broken {
      SecondDestroyLoses();
      MoreBroken(TWICE, broken);
    } else if OwnFilters in broken {
      SharedFilterLoses();
      MoreBroken(SHARED, broken);
    } else if CloseOwn in broken {
      ForeignCloseLoses();
      MoreBroken({CloseOwn}, broken);
    } else {
      LateSubmitLoses();
      MoreBroken(RulesNeeded.LATE, broken);
    }
  }

  /** Submits that give up on destroy do not outlive the event, if it is destroyed once. */
  lemma {:induction false} SubmitsEndInTime(states: seq<State>, steps: seq<Step>, i: nat)
    requires IsRun(states, steps) && OneDestroyEach(states, steps) && i <= |steps|
    requires forall j :: 0 <= j < |steps| ==> GivesUpOnDestroy(states[j], steps[j])
    ensures Alive(states[i]) && NoLateSubmits(states[i])
  {
    if i > 0 {
      SubmitsEndInTime(states, steps, i - 1);
      StepKeepsAlive(states[i - 1], steps[i - 1]);
      NoLateSubmitsKept(states[i - 1], steps[i - 1]);
    }
  }

  lemma KeepsOneDestroy(broken: set<Rule>, states: seq<State>, steps: seq<Step>)
    requires PathWithout(broken, states, steps) && DestroyOnce !in broken
    ensures OneDestroyEach(states, steps)
  {
    forall i | 0 <= i < |steps|
      ensures DestroysOnce(states[i], steps[i])
    {
      assert KeepsAllBut(broken, states[i], steps[i]) && Keeps(DestroyOnce, states[i], steps[i]);
    }
  }

  lemma KeepsSubmits(broken: set<Rule>, states: seq<State>, steps: seq<Step>, i: nat)
    requires IsRun(states, steps) && PathWithout(broken, states, steps) && i < |steps| && !Endangers(broken)
    ensures SubmitsOnUnreleased(states[i], steps[i])
  {
    if SubmitUnreleased !in broken {
      assert KeepsAllBut(broken, states[i], steps[i]) && Keeps(SubmitUnreleased, states[i], steps[i]);
    } else {
      KeepsOneDestroy(broken, states, steps);
      forall j | 0 <= j < |steps|
        ensures GivesUpOnDestroy(states[j], steps[j])
      {
        assert KeepsAllBut(broken, states[j], steps[j]) && Keeps(GiveUpOnDestroy, states[j], steps[j]);
      }
      SubmitsEndInTime(states, steps, i);
      CarefulStep(states[i], steps[i]);
    }
  }

  lemma KeepsWakeRules(broken: set<Rule>, states: seq<State>, steps: seq<Step>)
    requires IsRun(states, steps) && PathWithout(broken, states, steps) && !Endangers(broken)
    ensures WakeRulesKept(states, steps)
  {
    forall i | 0 <= i < |steps|
      ensures WakeRules(states[i], steps[i])
    {
      var s, step := states[i], steps[i];
      assert KeepsAllBut(broken, s, step);
      assert Keeps(DestroyOnce, s, step) && Keeps(OwnFilters, s, step) && Keeps(CloseOwn, s, step);
      KeepsSubmits(broken, states, steps, i);
    }
  }

  /** For every set of rules that callers may break: some run in which they break no other loses a
      wake-up if and only if the set endangers it. */
  lemma WakeRulesAreExact(broken: set<Rule>)
    ensures CanLoseWakeup(broken) <==> Endangers(broken)
  {
    if Endangers(broken) {
      BrokenRuleLoses(broken);
    } else {
      forall states, steps, e, f | IsRun(states, steps) && PathWithout(broken, states, steps)
        ensures !Lost(states[|steps|], e, f)
      {
        KeepsWakeRules(broken, states, steps);
        ReachableWake(states, steps, |steps|, e, f);
      }
    }
  }
}
