/** An event that is submitted once is called back at most once per filter, whatever else happens.
    This is how the log server uses its socket. */
module OneSubmit {
  import opened Reactor
  import opened ReactorFrames
  import opened ReactorSafety
  import opened ReactorOneShot

  /** How often submit was called on the event in the first `i` steps. */
  function SubmitCalls(steps: seq<Step>, e: Eid, i: nat): nat
    requires i <= |steps|
  {
    if i == 0 then 0
    else SubmitCalls(steps, e, i - 1) + One(steps[i - 1].SubmitCall? && steps[i - 1].e == e)
  }

  /** The thread is in a submit of the event and has not enabled its filters. */
  predicate Ahead(pc: Pc, e: Eid) {
    (pc.SubLock? || pc.SubMark? || pc.SubEnable?) && pc.e == e
  }

  /** Nor has it set the bits. */
  predicate Early(pc: Pc, e: Eid) {
    (pc.SubLock? || pc.SubMark?) && pc.e == e
  }

  /** No filter of the event has ever been enabled. */
  ghost predicate Dormant(s: State, e: Eid) {
    && (forall k :: k in s.knotes && s.knotes[k].udata == e ==> !s.knotes[k].enabled)
    && NoEntry(s, e)
  }

  ghost predicate NeverSubmitted(s: State, e: Eid) {
    && Dormant(s, e) && (forall t :: PcOf(s, t).Submitting() ==> PcOf(s, t).e != e)
    && (e in s.events ==> s.events[e].submits == multiset{} && s.events[e].overlaps == multiset{})
  }

  ghost predicate SubmittedOnce(s: State, e: Eid) {
    && e in s.events && s.events[e].overlaps == multiset{}
    && (forall f :: s.events[e].submits[f] <= 1)
    && (forall t, u :: Ahead(PcOf(s, t), e) && Ahead(PcOf(s, u), e) ==> t == u)
    && (forall t :: Ahead(PcOf(s, t), e) ==> Dormant(s, e))
    && (forall t :: Early(PcOf(s, t), e) ==> s.events[e].submits == multiset{})
  }

  // ----- what a step does to the places of threads

  lemma SubmitAdvances(s: State, t: Tid, e: Eid)
    requires Enabled(s, Go(t)) && PcOf(s, t).Submitting()
    ensures var pc, pc' := PcOf(s, t), PcOf(Apply(s, Go(t)), t);
            && (Ahead(pc', e) ==> Ahead(pc, e) && !pc.SubEnable?) && (Early(pc', e) ==> Early(pc, e) && !pc.SubMark?)
  {
    match PcOf(s, t) {
      case SubLock(_, _) =>
      case SubMark(_, _) =>
      case SubEnable(_) =>
      case SubUnlock(_) =>
    }
  }

  lemma GoBehind(s: State, t: Tid, u: Tid, e: Eid)
    requires Enabled(s, Go(t))
    ensures var pc, pc' := PcOf(s, u), PcOf(Apply(s, Go(t)), u);
            && (Ahead(pc', e) ==> Ahead(pc, e) && (u == t ==> !pc.SubEnable?))
            && (Early(pc', e) ==> Early(pc, e) && (u == t ==> !pc.SubMark?))
  {
    GoMoves(s, t, u);
    if u == t && PcOf(s, t).Submitting() {
      SubmitAdvances(s, t, e);
    }
  }

  lemma CallBehind(s: State, step: Step, u: Tid)
    requires Enabled(s, step) && !step.Go?
    ensures var pc, pc' := PcOf(s, u), PcOf(Apply(s, step), u);
            pc'.Submitting() ==> pc' == pc || (step.SubmitCall? && step.t == u && pc' == SubLock(step.e, step.mask))
  {
    match step {
      case Create(_, _, _, _) =>
      case DestroyCall(_, _) =>
      case SubmitCall(_, _, _) =>
      case GcCall(_) =>
      case Poll(_) =>
      case Dispatch =>
      case Return =>
    }
  }

  // ----- what wakes a dormant event

  lemma GoKeepsDormant(s: State, s': State, t: Tid, e: Eid)
    requires Dormant(s, e) && Enabled(s, Go(t)) && s' == Apply(s, Go(t))
    requires PcOf(s, t).SubEnable? ==> PcOf(s, t).e != e
    ensures Dormant(s', e)
  {
    GoFrame(s, t);
    GoKeepsKeys(s, t);
  }

  lemma CallKeepsDormant(s: State, step: Step, e: Eid)
    requires Dormant(s, e) && Enabled(s, step) && !step.Go?
    ensures Dormant(Apply(s, step), e)
  {
    if step.Poll? {
      assert forall i :: 0 <= i < |step.entries| ==> Deliverable(s, step.entries[i]);
    } else {
      CallFrame(s, step);
    }
  }

  lemma DormantDoesNotOverlap(s: State, t: Tid, e: Eid)
    requires Dormant(s, e) && PcOf(s, t) == SubEnable(e) && Enabled(s, Go(t))
    ensures var s' := Apply(s, Go(t)); e in s'.events && s'.events[e].overlaps == s.events[e].overlaps
  {
    QuietEnableCountsNothing(s, t, e, READ);
  }

  // ----- the one submit

  lemma MarkNamesOnce(s: State, t: Tid, e: Eid)
    requires PcOf(s, t).SubMark? && PcOf(s, t).e == e && Enabled(s, Go(t)) && s.events[e].submits == multiset{}
    ensures var s' := Apply(s, Go(t)); e in s'.events && forall f :: s'.events[e].submits[f] <= 1
  {
  }

  lemma GoKeepsNever(s: State, s': State, t: Tid, e: Eid)
    requires NeverSubmitted(s, e) && Enabled(s, Go(t)) && s' == Apply(s, Go(t))
    ensures NeverSubmitted(s', e)
  {
    GoKeepsDormant(s, s', t, e);
    GoFrame(s, t);
    forall u
      ensures PcOf(s', u).Submitting() ==> PcOf(s', u).e != e
    {
      GoMoves(s, t, u);
    }
    if e in s.events {
      GoEvent(s, t, e);
    }
  }

  lemma CallKeepsNever(s: State, s': State, step: Step, e: Eid)
    requires NeverSubmitted(s, e) && Enabled(s, step) && !step.Go? && s' == Apply(s, step)
    requires !(step.SubmitCall? && step.e == e)
    ensures NeverSubmitted(s', e)
  {
    CallKeepsDormant(s, step, e);
    forall u
      ensures PcOf(s', u).Submitting() ==> PcOf(s', u).e != e
    {
      CallBehind(s, step, u);
    }
    if e in s.events {
      CallEvent(s, step, e);
    } else {
      CallFrame(s, step);
    }
  }

  lemma FirstSubmit(s: State, s': State, step: Step, e: Eid)
    requires NeverSubmitted(s, e) && Enabled(s, step) && step.SubmitCall? && step.e == e && s' == Apply(s, step)
    ensures SubmittedOnce(s', e)
  {
    CallKeepsDormant(s, step, e);
    CallEvent(s, step, e);
    forall u
      ensures Ahead(PcOf(s', u), e) ==> u == step.t
    {
      CallBehind(s, step, u);
    }
  }

  lemma GoKeepsCounts(s: State, t: Tid, e: Eid)
    requires SubmittedOnce(s, e) && Enabled(s, Go(t))
    ensures var s' := Apply(s, Go(t));
            && e in s'.events && s'.events[e].overlaps == multiset{} && (forall f :: s'.events[e].submits[f] <= 1)
            && (s'.events[e].submits == s.events[e].submits || (PcOf(s, t).SubMark? && PcOf(s, t).e == e))
  {
    GoEvent(s, t, e);
    var pc := PcOf(s, t);
    if pc.SubMark? && pc.e == e {
      assert Early(pc, e);
      MarkNamesOnce(s, t, e);
    } else if pc == SubEnable(e) {
      assert Ahead(pc, e);
      DormantDoesNotOverlap(s, t, e);
    }
  }

  lemma GoKeepsOnce(s: State, s': State, t: Tid, e: Eid)
    requires SubmittedOnce(s, e) && Enabled(s, Go(t)) && s' == Apply(s, Go(t))
    ensures SubmittedOnce(s', e)
  {
    GoKeepsCounts(s, t, e);
    forall u
      ensures Ahead(PcOf(s', u), e) ==> Ahead(PcOf(s, u), e) && Dormant(s', e)
      ensures Early(PcOf(s', u), e) ==> s'.events[e].submits == multiset{}
    {
      GoBehind(s, t, u, e);
      if Ahead(PcOf(s', u), e) {
        assert PcOf(s, t).SubEnable? && PcOf(s, t).e == e ==> Ahead(PcOf(s, t), e);
        GoKeepsDormant(s, s', t, e);
      }
      if Early(PcOf(s', u), e) {
        assert PcOf(s, t).SubMark? && PcOf(s, t).e == e ==> Ahead(PcOf(s, t), e);
      }
    }
  }

  lemma CallKeepsOnce(s: State, s': State, step: Step, e: Eid)
    requires SubmittedOnce(s, e) && Enabled(s, step) && !step.Go? && s' == Apply(s, step)
    requires !(step.SubmitCall? && step.e == e)
    ensures SubmittedOnce(s', e)
  {
    CallEvent(s, step, e);
    forall u
      ensures Ahead(PcOf(s', u), e) ==> PcOf(s', u) == PcOf(s, u) && Dormant(s', e)
    {
      CallBehind(s, step, u);
      if Ahead(PcOf(s', u), e) {
        CallKeepsDormant(s, step, e);
      }
    }
  }

  lemma {:induction false} ReachableOnce(states: seq<State>, steps: seq<Step>, i: nat, e: Eid)
    requires IsRun(states, steps) && i <= |steps| && SubmitCalls(steps, e, i) <= 1
    ensures if SubmitCalls(steps, e, i) == 0 then NeverSubmitted(states[i], e) else SubmittedOnce(states[i], e)
  {
    if i > 0 {
      var s, step := states[i - 1], steps[i - 1];
      ReachableOnce(states, steps, i - 1, e);
      if step.SubmitCall? && step.e == e {
        FirstSubmit(s, states[i], step, e);
      } else if SubmitCalls(steps, e, i) == 0 {
        if step.Go? {
          GoKeepsNever(s, states[i], step.t, e);
        } else {
          CallKeepsNever(s, states[i], step, e);
        }
      } else if step.Go? {
        GoKeepsOnce(s, states[i], step.t, e);
      } else {
        CallKeepsOnce(s, states[i], step, e);
      }
    }
  }

  /** In every run, whatever else the callers do, an event on which submit is called at most once
      never overlaps, and each of its one-shot filters is called back at most once. */
  lemma OneSubmitOneCallback(states: seq<State>, steps: seq<Step>, i: nat, e: Eid, f: Filter)
    requires IsRun(states, steps) && i <= |steps| && SubmitCalls(steps, e, i) <= 1 && OneShot(states[i], e, f)
    ensures states[i].events[e].overlaps[f] == 0 && states[i].events[e].calls[f] <= 1
  {
    ReachableOnce(states, steps, i, e);
    CallbacksAgainstSubmits(states, steps, i, e, f);
  }
}
