/** What holds in every interleaving of user threads with the reactor loop. */
module ReactorRuns {
  import opened Matching
  import opened Reactor
  import opened ReactorFrames
  import opened ReactorSafety

  lemma {:induction false} ReachableIsKeyed(states: seq<State>, steps: seq<Step>, i: nat)
    requires IsPath(states, steps) && Keyed(states[0]) && i <= |steps|
    ensures Keyed(states[i])
  {
    if i > 0 {
      ReachableIsKeyed(states, steps, i - 1);
      KeyedKept(states[i - 1], steps[i - 1]);
    }
  }

  lemma {:induction false} ReachableIsAlive(states: seq<State>, steps: seq<Step>, i: nat)
    requires IsRun(states, steps) && OneDestroyEach(states, steps) && i <= |steps|
    ensures Alive(states[i])
  {
    if i > 0 {
      ReachableIsAlive(states, steps, i - 1);
      StepKeepsAlive(states[i - 1], steps[i - 1]);
    }
  }

  /** The invariant holds along every path that keeps the callers' rules, from any state where it holds. */
  lemma {:induction false} StaysSafe(states: seq<State>, steps: seq<Step>, i: nat)
    requires IsPath(states, steps) && RulesKept(states, steps) && i <= |steps|
    requires Inv(states[0]) && Unshared(states[0])
    ensures Inv(states[i]) && Unshared(states[i])
  {
    if i > 0 {
      var s, step := states[i - 1], steps[i - 1];
      StaysSafe(states, steps, i - 1);
      UnsharedEnablesOwn(s, step);
      StepKeeps(s, step);
      UnsharedKept(s, step);
    }
  }

  lemma ReachableIsSafe(states: seq<State>, steps: seq<Step>, i: nat)
    requires IsRun(states, steps) && RulesKept(states, steps) && i <= |steps|
    ensures Inv(states[i]) && Unshared(states[i])
  {
    StaysSafe(states, steps, i);
  }

  // ----- nothing happens to a released event

  lemma TouchedIsUnreleased(s: State, step: Step, e: Eid)
    requires Inv(s) && Enabled(s, step) && DestroysOnce(s, step) && SubmitsOnUnreleased(s, step)
    requires e in Touched(s, step)
    ensures e in s.events && !s.events[e].released
  {
    if step.Go? {
      assert ThreadOk(s, step.t);
    } else if step.DestroyCall? {
      assert EventOk(s.events[e]);
    }
  }

  /** In every interleaving where callbacks spare events that still have an entry in the batch,
      the reactor dispatches no released event, however submits and destroys race. */
  lemma NoReleasedEventIsDispatched(states: seq<State>, steps: seq<Step>, i: nat)
    requires IsRun(states, steps) && RulesKept(states, steps)
    requires i < |steps| && steps[i].Dispatch?
    ensures !states[i].events[states[i].batch[0].e].released
  {
    ReachableIsSafe(states, steps, i);
  }

  // ----- callers that give an event up when they destroy it

  /** Every step keeps the rules that a caller can check alone: one destroy per event, not of
      one with an entry left in the batch, and no submit during or after it. */
  ghost predicate Careful(states: seq<State>, steps: seq<Step>) {
    && |states| == |steps| + 1
    && forall i {:trigger steps[i]} :: 0 <= i < |steps| ==>
         && DestroysOnce(states[i], steps[i]) && SparesPending(states[i], steps[i])
         && GivesUpOnDestroy(states[i], steps[i])
  }

  ghost predicate SubmitOk(s: State, t: Tid) {
    var pc := PcOf(s, t);
    pc.Submitting() ==> pc.e in s.events && !s.events[pc.e].destroyed
  }

  ghost predicate NoLateSubmits(s: State) {
    forall t :: SubmitOk(s, t)
  }

  lemma GoKeepsNoLateSubmits(s: State, s': State, t: Tid)
    requires NoLateSubmits(s) && Enabled(s, Go(t)) && s' == Apply(s, Go(t))
    ensures NoLateSubmits(s')
  {
    forall u
      ensures SubmitOk(s', u)
    {
      assert SubmitOk(s, u);
      GoMoves(s, t, u);
      if PcOf(s', u).Submitting() {
        GoEvent(s, t, PcOf(s', u).e);
      }
    }
  }

  lemma NoLateSubmitsKept(s: State, step: Step)
    requires NoLateSubmits(s) && Enabled(s, step) && GivesUpOnDestroy(s, step)
    ensures NoLateSubmits(Apply(s, step))
  {
    if step.Go? {
      GoKeepsNoLateSubmits(s, Apply(s, step), step.t);
    } else {
      var s' := Apply(s, step);
      forall u
        ensures SubmitOk(s', u)
      {
        assert SubmitOk(s, u);
      }
    }
  }

  lemma CarefulStep(s: State, step: Step)
    requires Alive(s) && NoLateSubmits(s)
    requires Enabled(s, step) && GivesUpOnDestroy(s, step)
    ensures SubmitsOnUnreleased(s, step) && EnablesOwn(s, step)
  {
    if step.Go? {
      assert SubmitOk(s, step.t);
      if PcOf(s, step.t).Submitting() {
        assert EventOk(s.events[PcOf(s, step.t).e]);
      }
    } else if step.SubmitCall? {
      assert EventOk(s.events[step.e]);
    }
  }

  lemma {:induction false} CarefulIsSafe(states: seq<State>, steps: seq<Step>, i: nat)
    requires IsRun(states, steps) && Careful(states, steps) && i <= |steps|
    ensures Inv(states[i]) && NoLateSubmits(states[i])
  {
    if i > 0 {
      CarefulIsSafe(states, steps, i - 1);
      CarefulStep(states[i - 1], steps[i - 1]);
      StepKeeps(states[i - 1], steps[i - 1]);
      NoLateSubmitsKept(states[i - 1], steps[i - 1]);
    }
  }

  /** No step of any thread, in destroy, submit, gc or dispatch, reads or writes an event that
      has been released; a destroying user thread in particular is done with it in time. This
      needs no rule about the numbers of events. */
  lemma NoUseAfterRelease(states: seq<State>, steps: seq<Step>, i: nat, e: Eid)
    requires IsRun(states, steps) && Careful(states, steps)
    requires i < |steps| && e in Touched(states[i], steps[i])
    ensures e in states[i].events && !states[i].events[e].released
  {
    CarefulIsSafe(states, steps, i);
    CarefulStep(states[i], steps[i]);
    TouchedIsUnreleased(states[i], steps[i], e);
  }

  // ----- who releases, and how often

  /** A thread that is about to release is the reactor's. */
  ghost predicate ReleaserIsReactor(s: State, t: Tid) {
    PcOf(s, t).Release? ==> t == REACTOR
  }

  lemma ReleaserKept(s: State, step: Step, t: Tid)
    requires Enabled(s, step) && ReleaserIsReactor(s, t)
    ensures ReleaserIsReactor(Apply(s, step), t)
  {
    if step.Go? {
      if step.t != t {
        OthersStay(s, step.t, t);
      } else {
        match PcOf(s, t) {
          case Mark(_, _) =>
          case Dereg(_, _) =>
          case Queue(_, _) =>
          case Link(_, _) =>
          case Unlock(_, _) =>
          case Release(_, _) =>
          case SubLock(_, _) =>
          case SubMark(_, _) =>
          case SubEnable(_) =>
          case SubUnlock(_) =>
          case GcLock =>
          case GcLoop =>
        }
      }
    }
  }

  lemma {:induction false} ReachableReleaser(states: seq<State>, steps: seq<Step>, i: nat, t: Tid)
    requires IsRun(states, steps) && i <= |steps|
    ensures ReleaserIsReactor(states[i], t)
  {
    if i > 0 {
      ReachableReleaser(states, steps, i - 1, t);
      ReleaserKept(states[i - 1], steps[i - 1], t);
    }
  }

  lemma ReleaseLogs(s: State, t: Tid)
    requires Enabled(s, Go(t)) && PcOf(s, t).Release?
    ensures Apply(s, Go(t)).freed == s.freed + [PcOf(s, t).e]
  {
  }

  /** In every run, whatever the callers do, a step that releases an event is the reactor thread's,
      and the release is logged. */
  lemma OnlyTheReactorReleases(states: seq<State>, steps: seq<Step>, i: nat, e: Eid)
    requires IsRun(states, steps) && i < |steps|
    requires e in states[i].events && !states[i].events[e].released
    requires e in states[i + 1].events && states[i + 1].events[e].released
    ensures steps[i] == Go(REACTOR) && states[i + 1].freed == states[i].freed + [e]
  {
    var s, step := states[i], steps[i];
    if step.Go? {
      GoEvent(s, step.t, e);
      ReachableReleaser(states, steps, i, step.t);
      ReleaseLogs(s, step.t);
    } else {
      CallEvent(s, step, e);
    }
  }

  /** The log of releases names no event twice, if destroy is called once per event. */
  lemma ReleasedAtMostOnce(states: seq<State>, steps: seq<Step>, i: nat, a: nat, b: nat)
    requires IsRun(states, steps) && OneDestroyEach(states, steps) && i <= |steps|
    requires a < b < |states[i].freed|
    ensures states[i].freed[a] != states[i].freed[b]
  {
    ReachableIsAlive(states, steps, i);
  }

  // ----- the event mutex

  /** Between locking and unlocking, a submitting thread holds its event's mutex. */
  ghost predicate SubmitHolds(s: State, t: Tid) {
    var pc := PcOf(s, t);
    pc.SubMark? || pc.SubEnable? || pc.SubUnlock? ==> pc.e in s.events && s.events[pc.e].mtx == Some(t)
  }

  lemma LockKeepsMutexes(s: State, t: Tid, u: Tid)
    requires Enabled(s, Go(t)) && SubmitHolds(s, u) && SubmitHolds(s, t)
    requires PcOf(s, t).SubLock? || PcOf(s, t).SubUnlock?
    ensures SubmitHolds(Apply(s, Go(t)), u)
  {
    match PcOf(s, t) {
      case SubLock(_, _) =>
      case SubUnlock(_) =>
    }
  }

  lemma GoKeepsMutexes(s: State, s': State, t: Tid, u: Tid)
    requires Enabled(s, Go(t)) && SubmitHolds(s, u) && SubmitHolds(s, t) && s' == Apply(s, Go(t))
    ensures SubmitHolds(s', u)
  {
    if PcOf(s, t).SubLock? || PcOf(s, t).SubUnlock? {
      LockKeepsMutexes(s, t, u);
    } else {
      GoMoves(s, t, u);
      if PcOf(s', u).Submitting() && PcOf(s', u).e in s.events {
        GoEvent(s, t, PcOf(s', u).e);
      }
    }
  }

  lemma CallKeepsMutexes(s: State, step: Step, u: Tid)
    requires Enabled(s, step) && SubmitHolds(s, u) && !step.Go?
    ensures SubmitHolds(Apply(s, step), u)
  {
    match step {
      case Create(_, _, _, _) =>
      case DestroyCall(_, _) =>
      case SubmitCall(_, _, _) =>
      case GcCall(_) =>
      case Poll(_) =>
      case Dispatch =>
      case Return =>
    }
  }

  lemma MutexesKept(s: State, step: Step, t: Tid)
    requires Enabled(s, step) && SubmitHolds(s, t) && (step.Go? ==> SubmitHolds(s, step.t))
    ensures SubmitHolds(Apply(s, step), t)
  {
    if step.Go? {
      GoKeepsMutexes(s, Apply(s, step), step.t, t);
    } else {
      CallKeepsMutexes(s, step, t);
    }
  }

  lemma {:induction false} ReachableMutexes(states: seq<State>, steps: seq<Step>, i: nat, t: Tid)
    requires IsRun(states, steps) && i <= |steps|
    ensures SubmitHolds(states[i], t)
  {
    if i > 0 {
      ReachableMutexes(states, steps, i - 1, t);
      if steps[i - 1].Go? {
        ReachableMutexes(states, steps, i - 1, steps[i - 1].t);
      }
      MutexesKept(states[i - 1], steps[i - 1], t);
    }
  }

  /** The thread is between locking and unlocking the mutex of event `e`. */
  predicate InSubmit(pc: Pc, e: Eid) {
    (pc.SubMark? || pc.SubEnable? || pc.SubUnlock?) && pc.e == e
  }

  /** In every run, disciplined or not, from setting bits to unlocking, a submit is atomic towards
      consumption and towards other submits of the same event. */
  lemma SubmitIsAtomic(states: seq<State>, steps: seq<Step>, i: nat, t: Tid, u: Tid, e: Eid)
    requires IsRun(states, steps) && i < |steps|
    requires InSubmit(PcOf(states[i], t), e)
    ensures steps[i].Dispatch? ==> states[i].batch[0].e != e
    ensures u != t ==> !InSubmit(PcOf(states[i], u), e)
  {
    ReachableMutexes(states, steps, i, t);
    ReachableMutexes(states, steps, i, u);
  }

  // ----- nobody waits for ever

  /** Conversely, whoever holds an event's mutex is inside a submit of it. */
  ghost predicate HolderSubmits(s: State, e: Eid) {
    e in s.events && s.events[e].mtx.Some? ==> InSubmit(PcOf(s, s.events[e].mtx.value), e)
  }

  lemma LockKeepsHolder(s: State, t: Tid, e: Eid)
    requires Enabled(s, Go(t)) && HolderSubmits(s, e) && (PcOf(s, t).SubLock? || PcOf(s, t).SubUnlock?)
    ensures HolderSubmits(Apply(s, Go(t)), e)
  {
    match PcOf(s, t) {
      case SubLock(_, _) =>
      case SubUnlock(_) =>
    }
  }

  lemma GoStaysInSubmit(s: State, t: Tid, e: Eid)
    requires Enabled(s, Go(t)) && InSubmit(PcOf(s, t), e) && !PcOf(s, t).SubUnlock?
    ensures InSubmit(PcOf(Apply(s, Go(t)), t), e)
  {
  }

  lemma GoKeepsHolder(s: State, s': State, t: Tid, e: Eid)
    requires Enabled(s, Go(t)) && HolderSubmits(s, e) && e in s.events && s' == Apply(s, Go(t))
    ensures HolderSubmits(s', e)
  {
    if PcOf(s, t).SubLock? || PcOf(s, t).SubUnlock? {
      LockKeepsHolder(s, t, e);
    } else {
      GoEvent(s, t, e);
      if s.events[e].mtx.Some? {
        GoMoves(s, t, s.events[e].mtx.value);
        if s.events[e].mtx == Some(t) {
          GoStaysInSubmit(s, t, e);
        }
      }
    }
  }

  lemma CallKeepsHolder(s: State, step: Step, e: Eid)
    requires Enabled(s, step) && HolderSubmits(s, e) && !step.Go?
    ensures HolderSubmits(Apply(s, step), e)
  {
    match step {
      case Create(_, _, _, _) =>
      case DestroyCall(_, _) =>
      case SubmitCall(_, _, _) =>
      case GcCall(_) =>
      case Poll(_) =>
      case Dispatch =>
      case Return =>
    }
  }

  lemma HolderKept(s: State, step: Step, e: Eid)
    requires Enabled(s, step) && HolderSubmits(s, e)
    ensures HolderSubmits(Apply(s, step), e)
  {
    if step.Go? {
      GoFrame(s, step.t);
      if e in s.events {
        GoKeepsHolder(s, Apply(s, step), step.t, e);
      }
    } else {
      CallKeepsHolder(s, step, e);
    }
  }

  lemma {:induction false} ReachableHolder(states: seq<State>, steps: seq<Step>, i: nat, e: Eid)
    requires IsPath(states, steps) && HolderSubmits(states[0], e) && i <= |steps|
    ensures HolderSubmits(states[i], e)
  {
    if i > 0 {
      ReachableHolder(states, steps, i - 1, e);
      HolderKept(states[i - 1], steps[i - 1], e);
    }
  }

  /** Thread `u` holds the mutex that thread `t` needs for its next action: an event's mutex for
      submit and for the reactor thread's next dispatch, or the reactor's mutex for destroy and gc. */
  ghost predicate WaitsFor(s: State, t: Tid, u: Tid) {
    match PcOf(s, t)
    case SubLock(e, mask) => e in s.events && s.events[e].mtx == Some(u)
    case Queue(e, gc) => s.rmtx == Some(u)
    case GcLock => s.rmtx == Some(u)
    case Idle =>
      && t == REACTOR && !s.inCallback && s.batch != []
      && s.batch[0].e in s.events && s.events[s.batch[0].e].mtx == Some(u)
    case _ => false
  }

  /** The thread has something to do that is not left to user code or to the kernel. */
  predicate Busy(s: State, t: Tid) {
    PcOf(s, t) != Idle || (t == REACTOR && !s.inCallback && s.batch != [])
  }

  predicate CanMove(s: State, t: Tid) {
    Enabled(s, Go(t)) || (t == REACTOR && Enabled(s, Dispatch))
  }

  /** No deadlock: if destroy is called once per event, in every reachable state a busy thread can
      move, or the one that holds the mutex it waits for can, and that one waits for nobody. */
  lemma NoDeadlock(states: seq<State>, steps: seq<Step>, i: nat, t: Tid)
    requires IsRun(states, steps) && OneDestroyEach(states, steps) && i <= |steps| && Busy(states[i], t)
    ensures CanMove(states[i], t) || exists u :: WaitsFor(states[i], t, u)
    ensures forall u :: WaitsFor(states[i], t, u) ==> u != t && CanMove(states[i], u)
  {
    var s := states[i];
    ReachableIsAlive(states, steps, i);
    ReachableIsKeyed(states, steps, i);
    assert ThreadOk(s, t);
    BusyMovesOrWaits(s, t);
    forall u | WaitsFor(s, t, u)
      ensures u != t && CanMove(s, u)
    {
      assert ThreadOk(s, u);
      if PcOf(s, t).SubLock? {
        ReachableHolder(states, steps, i, PcOf(s, t).e);
      } else if PcOf(s, t).Idle? {
        ReachableHolder(states, steps, i, s.batch[0].e);
      }
      HolderMoves(s, u);
    }
  }

  lemma BusyMovesOrWaits(s: State, t: Tid)
    requires Alive(s) && Keyed(s) && Busy(s, t)
    ensures CanMove(s, t) || exists u :: WaitsFor(s, t, u)
  {
    assert ThreadOk(s, t);
    match PcOf(s, t) {
      case SubLock(e, _) => if s.events[e].mtx.Some? { assert WaitsFor(s, t, s.events[e].mtx.value); }
      case Queue(_, _) => if s.rmtx.Some? { assert WaitsFor(s, t, s.rmtx.value); }
      case GcLock => if s.rmtx.Some? { assert WaitsFor(s, t, s.rmtx.value); }
      case Idle =>
        var e := s.batch[0].e;
        assert EntryKeyed(s, s.batch[0]);
        if s.events[e].mtx.Some? { assert WaitsFor(s, t, s.events[e].mtx.value); }
      case _ =>
    }
  }

  lemma HolderMoves(s: State, u: Tid)
    requires Alive(s) && Holding(PcOf(s, u))
    ensures CanMove(s, u)
  {
    assert ThreadOk(s, u);
  }

  /** The thread holds some mutex. */
  predicate Holding(pc: Pc) {
    HoldsReactor(pc) || pc.SubMark? || pc.SubEnable? || pc.SubUnlock?
  }

  /** How many more actions of its own a holder needs to give its mutex back. */
  function Remaining(s: State, u: Tid): (n: nat)
    ensures n > 0 <==> Holding(PcOf(s, u))
  {
    match PcOf(s, u)
    case SubMark(_, _) => 3
    case SubEnable(_) => 2
    case SubUnlock(_) => 1
    case Link(_, _) => 2
    case Unlock(_, _) => 1
    case GcLoop => 2 * |s.gc| + 1
    case Release(_, gc) => if gc then 2 * |s.gc| + 2 else 0
    case _ => 0
  }

  lemma HolderGoes(s: State, u: Tid)
    requires Alive(s) && Enabled(s, Go(u)) && Holding(PcOf(s, u))
    ensures Remaining(Apply(s, Go(u)), u) < Remaining(s, u)
  {
    assert ThreadOk(s, u);
  }

  lemma OthersLeaveQueue(s: State, t: Tid, u: Tid)
    requires Alive(s) && Enabled(s, Go(t)) && t != u && HoldsReactor(PcOf(s, u))
    ensures Apply(s, Go(t)).gc == s.gc
  {
    assert ThreadOk(s, t) && ThreadOk(s, u);
  }

  lemma OthersLeaveHolder(s: State, step: Step, u: Tid)
    requires Alive(s) && Enabled(s, step) && step != Go(u) && Holding(PcOf(s, u))
    ensures Remaining(Apply(s, step), u) == Remaining(s, u)
  {
    assert ThreadOk(s, u);
    if step.Go? {
      GoMoves(s, step.t, u);
      if HoldsReactor(PcOf(s, u)) {
        OthersLeaveQueue(s, step.t, u);
      }
    }
  }

  /** Every critical section ends: each action of the holder brings it nearer to giving its mutex
      back, whatever the queue held when it began, and no step of anyone else delays it. */
  lemma HoldingIsBounded(states: seq<State>, steps: seq<Step>, i: nat, u: Tid)
    requires IsRun(states, steps) && OneDestroyEach(states, steps) && i < |steps|
    requires Holding(PcOf(states[i], u))
    ensures if steps[i] == Go(u) then Remaining(states[i + 1], u) < Remaining(states[i], u)
            else Remaining(states[i + 1], u) == Remaining(states[i], u)
  {
    ReachableIsAlive(states, steps, i);
    if steps[i] == Go(u) {
      HolderGoes(states[i], u);
    } else {
      OthersLeaveHolder(states[i], steps[i], u);
    }
  }

  // ----- the gc pass

  /** What the reactor thread has released in this pass, what it holds and what is still queued
      make up the queue it found. */
  ghost predicate PassOk(s: State) {
    var pc := PcOf(s, REACTOR);
    && (pc.GcLoop? ==> s.freed + s.gc == s.passFreed + s.passQueue)
    && (pc.Release? && pc.gc ==> s.freed + [pc.e] + s.gc == s.passFreed + s.passQueue)
  }

  /** User threads neither release nor, while the reactor thread holds the mutex, touch the queue. */
  lemma OthersKeepPass(s: State, t: Tid)
    requires Alive(s) && PassOk(s) && Enabled(s, Go(t)) && t != REACTOR
    ensures PassOk(Apply(s, Go(t)))
  {
    assert ThreadOk(s, REACTOR) && ThreadOk(s, t);
    GoFrame(s, t);
    OthersStay(s, t, REACTOR);
  }

  lemma ReactorKeepsPass(s: State)
    requires Alive(s) && PassOk(s) && Enabled(s, Go(REACTOR))
    ensures PassOk(Apply(s, Go(REACTOR)))
  {
    assert ThreadOk(s, REACTOR);
    if s.gc != [] {
      assert s.freed + [s.gc[0]] + s.gc[1..] == s.freed + s.gc;
    }
  }

  lemma PassKept(s: State, step: Step)
    requires Alive(s) && PassOk(s) && Enabled(s, step)
    ensures PassOk(Apply(s, step))
  {
    assert ThreadOk(s, REACTOR);
    if step.Go? {
      if step.t == REACTOR {
        ReactorKeepsPass(s);
      } else {
        OthersKeepPass(s, step.t);
      }
    }
  }

  lemma {:induction false} ReachablePass(states: seq<State>, steps: seq<Step>, i: nat)
    requires IsRun(states, steps) && OneDestroyEach(states, steps) && i <= |steps|
    ensures PassOk(states[i])
  {
    if i > 0 {
      ReachablePass(states, steps, i - 1);
      ReachableIsAlive(states, steps, i - 1);
      PassKept(states[i - 1], steps[i - 1]);
    }
  }

  /** When the reactor thread leaves a gc pass it has released exactly the events that were
      queued when it began, first queued first, and the queue is empty. */
  lemma GcPassIsFifo(states: seq<State>, steps: seq<Step>, i: nat)
    requires IsRun(states, steps) && OneDestroyEach(states, steps) && i < |steps|
    requires steps[i] == Go(REACTOR)
    requires PcOf(states[i], REACTOR).GcLoop? && PcOf(states[i + 1], REACTOR) == Idle
    ensures states[i].gc == [] && states[i].freed == states[i].passFreed + states[i].passQueue
  {
    ReachablePass(states, steps, i);
    PassEnds(states[i]);
  }

  lemma PassEnds(s: State)
    requires PassOk(s) && Enabled(s, Go(REACTOR))
    requires PcOf(s, REACTOR).GcLoop? && PcOf(Apply(s, Go(REACTOR)), REACTOR) == Idle
    ensures s.gc == [] && s.freed == s.passFreed + s.passQueue
  {
    assert s.gc == [] ==> s.freed + s.gc == s.freed;
  }

  /** Nothing on the queue is unmarked, so a gc pass, whoever runs it, never comes back to the
      reactor mutex it holds. */
  lemma GcNeverRelocks(states: seq<State>, steps: seq<Step>, i: nat, t: Tid)
    requires IsRun(states, steps) && OneDestroyEach(states, steps) && i <= |steps|
    ensures forall j :: 0 <= j < |states[i].gc| ==>
              states[i].gc[j] in states[i].events && states[i].events[states[i].gc[j]].closing
    ensures PcOf(states[i], t).Queue? ==> !PcOf(states[i], t).gc && states[i].rmtx != Some(t)
    ensures PcOf(states[i], t).GcLock? ==> states[i].rmtx != Some(t)
  {
    ReachableIsAlive(states, steps, i);
    assert ThreadOk(states[i], t);
  }
}
