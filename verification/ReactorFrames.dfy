/** What each step leaves alone, event by event and for the rest of the state. The proofs about
    runs use these facts in place of the definition of a step. */
module ReactorFrames {
  import opened Reactor

  /** What an action inside destroy, submit or gc may change in an event, by where its thread is. */
  ghost predicate GoChanges(pc: Pc, ev: Event, ev': Event) {
    && ev'.ident == ev.ident && ev'.kind == ev.kind && ev'.destroyed == ev.destroyed && ev'.calls == ev.calls
    && (ev.closing ==> ev'.closing) && (ev'.closing == ev.closing || pc.Mark?)
    && (ev.dereg ==> ev'.dereg) && (ev'.dereg == ev.dereg || pc.Dereg?)
    && (ev.released ==> ev'.released) && (ev'.released == ev.released || pc.Release?)
    && ((ev'.evmask == ev.evmask && ev'.submits == ev.submits) || pc.SubMark?)
    && (ev'.overlaps == ev.overlaps || pc.SubEnable?)
    && (ev'.mtx == ev.mtx || pc.SubLock? || pc.SubUnlock?)
    && (ev'.destroyer == ev.destroyer || pc.Unlock? || pc.Release? || pc.GcLoop?)
  }

  lemma DestroyEvent(s: State, t: Tid, e: Eid)
    requires Enabled(s, Go(t)) && e in s.events && PcOf(s, t).Destroying()
    ensures var s' := Apply(s, Go(t));
            && e in s'.events && GoChanges(PcOf(s, t), s.events[e], s'.events[e])
            && (s'.events[e] == s.events[e] || PcOf(s, t).GcLoop? || PcOf(s, t).Handles(e))
  {
    match PcOf(s, t) {
      case Mark(_, _) =>
      case Dereg(_, _) =>
      case Queue(_, _) =>
      case Link(_, _) =>
      case Unlock(_, _) =>
      case Release(_, _) =>
    }
  }

  lemma LockEvent(s: State, t: Tid, e: Eid)
    requires Enabled(s, Go(t)) && e in s.events && (PcOf(s, t).SubLock? || PcOf(s, t).SubUnlock?)
    ensures var s' := Apply(s, Go(t));
            && e in s'.events && GoChanges(PcOf(s, t), s.events[e], s'.events[e])
            && (s'.events[e] == s.events[e] || PcOf(s, t).e == e)
  {
  }

  lemma BitsEvent(s: State, t: Tid, e: Eid)
    requires Enabled(s, Go(t)) && e in s.events && (PcOf(s, t).SubMark? || PcOf(s, t).SubEnable?)
    ensures var s' := Apply(s, Go(t));
            && e in s'.events && GoChanges(PcOf(s, t), s.events[e], s'.events[e])
            && (s'.events[e] == s.events[e] || PcOf(s, t).e == e)
  {
  }

  lemma GcEvent(s: State, t: Tid, e: Eid)
    requires Enabled(s, Go(t)) && e in s.events && PcOf(s, t).GcLoop?
    ensures var s' := Apply(s, Go(t));
            && e in s'.events && s'.events[e] == s.events[e].(destroyer := s'.events[e].destroyer)
            && (s'.events[e] == s.events[e] || (s.gc != [] && s.gc[0] == e))
  {
    if s.gc == [] {
    } else if !s.events[s.gc[0]].closing {
    } else if t == REACTOR {
    }
  }

  lemma GoEvent(s: State, t: Tid, e: Eid)
    requires Enabled(s, Go(t)) && e in s.events
    ensures var s' := Apply(s, Go(t));
            && e in s'.events && GoChanges(PcOf(s, t), s.events[e], s'.events[e])
            && (s'.events[e] == s.events[e] || PcOf(s, t).GcLoop? || PcOf(s, t).Handles(e))
  {
    if PcOf(s, t).Destroying() {
      DestroyEvent(s, t, e);
    } else if PcOf(s, t).Submitting() {
      if PcOf(s, t).SubLock? || PcOf(s, t).SubUnlock? {
        LockEvent(s, t, e);
      } else {
        BitsEvent(s, t, e);
      }
    } else if PcOf(s, t).GcLoop? {
      GcEvent(s, t, e);
    }
  }

  /** What it leaves alone besides events. */
  ghost predicate GoLeaves(s: State, s': State, t: Tid) {
    var pc := PcOf(s, t);
    && s'.events.Keys == s.events.Keys && s'.batch == s.batch && s'.inCallback == s.inCallback
    && (s'.knotes == s.knotes || pc.Dereg? || pc.Release? || pc.SubEnable?)
    && (s'.gc == s.gc || pc.Link? || pc.GcLoop?)
    && (s'.freed == s.freed || pc.Release?)
    && ((s'.passFreed == s.passFreed && s'.passQueue == s.passQueue) || (pc.GcLock? && t == REACTOR))
  }

  lemma DestroyFrame(s: State, t: Tid)
    requires Enabled(s, Go(t)) && PcOf(s, t).Destroying()
    ensures GoLeaves(s, Apply(s, Go(t)), t)
  {
    match PcOf(s, t) {
      case Mark(_, _) =>
      case Dereg(_, _) =>
      case Queue(_, _) =>
      case Link(_, _) =>
      case Unlock(_, _) =>
      case Release(_, _) =>
    }
  }

  lemma SubmitFrame(s: State, t: Tid)
    requires Enabled(s, Go(t)) && PcOf(s, t).Submitting()
    ensures GoLeaves(s, Apply(s, Go(t)), t)
  {
    match PcOf(s, t) {
      case SubLock(_, _) =>
      case SubMark(_, _) =>
      case SubEnable(_) =>
      case SubUnlock(_) =>
    }
  }

  lemma GcFrame(s: State, t: Tid)
    requires Enabled(s, Go(t)) && PcOf(s, t).Collecting()
    ensures GoLeaves(s, Apply(s, Go(t)), t)
  {
    match PcOf(s, t) {
      case GcLock =>
      case GcLoop =>
    }
  }

  lemma GoFrame(s: State, t: Tid)
    requires Enabled(s, Go(t))
    ensures GoLeaves(s, Apply(s, Go(t)), t)
  {
    if PcOf(s, t).Destroying() {
      DestroyFrame(s, t);
    } else if PcOf(s, t).Submitting() {
      SubmitFrame(s, t);
    } else {
      GcFrame(s, t);
    }
  }

  /** It moves no other thread. */
  lemma OthersStay(s: State, t: Tid, u: Tid)
    requires Enabled(s, Go(t)) && u != t
    ensures PcOf(Apply(s, Go(t)), u) == PcOf(s, u)
  {
    match PcOf(s, t) {
      case Mark(_, _) =>
      case Dereg(_, _) =>
      case Queue(_, _) =>
      case Link(_, _) =>
      case Unlock(_, _) =>
      case Release(_, _) =>
      case SubLock(_, _) =>
      case SubMark(_, _) =>
      case SubEnable(_) =>
      case SubUnlock(_) =>
      case GcLock =>
      case GcLoop =>
    }
  }

  lemma SubmitsGoOn(s: State, t: Tid)
    requires Enabled(s, Go(t))
    ensures var pc, pc' := PcOf(s, t), PcOf(Apply(s, Go(t)), t); pc'.Submitting() ==> pc.Submitting() && pc'.e == pc.e
  {
    match PcOf(s, t) {
      case Mark(_, _) =>
      case Dereg(_, _) =>
      case Queue(_, _) =>
      case Link(_, _) =>
      case Unlock(_, _) =>
      case Release(_, _) =>
      case SubLock(_, _) =>
      case SubMark(_, _) =>
      case SubEnable(_) =>
      case SubUnlock(_) =>
      case GcLock =>
      case GcLoop =>
    }
  }

  /** A submit goes on with its event. */
  lemma GoMoves(s: State, t: Tid, u: Tid)
    requires Enabled(s, Go(t))
    ensures var pc, pc' := PcOf(s, u), PcOf(Apply(s, Go(t)), u);
            && (u != t ==> pc' == pc)
            && (pc'.Submitting() ==> pc.Submitting() && pc'.e == pc.e)
  {
    if u == t {
      SubmitsGoOn(s, t);
    } else {
      OthersStay(s, t, u);
    }
  }

  /** What enabling does: nothing to any event but its counters, and to the filters what `Enable` says. */
  lemma EnableEffect(s: State, t: Tid)
    requires PcOf(s, t).SubEnable? && GoEnabled(s, PcOf(s, t))
    ensures var s' := GoApply(s, t, PcOf(s, t));
            && s'.events.Keys == s.events.Keys
            && (forall e :: e in s.events && e != PcOf(s, t).e ==> s'.events[e] == s.events[e])
            && (var e := PcOf(s, t).e; s'.events[e] == s.events[e].(overlaps := s'.events[e].overlaps))
            && s'.knotes == Enable(s, PcOf(s, t).e)
            && s'.batch == s.batch && s'.gc == s.gc && s'.freed == s.freed
            && (forall u :: u != t ==> PcOf(s', u) == PcOf(s, u)) && PcOf(s', t) == SubUnlock(PcOf(s, t).e)
  {
  }

  /** What a step outside these calls may change in an event. */
  ghost predicate CallChanges(step: Step, ev: Event, ev': Event) {
    && ev'.ident == ev.ident && ev'.kind == ev.kind && ev'.closing == ev.closing && ev'.dereg == ev.dereg
    && ev'.released == ev.released && ev'.mtx == ev.mtx && ev'.submits == ev.submits && ev'.overlaps == ev.overlaps
    && (ev.destroyed ==> ev'.destroyed)
    && ((ev'.destroyed == ev.destroyed && ev'.destroyer == ev.destroyer) || step.DestroyCall?)
    && ((ev'.evmask == ev.evmask && ev'.calls == ev.calls) || step.Dispatch?)
  }

  lemma CallEvent(s: State, step: Step, e: Eid)
    requires Enabled(s, step) && !step.Go? && e in s.events
    ensures var s' := Apply(s, step); e in s'.events && CallChanges(step, s.events[e], s'.events[e])
  {
    match step {
      case Create(_, _, _, _) =>
      case DestroyCall(_, _) =>
      case SubmitCall(_, _, _) =>
      case GcCall(_) =>
      case Poll(_) =>
      case Dispatch =>
      case Return =>
    }
  }

  ghost predicate CallLeaves(s: State, step: Step, s': State) {
    && s'.gc == s.gc && s'.freed == s.freed && s'.rmtx == s.rmtx
    && (s'.inCallback == s.inCallback || step.Dispatch? || step.Return?)
    && (s'.events.Keys == s.events.Keys || step.Create?)
    && (s'.knotes == s.knotes || step.Create? || step.Poll?)
    && (s'.batch == s.batch || step.Poll? || (step.Dispatch? && s.batch != [] && s'.batch == s.batch[1..]))
  }

  lemma CallFrame(s: State, step: Step)
    requires Enabled(s, step) && !step.Go?
    ensures CallLeaves(s, step, Apply(s, step))
  {
    match step {
      case Create(_, _, _, _) =>
      case DestroyCall(_, _) =>
      case SubmitCall(_, _, _) =>
      case GcCall(_) =>
      case Poll(_) =>
      case Dispatch =>
      case Return =>
    }
  }

  /** The thread that a step outside these calls is of. */
  function Actor(step: Step): Tid
    requires !step.Go?
  {
    if step.Poll? || step.Dispatch? || step.Return? then REACTOR else step.t
  }

  lemma CallMovesNoOther(s: State, step: Step, u: Tid)
    requires Enabled(s, step) && !step.Go? && u != Actor(step)
    ensures PcOf(Apply(s, step), u) == PcOf(s, u)
  {
    match step {
      case Create(_, _, _, _) =>
      case DestroyCall(_, _) =>
      case SubmitCall(_, _, _) =>
      case GcCall(_) =>
      case Poll(_) =>
      case Dispatch =>
      case Return =>
    }
  }

  // ----- for every step

  /** Names and kinds stay, and what has been deregistered or released stays so. */
  ghost predicate Grows(ev: Event, ev': Event) {
    && ev'.ident == ev.ident && ev'.kind == ev.kind
    && (ev.dereg ==> ev'.dereg) && (ev.released ==> ev'.released) && (ev.destroyed ==> ev'.destroyed)
  }

  lemma StepEvent(s: State, step: Step, e: Eid)
    requires Enabled(s, step) && e in s.events
    ensures var s' := Apply(s, step); e in s'.events && Grows(s.events[e], s'.events[e])
  {
    if step.Go? {
      GoEvent(s, step.t, e);
    } else {
      CallEvent(s, step, e);
    }
  }

  lemma OnlyCreateAdds(s: State, step: Step)
    requires Enabled(s, step) && !step.Create?
    ensures Apply(s, step).events.Keys == s.events.Keys
  {
    if step.Go? {
      GoFrame(s, step.t);
    } else {
      CallFrame(s, step);
    }
  }
}
