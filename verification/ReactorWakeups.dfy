/** No lost wake-up: a bit that is set in an event's mask is on its way to a callback. */
module ReactorWakeups {
  import opened Reactor
  import opened ReactorFrames
  import opened ReactorSafety

  ghost predicate RegisteredFor(s: State, e: Eid, f: Filter)
    requires e in s.events
  {
    var k := (s.events[e].ident, f);
    k in s.knotes && s.knotes[k].udata == e
  }

  /** Until it is deregistered, an event has all its filters in the kernel. */
  ghost predicate PresentFor(s: State, e: Eid, f: Filter) {
    e in s.events && !s.events[e].dereg && f in Filters(s.events[e].kind) ==> RegisteredFor(s, e, f)
  }

  ghost predicate Present(s: State) {
    forall e, f :: PresentFor(s, e, f)
  }

  /** A thread has put bits into the mask and is about to enable their filters. */
  ghost predicate InFlight(s: State, e: Eid) {
    exists t :: PcOf(s, t) == SubEnable(e)
  }

  ghost predicate Armed(s: State, e: Eid, f: Filter) {
    && e in s.events && !s.events[e].dereg
    && f in Filters(s.events[e].kind) && FlagOf(f) in s.events[e].evmask
  }

  /** The bit of `f` will be served: the filter is enabled, or its entry waits in the batch, or
      the submit that set it is just enabling it. */
  ghost predicate Served(s: State, e: Eid, f: Filter)
    requires e in s.events
  {
    || (RegisteredFor(s, e, f) && s.knotes[(s.events[e].ident, f)].enabled)
    || (Dispatched(f) && Pending(s, e, f))
    || InFlight(s, e)
  }

  ghost predicate ServedIfArmed(s: State, e: Eid, f: Filter) {
    Armed(s, e, f) ==> Served(s, e, f)
  }

  /** release() closes `event->fd` whatever the event is; for a timer, user or signal event the
      number may be the descriptor of a socket event that is still registered. */
  ghost predicate ClosesForeign(s: State, step: Step) {
    && step.Go? && PcOf(s, step.t).Release? && PcOf(s, step.t).e in s.events
    && exists e :: SocketWithIdent(s, e, s.events[PcOf(s, step.t).e].ident)
  }

  ghost predicate SocketWithIdent(s: State, e: Eid, ident: int) {
    e in s.events && !s.events[e].dereg && s.events[e].kind == SOCK && s.events[e].ident == ident
  }

  // ----- most steps change nothing that matters here

  /** A step of thread `t` leaves the batch, the other threads and the event's mask and counts
      alone, and adds or enables no filter. */
  ghost predicate Calm(s: State, s': State, t: Tid, e: Eid) {
    && (forall u :: u != t ==> PcOf(s', u) == PcOf(s, u))
    && s'.batch == s.batch
    && (forall k :: k in s'.knotes ==> k in s.knotes && s'.knotes[k] == s.knotes[k])
    && (e in s'.events ==>
          && e in s.events
          && s'.events[e].ident == s.events[e].ident && s'.events[e].kind == s.events[e].kind
          && s'.events[e].evmask == s.events[e].evmask && (s.events[e].dereg ==> s'.events[e].dereg)
          && s'.events[e].calls == s.events[e].calls && s'.events[e].submits == s.events[e].submits
          && s'.events[e].overlaps == s.events[e].overlaps)
  }

  lemma DestroyIsCalm(s: State, t: Tid, e: Eid)
    requires Enabled(s, Go(t)) && PcOf(s, t).Destroying()
    ensures var s' := Apply(s, Go(t));
            && Calm(s, s', t, e)
            && (PcOf(s, t).Dereg? || PcOf(s, t).Release? || s'.knotes == s.knotes)
  {
    match PcOf(s, t) {
      case Mark(_, _) =>
      case Dereg(_, _) =>
      case Queue(_, _) =>
      case Link(_, _) =>
      case Unlock(_, _) =>
      case Release(_, _) =>
    }
  }

  lemma LockIsCalm(s: State, t: Tid, e: Eid)
    requires Enabled(s, Go(t)) && (PcOf(s, t).SubLock? || PcOf(s, t).SubUnlock?)
    ensures var s' := Apply(s, Go(t)); Calm(s, s', t, e) && s'.knotes == s.knotes
  {
    match PcOf(s, t) {
      case SubLock(_, _) =>
      case SubUnlock(_) =>
    }
  }

  lemma GcIsCalm(s: State, t: Tid, e: Eid)
    requires Enabled(s, Go(t)) && PcOf(s, t).Collecting()
    ensures var s' := Apply(s, Go(t)); Calm(s, s', t, e) && s'.knotes == s.knotes
  {
    if PcOf(s, t).GcLock? {
    } else if s.gc == [] {
    } else if !s.events[s.gc[0]].closing {
    } else if t == REACTOR {
    }
  }

  lemma CallIsCalm(s: State, step: Step, e: Eid)
    requires Enabled(s, step) && (step.DestroyCall? || step.SubmitCall? || step.GcCall? || step.Return?)
    ensures var s' := Apply(s, step);
            Calm(s, s', if step.Return? then REACTOR else step.t, e) && s'.knotes == s.knotes
  {
    match step {
      case DestroyCall(_, _) =>
      case SubmitCall(_, _, _) =>
      case GcCall(_) =>
      case Return =>
    }
  }

  lemma CalmKeepsPresent(s: State, s': State, t: Tid, e: Eid, f: Filter)
    requires Calm(s, s', t, e) && s'.knotes == s.knotes && PresentFor(s, e, f)
    ensures PresentFor(s', e, f)
  {
  }

  lemma CalmKeepsServed(s: State, s': State, t: Tid, e: Eid, f: Filter)
    requires Calm(s, s', t, e) && PcOf(s, t) != SubEnable(e)
    requires PresentFor(s', e, f) && ServedIfArmed(s, e, f)
    ensures ServedIfArmed(s', e, f)
  {
    if Armed(s', e, f) {
      if InFlight(s, e) {
        var u :| PcOf(s, u) == SubEnable(e);
        assert PcOf(s', u) == SubEnable(e);
      } else if Pending(s, e, f) {
        assert Pending(s', e, f);
      }
    }
  }

  // ----- every step keeps the registrations

  /** Unreleased events do not share a filter. */
  lemma OwnKey(s: State, e: Eid, e': Eid, f: Filter)
    requires Unshared(s)
    requires e in s.events && e' in s.events && !s.events[e].released && !s.events[e'].released
    requires s.events[e].ident == s.events[e'].ident
    requires f in Filters(s.events[e].kind) && f in Filters(s.events[e'].kind)
    ensures e == e'
  {
  }

  lemma DeregKeepsPresent(s: State, t: Tid, e: Eid, f: Filter)
    requires Alive(s) && Unshared(s) && PresentFor(s, e, f) && PcOf(s, t).Dereg? && Enabled(s, Go(t))
    ensures PresentFor(Apply(s, Go(t)), e, f)
  {
    var e' := PcOf(s, t).e;
    assert ThreadOk(s, t);
    if e in s.events && !s.events[e].dereg && f in Filters(s.events[e].kind) && e' != e {
      assert EventOk(s.events[e]);
      if s.events[e'].ident == s.events[e].ident && f in Filters(s.events[e'].kind) {
        OwnKey(s, e, e', f);
      }
    }
  }

  lemma ReleaseKeepsPresent(s: State, t: Tid, e: Eid, f: Filter)
    requires Threads(s) && PresentFor(s, e, f) && PcOf(s, t).Release? && Enabled(s, Go(t))
    requires !ClosesForeign(s, Go(t))
    ensures PresentFor(Apply(s, Go(t)), e, f)
  {
    var e' := PcOf(s, t).e;
    assert ThreadOk(s, t);
    assert !SocketWithIdent(s, e, s.events[e'].ident);
  }

  lemma EnableKeepsPresent(s: State, s': State, t: Tid, e: Eid, f: Filter)
    requires Events(s) && Unshared(s) && PresentFor(s, e, f) && PcOf(s, t).SubEnable? && Enabled(s, Go(t))
    requires SubmitsOnUnreleased(s, Go(t)) && s' == Apply(s, Go(t))
    ensures PresentFor(s', e, f)
  {
    var e' := PcOf(s, t).e;
    EnableEffect(s, t);
    if e in s.events && !s.events[e].dereg && f in Filters(s.events[e].kind) && e' != e {
      assert EventOk(s.events[e]);
      if s.events[e'].ident == s.events[e].ident && f in Filters(s.events[e'].kind) {
        OwnKey(s, e, e', f);
      }
    }
  }

  /** Marking bits changes a mask and nothing in the kernel. */
  lemma MarkKeepsPresent(s: State, t: Tid, e: Eid, f: Filter)
    requires PresentFor(s, e, f) && PcOf(s, t).SubMark? && Enabled(s, Go(t))
    ensures PresentFor(Apply(s, Go(t)), e, f)
  {
  }

  lemma CreateKeepsPresent(s: State, step: Step, s': State, e: Eid, f: Filter)
    requires Events(s) && PresentFor(s, e, f) && step.Create? && step.e !in s.events && OwnsFilters(s, step)
    requires s'.events == s.events[step.e := NewEvent(step.ident, step.kind)]
    requires s'.knotes == s.knotes + NewKnotes(step.ident, step.kind, step.e)
    ensures PresentFor(s', e, f)
  {
    if e in s.events && !s.events[e].dereg && f in Filters(s.events[e].kind) {
      assert EventOk(s.events[e]);
      assert s.events[e].ident == step.ident ==> f !in Filters(step.kind);
    }
  }

  // ----- every step keeps set bits served

  /** The submit that set the bits enables their filters, which are registered. */
  lemma EnableServesOwn(s: State, t: Tid, e: Eid, f: Filter)
    requires PresentFor(s, e, f) && PcOf(s, t) == SubEnable(e) && Enabled(s, Go(t))
    ensures ServedIfArmed(Apply(s, Go(t)), e, f)
  {
  }

  lemma EnableServesOther(s: State, t: Tid, e: Eid, f: Filter)
    requires ServedIfArmed(s, e, f) && PcOf(s, t).SubEnable? && PcOf(s, t).e != e && Enabled(s, Go(t))
    requires PresentFor(Apply(s, Go(t)), e, f)
    ensures ServedIfArmed(Apply(s, Go(t)), e, f)
  {
    var s' := Apply(s, Go(t));
    if Armed(s, e, f) {
      if InFlight(s, e) {
        var u :| PcOf(s, u) == SubEnable(e);
        assert PcOf(s', u) == SubEnable(e);
      } else if Pending(s, e, f) {
        assert Pending(s', e, f);
      }
    }
  }

  lemma MarkServes(s: State, t: Tid, e: Eid, f: Filter)
    requires ServedIfArmed(s, e, f)
    requires PcOf(s, t).SubMark? && Enabled(s, Go(t))
    ensures ServedIfArmed(Apply(s, Go(t)), e, f)
  {
    var s' := Apply(s, Go(t));
    assert PcOf(s', t) == SubEnable(PcOf(s, t).e);
    if Armed(s, e, f) && PcOf(s, t).e != e {
      if InFlight(s, e) {
        var u :| PcOf(s, u) == SubEnable(e);
        assert PcOf(s', u) == SubEnable(e);
      } else if Pending(s, e, f) {
        assert Pending(s', e, f);
      }
    }
  }

  /** A delivery turns an enabled filter into a pending entry. */
  lemma PollServes(s: State, entries: seq<Entry>, e: Eid, f: Filter)
    requires ServedIfArmed(s, e, f) && Enabled(s, Poll(entries))
    ensures ServedIfArmed(Apply(s, Poll(entries)), e, f)
  {
    var s' := Apply(s, Poll(entries));
    if Armed(s, e, f) {
      if InFlight(s, e) {
        var u :| PcOf(s, u) == SubEnable(e);
        assert PcOf(s', u) == SubEnable(e);
      } else {
        var k := (s.events[e].ident, f);
        if !s'.knotes[k].enabled {
          var i :| 0 <= i < |entries| && entries[i].ident == k.0 && entries[i].f == k.1;
          assert Deliverable(s, entries[i]);
          assert s'.batch[i].e == e && s'.batch[i].f == f;
        }
      }
    }
  }

  lemma ConsumedServes(s: State, s': State, e: Eid, f: Filter)
    requires ServedIfArmed(s, e, f) && s.batch != [] && (forall u :: PcOf(s', u) == PcOf(s, u))
    requires s'.batch == s.batch[1..] && s'.knotes == s.knotes
    requires e in s'.events ==> e in s.events
    requires e in s'.events ==>
               s'.events[e] == if s.batch[0].e == e then AfterEntry(s.events[e], s.batch[0]) else s.events[e]
    ensures ServedIfArmed(s', e, f)
  {
    if Armed(s', e, f) {
      if InFlight(s, e) {
        var u :| PcOf(s, u) == SubEnable(e);
        assert PcOf(s', u) == SubEnable(e);
      } else if Dispatched(f) && Pending(s, e, f) {
        var i :| 0 <= i < |s.batch| && s.batch[i].e == e && s.batch[i].f == f;
        assert i > 0;
        assert s'.batch[i - 1] == s.batch[i];
      }
    }
  }

  /** Consuming an entry clears the bit it was pending for. */
  lemma DispatchServes(s: State, e: Eid, f: Filter)
    requires ServedIfArmed(s, e, f) && Enabled(s, Dispatch)
    ensures ServedIfArmed(Apply(s, Dispatch), e, f)
  {
    ConsumedServes(s, Apply(s, Dispatch), e, f);
  }

  lemma CreateServes(s: State, step: Step, e: Eid, f: Filter)
    requires Alive(s) && PresentFor(s, e, f) && ServedIfArmed(s, e, f)
    requires step.Create? && Enabled(s, step) && OwnsFilters(s, step)
    ensures ServedIfArmed(Apply(s, step), e, f)
  {
    var s' := Apply(s, step);
    if Armed(s', e, f) {
      assert EventOk(s.events[e]);
      if InFlight(s, e) {
        var u :| PcOf(s, u) == SubEnable(e);
        assert PcOf(s', u) == SubEnable(e);
      } else if Pending(s, e, f) {
        assert Pending(s', e, f);
      }
    }
  }

  // ----- together

  ghost predicate WakeOk(s: State, e: Eid, f: Filter) {
    PresentFor(s, e, f) && ServedIfArmed(s, e, f)
  }

  lemma GoKeepsWake(s: State, t: Tid, e: Eid, f: Filter)
    requires Alive(s) && Unshared(s) && WakeOk(s, e, f)
    requires Enabled(s, Go(t)) && SubmitsOnUnreleased(s, Go(t)) && !ClosesForeign(s, Go(t))
    ensures WakeOk(Apply(s, Go(t)), e, f)
  {
    var pc := PcOf(s, t);
    if pc.SubMark? {
      MarkKeepsPresent(s, t, e, f);
      MarkServes(s, t, e, f);
    } else if pc.SubEnable? {
      EnableKeepsPresent(s, Apply(s, Go(t)), t, e, f);
      if pc.e == e {
        EnableServesOwn(s, t, e, f);
      } else {
        EnableServesOther(s, t, e, f);
      }
    } else {
      var s' := Apply(s, Go(t));
      if pc.Destroying() {
        DestroyIsCalm(s, t, e);
      } else if pc.Collecting() {
        GcIsCalm(s, t, e);
      } else {
        LockIsCalm(s, t, e);
      }
      if pc.Dereg? {
        DeregKeepsPresent(s, t, e, f);
      } else if pc.Release? {
        ReleaseKeepsPresent(s, t, e, f);
      } else {
        CalmKeepsPresent(s, s', t, e, f);
      }
      CalmKeepsServed(s, s', t, e, f);
    }
  }

  lemma CalmCallKeepsWake(s: State, step: Step, e: Eid, f: Filter)
    requires WakeOk(s, e, f) && Enabled(s, step)
    requires step.DestroyCall? || step.SubmitCall? || step.GcCall? || step.Return?
    ensures WakeOk(Apply(s, step), e, f)
  {
    var t := if step.Return? then REACTOR else step.t;
    var s' := Apply(s, step);
    CallIsCalm(s, step, e);
    CalmKeepsPresent(s, s', t, e, f);
    CalmKeepsServed(s, s', t, e, f);
  }

  lemma CallKeepsWake(s: State, step: Step, e: Eid, f: Filter)
    requires Alive(s) && WakeOk(s, e, f)
    requires Enabled(s, step) && OwnsFilters(s, step) && !step.Go?
    ensures WakeOk(Apply(s, step), e, f)
  {
    if step.Create? {
      CreateKeepsPresent(s, step, Apply(s, step), e, f);
      CreateServes(s, step, e, f);
    } else if step.Poll? {
      PollServes(s, step.entries, e, f);
    } else if step.Dispatch? {
      DispatchServes(s, e, f);
    } else {
      CalmCallKeepsWake(s, step, e, f);
    }
  }

  /** One destroy per event, one owner per filter, no submit on a released event, and no release
      that closes a foreign descriptor. Callbacks may destroy what they like. */
  ghost predicate WakeRules(s: State, step: Step) {
    && DestroysOnce(s, step) && OwnsFilters(s, step) && SubmitsOnUnreleased(s, step)
    && !ClosesForeign(s, step)
  }

  ghost predicate WakeRulesKept(states: seq<State>, steps: seq<Step>) {
    |states| == |steps| + 1 && forall i {:trigger steps[i]} :: 0 <= i < |steps| ==> WakeRules(states[i], steps[i])
  }

  lemma {:induction false} ReachableWake(states: seq<State>, steps: seq<Step>, i: nat, e: Eid, f: Filter)
    requires IsRun(states, steps) && WakeRulesKept(states, steps) && i <= |steps|
    ensures Alive(states[i]) && Unshared(states[i]) && WakeOk(states[i], e, f)
  {
    if i > 0 {
      var s, step := states[i - 1], steps[i - 1];
      ReachableWake(states, steps, i - 1, e, f);
      StepKeepsAlive(s, step);
      UnsharedKept(s, step);
      if step.Go? {
        GoKeepsWake(s, step.t, e, f);
      } else {
        CallKeepsWake(s, step, e, f);
      }
    }
  }

  /** In every such interleaving, with submits at any time, a bit set in the mask of an event
      that is still registered has its filter enabled or its entry waiting in the batch, unless
      a thread is between setting bits and enabling filters for that event. */
  lemma NoLostWakeup(states: seq<State>, steps: seq<Step>, i: nat, e: Eid, f: Filter)
    requires IsRun(states, steps) && WakeRulesKept(states, steps) && i <= |steps|
    requires Armed(states[i], e, f)
    requires forall t :: PcOf(states[i], t) != SubEnable(e)
    ensures || (RegisteredFor(states[i], e, f) && states[i].knotes[(states[i].events[e].ident, f)].enabled)
            || Pending(states[i], e, f)
  {
    ReachableWake(states, steps, i, e, f);
  }

  /** A set bit is cleared only by consuming an entry of its own filter, so what was submitted
      stays submitted until its own callback. */
  lemma OnlyItsEntryClearsABit(s: State, step: Step, e: Eid, f: Filter)
    requires Enabled(s, step) && e in s.events && FlagOf(f) in s.events[e].evmask
    requires e in Apply(s, step).events && FlagOf(f) !in Apply(s, step).events[e].evmask
    ensures step.Dispatch? && s.batch[0].e == e && s.batch[0].f == f
  {
    if step.Go? {
      var pc := PcOf(s, step.t);
      if pc.Destroying() {
        DestroyIsCalm(s, step.t, e);
      } else if pc.Collecting() {
        GcIsCalm(s, step.t, e);
      } else if pc.SubLock? || pc.SubUnlock? {
        LockIsCalm(s, step.t, e);
      }
    } else if step.DestroyCall? || step.SubmitCall? || step.GcCall? || step.Return? {
      CallIsCalm(s, step, e);
    }
  }

  /** The extra rule is exact: a release keeps every registration if and only if it closes no
      foreign descriptor. */
  lemma ReleaseKeepsRegistrationsIff(s: State, t: Tid)
    requires Threads(s) && Present(s) && PcOf(s, t).Release? && Enabled(s, Go(t))
    ensures Present(Apply(s, Go(t))) <==> !ClosesForeign(s, Go(t))
  {
    var s' := Apply(s, Go(t));
    var ident := s.events[PcOf(s, t).e].ident;
    if ClosesForeign(s, Go(t)) {
      assert ThreadOk(s, t);
      var e :| SocketWithIdent(s, e, ident);
      assert !PresentFor(s', e, READ);
    } else {
      forall e, f
        ensures PresentFor(s', e, f)
      {
        assert PresentFor(s, e, f);
        ReleaseKeepsPresent(s, t, e, f);
      }
    }
  }

  lemma UnregisteredIsUnserved(s: State, s': State, t: Tid, e: Eid, f: Filter)
    requires Armed(s, e, f) && !Pending(s, e, f) && !InFlight(s, e)
    requires s'.batch == s.batch && e in s'.events && s'.events[e] == s.events[e]
    requires (s.events[e].ident, f) !in s'.knotes
    requires (forall u :: u != t ==> PcOf(s', u) == PcOf(s, u)) && !PcOf(s', t).SubEnable?
    ensures Armed(s', e, f) && !Served(s', e, f)
  {
    assert forall u :: PcOf(s', u) == SubEnable(e) ==> PcOf(s, u) == SubEnable(e);
    assert Pending(s', e, f) <==> Pending(s, e, f);
  }

  /** What a foreign close costs: a bit that was set, with its filter enabled, is lost. */
  lemma ForeignCloseLosesWakeup(s: State, t: Tid, e: Eid, f: Filter)
    requires Threads(s) && PcOf(s, t).Release? && Enabled(s, Go(t))
    requires SocketWithIdent(s, e, s.events[PcOf(s, t).e].ident) && Armed(s, e, f)
    requires !Pending(s, e, f) && !InFlight(s, e)
    ensures Armed(Apply(s, Go(t)), e, f) && !Served(Apply(s, Go(t)), e, f)
  {
    assert ThreadOk(s, t);
    UnregisteredIsUnserved(s, Apply(s, Go(t)), t, e, f);
  }

  /** A release leaves a bit unserved if and only if the event is a live socket with the number that
      it closes, the bit is set, its entry does not wait, and no submit is about to enable it. */
  lemma ReleaseKeepsWakeupIff(s: State, t: Tid, e: Eid, f: Filter)
    requires Threads(s) && WakeOk(s, e, f) && PcOf(s, t).Release? && Enabled(s, Go(t))
    ensures ServedIfArmed(Apply(s, Go(t)), e, f) <==>
              !(&& SocketWithIdent(s, e, s.events[PcOf(s, t).e].ident)
                && Armed(s, e, f) && !Pending(s, e, f) && !InFlight(s, e))
  {
    var s' := Apply(s, Go(t));
    assert ThreadOk(s, t);
    DestroyIsCalm(s, t, e);
    if Armed(s, e, f) {
      if InFlight(s, e) {
        var u :| PcOf(s, u) == SubEnable(e);
        assert PcOf(s', u) == SubEnable(e);
      } else if Pending(s, e, f) {
        assert Pending(s', e, f);
      } else if SocketWithIdent(s, e, s.events[PcOf(s, t).e].ident) {
        ForeignCloseLosesWakeup(s, t, e, f);
      }
    }
  }
}
