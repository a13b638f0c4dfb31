/** Building runs: the rules of the callers one by one, paths that keep all but some of them,
    and the calls of the library as sequences of steps of one thread. */
module ReactorPaths {
  import opened Matching
  import opened Reactor
  import opened ReactorWakeups

  /** What the theorems about runs ask of the callers. `GiveUpOnDestroy` is the stricter form of
      `SubmitUnreleased`, and `CloseOwn` is needed for wake-ups only. */
  datatype Rule = DestroyOnce | SparePending | OwnFilters | SubmitUnreleased | GiveUpOnDestroy | CloseOwn

  ghost predicate Keeps(rule: Rule, s: State, step: Step) {
    match rule
    case DestroyOnce => DestroysOnce(s, step)
    case SparePending => SparesPending(s, step)
    case OwnFilters => OwnsFilters(s, step)
    case SubmitUnreleased => SubmitsOnUnreleased(s, step)
    case GiveUpOnDestroy => GivesUpOnDestroy(s, step)
    case CloseOwn => !ClosesForeign(s, step)
  }

  ghost predicate KeepsAllBut(broken: set<Rule>, s: State, step: Step) {
    forall rule :: rule !in broken ==> Keeps(rule, s, step)
  }

  ghost predicate PathWithout(broken: set<Rule>, states: seq<State>, steps: seq<Step>) {
    && IsPath(states, steps)
    && forall i {:trigger steps[i]} :: 0 <= i < |steps| ==> KeepsAllBut(broken, states[i], steps[i])
  }

  /** The two rules that are no part of `RulesKept`. */
  const EXTRA := {GiveUpOnDestroy, CloseOwn}

  lemma KeepsRules(broken: set<Rule>, states: seq<State>, steps: seq<Step>)
    requires PathWithout(broken, states, steps) && broken <= EXTRA
    ensures RulesKept(states, steps)
  {
    forall i | 0 <= i < |steps|
      ensures Disciplined(states[i], steps[i]) && SubmitsOnUnreleased(states[i], steps[i])
    {
      var s, step := states[i], steps[i];
      assert KeepsAllBut(broken, s, step);
      assert Keeps(DestroyOnce, s, step) && Keeps(SparePending, s, step);
      assert Keeps(OwnFilters, s, step) && Keeps(SubmitUnreleased, s, step);
    }
  }

  /** A path that keeps every rule outside `broken` leads from `s` to `z`. */
  ghost predicate Leads(broken: set<Rule>, s: State, z: State) {
    exists states, steps :: PathWithout(broken, states, steps) && states[0] == s && states[|steps|] == z
  }

  lemma Stay(broken: set<Rule>, s: State)
    ensures Leads(broken, s, s)
  {
    var states, steps: seq<Step> := [s], [];
    assert PathWithout(broken, states, steps);
  }

  lemma Extends(broken: set<Rule>, states: seq<State>, steps: seq<Step>, step: Step, z: State)
    requires PathWithout(broken, states, steps)
    requires Enabled(states[|steps|], step) && KeepsAllBut(broken, states[|steps|], step)
    requires z == Apply(states[|steps|], step)
    ensures PathWithout(broken, states + [z], steps + [step])
  {
    var states', steps' := states + [z], steps + [step];
    forall i | 0 <= i < |steps'|
      ensures Enabled(states'[i], steps'[i]) && states'[i + 1] == Apply(states'[i], steps'[i])
      ensures KeepsAllBut(broken, states'[i], steps'[i])
    {
      if i < |steps| {
        assert states'[i] == states[i] && states'[i + 1] == states[i + 1] && steps'[i] == steps[i];
      } else {
        assert states'[i] == states[|steps|] && states'[i + 1] == z && steps'[i] == step;
      }
    }
  }

  lemma Then(broken: set<Rule>, s0: State, s: State, step: Step, z: State)
    requires Leads(broken, s0, s) && Enabled(s, step) && KeepsAllBut(broken, s, step) && z == Apply(s, step)
    ensures Leads(broken, s0, z)
  {
    var states, steps :| PathWithout(broken, states, steps) && states[0] == s0 && states[|steps|] == s;
    Extends(broken, states, steps, step, z);
    var states', steps' := states + [z], steps + [step];
    assert states'[0] == s0 && states'[|steps'|] == z;
  }

  // ----- one action of a thread, and what it leaves behind

  /** Inside its calls a thread breaks no rule, unless it submits a released event or closes a
      foreign descriptor. */
  lemma GoKeepsRules(broken: set<Rule>, s: State, t: Tid)
    requires Enabled(s, Go(t))
    requires PcOf(s, t).Submitting() ==> SubmitUnreleased in broken || SubmitsOnUnreleased(s, Go(t))
    requires PcOf(s, t).Release? ==> CloseOwn in broken || !ClosesForeign(s, Go(t))
    ensures KeepsAllBut(broken, s, Go(t))
  {
    forall rule | rule !in broken
      ensures Keeps(rule, s, Go(t))
    {
      match rule {
        case DestroyOnce =>
        case SparePending =>
        case OwnFilters =>
        case SubmitUnreleased =>
        case GiveUpOnDestroy =>
        case CloseOwn =>
      }
    }
  }

  /** Nothing but the thread's place and the state of one event has changed. */
  ghost predicate OneEvent(s: State, z: State, t: Tid, e: Eid) {
    && z.events.Keys == s.events.Keys && (forall e' :: e' in s.events && e' != e ==> z.events[e'] == s.events[e'])
    && (forall u :: u != t ==> PcOf(z, u) == PcOf(s, u))
    && z.batch == s.batch && z.inCallback == s.inCallback
  }

  lemma MarkStep(broken: set<Rule>, s0: State, s: State, t: Tid, e: Eid) returns (z: State)
    requires Leads(broken, s0, s) && PcOf(s, t) == Mark(e, false) && e in s.events
    ensures Leads(broken, s0, z) && OneEvent(s, z, t, e) && PcOf(z, t) == Dereg(e, false)
    ensures z.events[e] == s.events[e].(closing := true)
    ensures z.knotes == s.knotes && z.gc == s.gc && z.rmtx == s.rmtx
  {
    z := Apply(s, Go(t));
    GoKeepsRules(broken, s, t);
    Then(broken, s0, s, Go(t), z);
  }

  lemma DeregStep(broken: set<Rule>, s0: State, s: State, t: Tid, e: Eid) returns (z: State)
    requires Leads(broken, s0, s) && PcOf(s, t) == Dereg(e, false) && e in s.events
    ensures Leads(broken, s0, z) && OneEvent(s, z, t, e)
    ensures PcOf(z, t) == if t == REACTOR then Release(e, false) else Queue(e, false)
    ensures z.events[e] == s.events[e].(dereg := true)
    ensures z.knotes == s.knotes - Keys(s.events[e]) && z.gc == s.gc && z.rmtx == s.rmtx
  {
    z := Apply(s, Go(t));
    GoKeepsRules(broken, s, t);
    Then(broken, s0, s, Go(t), z);
  }

  lemma QueueStep(broken: set<Rule>, s0: State, s: State, t: Tid, e: Eid) returns (z: State)
    requires Leads(broken, s0, s) && PcOf(s, t) == Queue(e, false) && e in s.events && s.rmtx == None
    ensures Leads(broken, s0, z) && OneEvent(s, z, t, e) && PcOf(z, t) == Link(e, false)
    ensures z.events[e] == s.events[e] && z.knotes == s.knotes && z.gc == s.gc && z.rmtx == Some(t)
  {
    z := Apply(s, Go(t));
    GoKeepsRules(broken, s, t);
    Then(broken, s0, s, Go(t), z);
  }

  lemma LinkStep(broken: set<Rule>, s0: State, s: State, t: Tid, e: Eid) returns (z: State)
    requires Leads(broken, s0, s) && PcOf(s, t) == Link(e, false) && e in s.events
    ensures Leads(broken, s0, z) && OneEvent(s, z, t, e) && PcOf(z, t) == Unlock(e, false)
    ensures z.events[e] == s.events[e] && z.knotes == s.knotes && z.gc == s.gc + [e] && z.rmtx == s.rmtx
  {
    z := Apply(s, Go(t));
    GoKeepsRules(broken, s, t);
    Then(broken, s0, s, Go(t), z);
  }

  lemma UnlockStep(broken: set<Rule>, s0: State, s: State, t: Tid, e: Eid) returns (z: State)
    requires Leads(broken, s0, s) && PcOf(s, t) == Unlock(e, false) && e in s.events
    ensures Leads(broken, s0, z) && OneEvent(s, z, t, e) && PcOf(z, t) == Idle
    ensures z.events[e] == s.events[e].(destroyer := None)
    ensures z.knotes == s.knotes && z.gc == s.gc && z.rmtx == None
  {
    z := Apply(s, Go(t));
    GoKeepsRules(broken, s, t);
    Then(broken, s0, s, Go(t), z);
  }

  lemma ReleaseStep(broken: set<Rule>, s0: State, s: State, t: Tid, e: Eid, gc: bool) returns (z: State)
    requires Leads(broken, s0, s) && PcOf(s, t) == Release(e, gc) && e in s.events
    requires CloseOwn in broken || forall e' :: !SocketWithIdent(s, e', s.events[e].ident)
    ensures Leads(broken, s0, z) && OneEvent(s, z, t, e) && PcOf(z, t) == if gc then GcLoop else Idle
    ensures z.events[e] == s.events[e].(released := true, destroyer := None)
    ensures z.knotes == s.knotes - {(s.events[e].ident, READ), (s.events[e].ident, WRITE)}
    ensures z.gc == s.gc && z.rmtx == s.rmtx
  {
    z := Apply(s, Go(t));
    GoKeepsRules(broken, s, t);
    Then(broken, s0, s, Go(t), z);
  }

  lemma TakeStep(broken: set<Rule>, s0: State, s: State, e: Eid) returns (z: State)
    requires Leads(broken, s0, s) && PcOf(s, REACTOR) == GcLoop
    requires s.gc != [] && s.gc[0] == e && e in s.events && s.events[e].closing
    ensures Leads(broken, s0, z) && OneEvent(s, z, REACTOR, e) && PcOf(z, REACTOR) == Release(e, true)
    ensures z.events[e] == s.events[e].(destroyer := Some(REACTOR))
    ensures z.knotes == s.knotes && z.gc == s.gc[1..] && z.rmtx == s.rmtx
  {
    z := Apply(s, Go(REACTOR));
    GoKeepsRules(broken, s, REACTOR);
    Then(broken, s0, s, Go(REACTOR), z);
  }

  lemma GcEndStep(broken: set<Rule>, s0: State, s: State, e: Eid) returns (z: State)
    requires Leads(broken, s0, s) && PcOf(s, REACTOR) == GcLoop && s.gc == []
    ensures Leads(broken, s0, z) && OneEvent(s, z, REACTOR, e) && PcOf(z, REACTOR) == Idle
    ensures z.events == s.events && z.knotes == s.knotes && z.gc == [] && z.rmtx == None
  {
    z := Apply(s, Go(REACTOR));
    GoKeepsRules(broken, s, REACTOR);
    Then(broken, s0, s, Go(REACTOR), z);
  }

  lemma LockStep(broken: set<Rule>, s0: State, s: State, t: Tid, e: Eid, mask: set<Flag>) returns (z: State)
    requires Leads(broken, s0, s) && PcOf(s, t) == SubLock(e, mask)
    requires e in s.events && s.events[e].mtx == None && (SubmitUnreleased in broken || !s.events[e].released)
    ensures Leads(broken, s0, z) && OneEvent(s, z, t, e) && PcOf(z, t) == SubMark(e, mask)
    ensures z.events[e] == s.events[e].(mtx := Some(t))
    ensures z.knotes == s.knotes && z.gc == s.gc && z.rmtx == s.rmtx
  {
    z := Apply(s, Go(t));
    GoKeepsRules(broken, s, t);
    Then(broken, s0, s, Go(t), z);
  }

  /** The filters that a submit with this mask names. */
  function NamedBy(kind: Kind, mask: set<Flag>): set<Filter> {
    set f | f in Filters(kind) && FlagOf(f) in mask
  }

  lemma BitsStep(broken: set<Rule>, s0: State, s: State, t: Tid, e: Eid, mask: set<Flag>) returns (z: State)
    requires Leads(broken, s0, s) && PcOf(s, t) == SubMark(e, mask)
    requires e in s.events && (SubmitUnreleased in broken || !s.events[e].released)
    ensures Leads(broken, s0, z) && OneEvent(s, z, t, e) && PcOf(z, t) == SubEnable(e)
    ensures z.events[e] == s.events[e].(evmask := s.events[e].evmask + mask,
                                        submits := s.events[e].submits + multiset(NamedBy(s.events[e].kind, mask)))
    ensures z.knotes == s.knotes && z.gc == s.gc && z.rmtx == s.rmtx
  {
    z := Apply(s, Go(t));
    GoKeepsRules(broken, s, t);
    Then(broken, s0, s, Go(t), z);
  }

  lemma EnableStep(broken: set<Rule>, s0: State, s: State, t: Tid, e: Eid) returns (z: State)
    requires Leads(broken, s0, s) && PcOf(s, t) == SubEnable(e)
    requires e in s.events && (SubmitUnreleased in broken || !s.events[e].released)
    ensures Leads(broken, s0, z) && OneEvent(s, z, t, e) && PcOf(z, t) == SubUnlock(e)
    ensures z.events[e] == s.events[e].(overlaps := z.events[e].overlaps)
    ensures z.knotes == Enable(s, e) && z.gc == s.gc && z.rmtx == s.rmtx
    ensures z == Apply(s, Go(t))
  {
    z := Apply(s, Go(t));
    GoKeepsRules(broken, s, t);
    Then(broken, s0, s, Go(t), z);
  }

  lemma EndStep(broken: set<Rule>, s0: State, s: State, t: Tid, e: Eid) returns (z: State)
    requires Leads(broken, s0, s) && PcOf(s, t) == SubUnlock(e)
    requires e in s.events && (SubmitUnreleased in broken || !s.events[e].released)
    ensures Leads(broken, s0, z) && OneEvent(s, z, t, e) && PcOf(z, t) == Idle
    ensures z.events[e] == s.events[e].(mtx := None)
    ensures z.knotes == s.knotes && z.gc == s.gc && z.rmtx == s.rmtx
  {
    z := Apply(s, Go(t));
    GoKeepsRules(broken, s, t);
    Then(broken, s0, s, Go(t), z);
  }

  // ----- calls, and what the reactor thread does between them

  lemma CreateStep(broken: set<Rule>, s0: State, s: State, t: Tid, e: Eid, ident: int, kind: Kind) returns (z: State)
    requires Leads(broken, s0, s) && RunsUserCode(s, t) && e !in s.events
    requires OwnFilters in broken || OwnsFilters(s, Create(t, e, ident, kind))
    ensures Leads(broken, s0, z)
    ensures z == s.(events := s.events[e := NewEvent(ident, kind)], knotes := z.knotes)
    ensures z.knotes == s.knotes + NewKnotes(ident, kind, e)
    ensures forall u :: PcOf(z, u) == PcOf(s, u)
  {
    var step := Create(t, e, ident, kind);
    z := Apply(s, step);
    assert KeepsAllBut(broken, s, step);
    Then(broken, s0, s, step, z);
  }

  lemma DestroyCallStep(broken: set<Rule>, s0: State, s: State, t: Tid, e: Eid) returns (z: State)
    requires Leads(broken, s0, s) && RunsUserCode(s, t) && e in s.events && !s.events[e].closing
    requires DestroyOnce in broken || !s.events[e].destroyed
    requires SparePending in broken || t != REACTOR
    requires GiveUpOnDestroy in broken || forall u :: !PcOf(s, u).Submitting()
    ensures Leads(broken, s0, z) && OneEvent(s, z, t, e) && PcOf(z, t) == Mark(e, false)
    ensures z.events[e] == s.events[e].(destroyed := true, destroyer := Some(t))
    ensures z.knotes == s.knotes && z.gc == s.gc && z.rmtx == s.rmtx
  {
    z := Apply(s, DestroyCall(t, e));
    assert KeepsAllBut(broken, s, DestroyCall(t, e));
    Then(broken, s0, s, DestroyCall(t, e), z);
  }

  /** A callback destroys an event that another thread has already marked. */
  lemma DestroyAgainStep(broken: set<Rule>, s0: State, s: State, e: Eid) returns (z: State)
    requires Leads(broken, s0, s) && RunsUserCode(s, REACTOR) && e in s.events && s.events[e].closing
    requires DestroyOnce in broken && NoEntry(s, e) && forall u :: !PcOf(s, u).Submitting()
    ensures Leads(broken, s0, z) && OneEvent(s, z, REACTOR, e) && PcOf(z, REACTOR) == Release(e, false)
    ensures z.events[e] == s.events[e].(destroyed := true, destroyer := Some(REACTOR))
    ensures z.knotes == s.knotes && z.gc == s.gc && z.rmtx == s.rmtx
  {
    z := Apply(s, DestroyCall(REACTOR, e));
    assert KeepsAllBut(broken, s, DestroyCall(REACTOR, e));
    Then(broken, s0, s, DestroyCall(REACTOR, e), z);
  }

  lemma SubmitCallStep(broken: set<Rule>, s0: State, s: State, t: Tid, e: Eid, mask: set<Flag>) returns (z: State)
    requires Leads(broken, s0, s) && RunsUserCode(s, t)
    requires e in s.events && !s.events[e].closing && !s.events[e].destroyed && !s.events[e].released
    ensures Leads(broken, s0, z) && OneEvent(s, z, t, e) && PcOf(z, t) == SubLock(e, mask)
    ensures z.events[e] == s.events[e] && z.knotes == s.knotes && z.gc == s.gc && z.rmtx == s.rmtx
  {
    z := Apply(s, SubmitCall(t, e, mask));
    assert KeepsAllBut(broken, s, SubmitCall(t, e, mask));
    Then(broken, s0, s, SubmitCall(t, e, mask), z);
  }

  lemma GcCallStep(broken: set<Rule>, s0: State, s: State, e: Eid) returns (z: State)
    requires Leads(broken, s0, s) && BetweenBatches(s) && s.rmtx == None
    ensures Leads(broken, s0, z) && OneEvent(s, z, REACTOR, e) && PcOf(z, REACTOR) == GcLoop
    ensures z.events == s.events && z.knotes == s.knotes && z.gc == s.gc && z.rmtx == Some(REACTOR)
  {
    var s1 := Apply(s, GcCall(REACTOR));
    assert KeepsAllBut(broken, s, GcCall(REACTOR));
    Then(broken, s0, s, GcCall(REACTOR), s1);
    z := Apply(s1, Go(REACTOR));
    GoKeepsRules(broken, s1, REACTOR);
    Then(broken, s0, s1, Go(REACTOR), z);
  }

  lemma PollStep(broken: set<Rule>, s0: State, s: State, entries: seq<Entry>) returns (z: State)
    requires Leads(broken, s0, s) && Enabled(s, Poll(entries))
    ensures Leads(broken, s0, z) && z == s.(batch := entries, knotes := z.knotes)
    ensures z.knotes == map k | k in s.knotes :: Delivered(s.knotes[k], k, entries)
  {
    z := Apply(s, Poll(entries));
    assert KeepsAllBut(broken, s, Poll(entries));
    Then(broken, s0, s, Poll(entries), z);
  }

  lemma DispatchStep(broken: set<Rule>, s0: State, s: State) returns (z: State)
    requires Leads(broken, s0, s) && Enabled(s, Dispatch)
    ensures Leads(broken, s0, z)
    ensures z == s.(events := z.events, batch := s.batch[1..], inCallback := true)
    ensures var x := s.batch[0]; z.events == s.events[x.e := AfterEntry(s.events[x.e], x)]
  {
    z := Apply(s, Dispatch);
    assert KeepsAllBut(broken, s, Dispatch);
    Then(broken, s0, s, Dispatch, z);
  }

  lemma ReturnStep(broken: set<Rule>, s0: State, s: State) returns (z: State)
    requires Leads(broken, s0, s) && s.inCallback && PcOf(s, REACTOR) == Idle
    ensures Leads(broken, s0, z) && z == s.(inCallback := false)
  {
    z := Apply(s, Return);
    assert KeepsAllBut(broken, s, Return);
    Then(broken, s0, s, Return, z);
  }

  // ----- whole calls

  /** submit, up to the point where the bits are set and the filters are not yet enabled */
  lemma SubmitBits(broken: set<Rule>, s0: State, s: State, t: Tid, e: Eid, mask: set<Flag>) returns (z: State)
    requires Leads(broken, s0, s) && RunsUserCode(s, t)
    requires e in s.events && !s.events[e].closing && !s.events[e].destroyed && !s.events[e].released
    requires s.events[e].mtx == None
    ensures Leads(broken, s0, z) && OneEvent(s, z, t, e) && PcOf(z, t) == SubEnable(e)
    ensures z.events[e] == s.events[e].(mtx := Some(t), evmask := s.events[e].evmask + mask,
                                        submits := s.events[e].submits + multiset(NamedBy(s.events[e].kind, mask)))
    ensures z.knotes == s.knotes && z.gc == s.gc && z.rmtx == s.rmtx
  {
    var s1 := SubmitCallStep(broken, s0, s, t, e, mask);
    var s2 := LockStep(broken, s0, s1, t, e, mask);
    z := BitsStep(broken, s0, s2, t, e, mask);
  }

  /** the rest of submit */
  lemma SubmitRest(broken: set<Rule>, s0: State, s: State, t: Tid, e: Eid) returns (z: State)
    requires Leads(broken, s0, s) && PcOf(s, t) == SubEnable(e)
    requires e in s.events && (SubmitUnreleased in broken || !s.events[e].released)
    ensures Leads(broken, s0, z) && OneEvent(s, z, t, e) && PcOf(z, t) == Idle
    ensures z.events[e] == s.events[e].(overlaps := z.events[e].overlaps, mtx := None)
    ensures z.knotes == Enable(s, e) && z.gc == s.gc && z.rmtx == s.rmtx
  {
    var s1 := EnableStep(broken, s0, s, t, e);
    z := EndStep(broken, s0, s1, t, e);
  }

  /** destroy, from the mark on to the point where the event is deregistered */
  lemma MarkAndDereg(broken: set<Rule>, s0: State, s: State, t: Tid, e: Eid) returns (z: State)
    requires Leads(broken, s0, s) && PcOf(s, t) == Mark(e, false) && e in s.events
    ensures Leads(broken, s0, z) && OneEvent(s, z, t, e)
    ensures PcOf(z, t) == if t == REACTOR then Release(e, false) else Queue(e, false)
    ensures z.events[e] == s.events[e].(closing := true, dereg := true)
    ensures z.knotes == s.knotes - Keys(s.events[e]) && z.gc == s.gc && z.rmtx == s.rmtx
  {
    var s1 := MarkStep(broken, s0, s, t, e);
    z := DeregStep(broken, s0, s1, t, e);
  }

  /** add_to_gc_list, which ends destroy on a user thread */
  lemma QueueUp(broken: set<Rule>, s0: State, s: State, t: Tid, e: Eid) returns (z: State)
    requires Leads(broken, s0, s) && PcOf(s, t) == Queue(e, false) && e in s.events && s.rmtx == None
    ensures Leads(broken, s0, z) && OneEvent(s, z, t, e) && PcOf(z, t) == Idle
    ensures z.events[e] == s.events[e].(destroyer := None)
    ensures z.knotes == s.knotes && z.gc == s.gc + [e] && z.rmtx == None
  {
    var s1 := QueueStep(broken, s0, s, t, e);
    var s2 := LinkStep(broken, s0, s1, t, e);
    z := UnlockStep(broken, s0, s2, t, e);
  }

  /** A whole submit, or what is left of one, has set the bits and enabled their filters. */
  ghost predicate Submitted(s: State, z: State, e: Eid, mask: set<Flag>)
    requires e in s.events && e in z.events
  {
    && z.events[e] == s.events[e].(evmask := s.events[e].evmask + mask, submits := z.events[e].submits,
                                   overlaps := z.events[e].overlaps)
    && z.knotes.Keys == s.knotes.Keys && z.gc == s.gc && z.rmtx == s.rmtx
    && (forall k :: k in s.knotes && k in Keys(s.events[e]) && FlagOf(k.1) in mask ==> z.knotes[k] == Knote(e, true))
    && (forall k :: k in s.knotes && k !in Keys(s.events[e]) ==> z.knotes[k] == s.knotes[k])
  }

  lemma EnabledIsSubmitted(s: State, s': State, z: State, e: Eid, mask: set<Flag>)
    requires e in s.events && e in s'.events && e in z.events && s'.knotes == s.knotes
    requires s'.events[e] == s.events[e].(evmask := s.events[e].evmask + mask, submits := s'.events[e].submits,
                                          mtx := s'.events[e].mtx)
    requires z.events[e] == s'.events[e].(overlaps := z.events[e].overlaps, mtx := s.events[e].mtx)
    requires z.knotes == Enable(s', e) && z.gc == s.gc && z.rmtx == s.rmtx
    ensures Submitted(s, z, e, mask)
  {
  }

  lemma SubmitFromLock(broken: set<Rule>, s0: State, s: State, t: Tid, e: Eid, mask: set<Flag>) returns (z: State)
    requires Leads(broken, s0, s) && PcOf(s, t) == SubLock(e, mask)
    requires e in s.events && s.events[e].mtx == None && (SubmitUnreleased in broken || !s.events[e].released)
    ensures Leads(broken, s0, z) && OneEvent(s, z, t, e) && PcOf(z, t) == Idle && Submitted(s, z, e, mask)
  {
    var s1 := LockStep(broken, s0, s, t, e, mask);
    var s2 := BitsStep(broken, s0, s1, t, e, mask);
    z := SubmitRest(broken, s0, s2, t, e);
    EnabledIsSubmitted(s, s2, z, e, mask);
  }

  lemma SubmitAll(broken: set<Rule>, s0: State, s: State, t: Tid, e: Eid, mask: set<Flag>) returns (z: State)
    requires Leads(broken, s0, s) && RunsUserCode(s, t)
    requires e in s.events && !s.events[e].closing && !s.events[e].destroyed && !s.events[e].released
    requires s.events[e].mtx == None
    ensures Leads(broken, s0, z) && OneEvent(s, z, t, e) && PcOf(z, t) == Idle && Submitted(s, z, e, mask)
  {
    var s1 := SubmitCallStep(broken, s0, s, t, e, mask);
    z := SubmitFromLock(broken, s0, s1, t, e, mask);
  }

  /** a gc pass of the reactor thread, up to the point where it is about to release the first event */
  lemma TakeFirst(broken: set<Rule>, s0: State, s: State, e: Eid) returns (z: State)
    requires Leads(broken, s0, s) && BetweenBatches(s) && s.rmtx == None
    requires s.gc != [] && s.gc[0] == e && e in s.events && s.events[e].closing
    ensures Leads(broken, s0, z) && OneEvent(s, z, REACTOR, e) && PcOf(z, REACTOR) == Release(e, true)
    ensures z.events[e] == s.events[e].(destroyer := Some(REACTOR))
    ensures z.knotes == s.knotes && z.gc == s.gc[1..] && z.rmtx == Some(REACTOR)
  {
    var s1 := GcCallStep(broken, s0, s, e);
    z := TakeStep(broken, s0, s1, e);
  }

  /** a gc pass of the reactor thread over one event */
  lemma Collect(broken: set<Rule>, s0: State, s: State, e: Eid) returns (z: State)
    requires Leads(broken, s0, s) && BetweenBatches(s) && s.rmtx == None && s.gc == [e]
    requires e in s.events && s.events[e].closing
    requires CloseOwn in broken || forall e' :: !SocketWithIdent(s, e', s.events[e].ident)
    ensures Leads(broken, s0, z) && OneEvent(s, z, REACTOR, e) && BetweenBatches(z) && z.gc == [] && z.rmtx == None
    ensures z.events[e] == s.events[e].(released := true, destroyer := None)
    ensures z.knotes == s.knotes - {(s.events[e].ident, READ), (s.events[e].ident, WRITE)}
  {
    var s1 := TakeFirst(broken, s0, s, e);
    assert forall e', ident :: SocketWithIdent(s1, e', ident) ==> SocketWithIdent(s, e', ident);
    var s2 := ReleaseStep(broken, s0, s1, REACTOR, e, true);
    z := GcEndStep(broken, s0, s2, e);
  }

  /** the rest of destroy on a user thread, and the gc pass that releases the event */
  lemma QueueAndCollect(broken: set<Rule>, s0: State, s: State, t: Tid, e: Eid) returns (z: State)
    requires Leads(broken, s0, s) && BetweenBatches(s) && s.rmtx == None && s.gc == []
    requires PcOf(s, t) == Queue(e, false) && e in s.events && s.events[e].closing
    requires CloseOwn in broken || forall e' :: !SocketWithIdent(s, e', s.events[e].ident)
    ensures Leads(broken, s0, z) && OneEvent(s, z, t, e) && PcOf(z, t) == Idle && BetweenBatches(z)
    ensures z.events[e] == s.events[e].(released := true, destroyer := None)
    ensures z.knotes == s.knotes - {(s.events[e].ident, READ), (s.events[e].ident, WRITE)}
  {
    var s1 := QueueUp(broken, s0, s, t, e);
    assert forall e', ident :: SocketWithIdent(s1, e', ident) ==> SocketWithIdent(s, e', ident);
    z := Collect(broken, s0, s1, e);
  }

  /** The runs of the counterexamples start by creating event 0 with number 5. */
  lemma Created(broken: set<Rule>, kind: Kind) returns (s: State)
    ensures Leads(broken, INIT, s) && s.events == map[0 := NewEvent(5, kind)]
    ensures forall f :: f in Filters(kind) ==> (5, f) in s.knotes
    ensures BetweenBatches(s) && s.gc == [] && s.rmtx == None && forall u :: PcOf(s, u) == Idle
  {
    Stay(broken, INIT);
    s := CreateStep(broken, INIT, INIT, 1, 0, 5, kind);
  }
}
