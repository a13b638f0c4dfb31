/** The calls of src/event.c, src/reactor.c and src/mac/reactor_kq.c one by one: what each leaves
    behind when no other thread comes in between, and what a closed event is spared when others do. */
module ReactorCalls {
  import opened Matching
  import opened Reactor
  import opened ReactorFrames
  import opened KqueueChanges

  /** Thread `t` goes on alone from `s` until its call is over, in `z`, after at most `n` actions. */
  ghost predicate Finishes(s: State, t: Tid, n: nat, z: State)
    decreases n
  {
    if PcOf(s, t) == Idle then z == s
    else n > 0 && Enabled(s, Go(t)) && Finishes(Apply(s, Go(t)), t, n - 1, z)
  }

  /** One call from beginning to end, with no step of anyone else in between. */
  ghost predicate Alone(s: State, t: Tid, call: Step, n: nat, z: State) {
    Enabled(s, call) && Finishes(Apply(s, call), t, n, z)
  }

  /** Nothing but event `e`, the filters, the queue and the log of releases has changed. */
  ghost predicate Touches(s: State, z: State, e: Eid) {
    && z.events.Keys == s.events.Keys && (forall e' :: e' in s.events && e' != e ==> z.events[e'] == s.events[e'])
    && z.batch == s.batch && z.inCallback == s.inCallback && z.rmtx == s.rmtx
    && forall u :: PcOf(z, u) == PcOf(s, u)
  }

  // ----- posixc_event_submit

  /** A submit with this mask counts for the filters of the event that it names. */
  ghost predicate Counts(ev: Event, ev': Event, mask: set<Flag>) {
    forall f :: ev'.submits[f] == ev.submits[f] + (if SubmitsFilter(ev.kind, mask, f) then 1 else 0)
  }

  lemma LockAction(s: State, t: Tid, e: Eid, mask: set<Flag>, n: nat, z: State) returns (s': State)
    requires PcOf(s, t) == SubLock(e, mask) && Finishes(s, t, n, z)
    ensures n > 0 && Finishes(s', t, n - 1, z) && e in s.events && s.events[e].mtx == None
    ensures s' == At(Set(s, e, s.events[e].(mtx := Some(t))), t, SubMark(e, mask))
  {
    s' := Apply(s, Go(t));
  }

  lemma NamedOnce(kind: Kind, mask: set<Flag>, f: Filter)
    ensures multiset(set g | g in Filters(kind) && FlagOf(g) in mask)[f] == if SubmitsFilter(kind, mask, f) then 1 else 0
  {
  }

  lemma MarkAction(s: State, t: Tid, e: Eid, mask: set<Flag>, n: nat, z: State) returns (s': State)
    requires PcOf(s, t) == SubMark(e, mask) && Finishes(s, t, n, z)
    ensures n > 0 && Finishes(s', t, n - 1, z) && e in s.events && e in s'.events
    ensures Counts(s.events[e], s'.events[e], mask)
    ensures s' == At(Set(s, e, s.events[e].(evmask := s.events[e].evmask + mask, submits := s'.events[e].submits)),
                     t, SubEnable(e))
  {
    s' := Apply(s, Go(t));
    forall f
      ensures s'.events[e].submits[f]
              == s.events[e].submits[f] + (if SubmitsFilter(s.events[e].kind, mask, f) then 1 else 0)
    {
      NamedOnce(s.events[e].kind, mask, f);
    }
  }

  lemma EnableAction(s: State, t: Tid, e: Eid, n: nat, z: State) returns (s': State)
    requires PcOf(s, t) == SubEnable(e) && Finishes(s, t, n, z)
    ensures n > 0 && Finishes(s', t, n - 1, z) && e in s.events && e in s'.events
    ensures s' == At(Set(s, e, s.events[e].(overlaps := s'.events[e].overlaps)), t, SubUnlock(e))
                  .(knotes := Enable(s, e))
  {
    s' := Apply(s, Go(t));
  }

  lemma UnlockAction(s: State, t: Tid, e: Eid, n: nat, z: State)
    requires PcOf(s, t) == SubUnlock(e) && Finishes(s, t, n, z)
    ensures e in s.events && z == At(Set(s, e, s.events[e].(mtx := None)), t, Idle)
  {
    assert z == Apply(s, Go(t));
  }

  lemma EnableLiteral(s: State, e: Eid, k: Key)
    requires e in s.events && k in s.knotes
    ensures var ev := s.events[e];
            Enable(s, e)[k]
            == if k.0 == ev.ident && SubmitsFilter(ev.kind, ev.evmask, k.1) then Knote(e, true) else s.knotes[k]
  {
  }

  /** What a submit of an open event leaves behind: the bits are added, and every registered filter
      of the event whose bit is set then, whether by this submit or before, is enabled for it. */
  ghost predicate SubmitDone(s: State, z: State, e: Eid, mask: set<Flag>)
    requires e in s.events && e in z.events
  {
    var ev, ev' := s.events[e], z.events[e];
    && ev' == ev.(evmask := ev.evmask + mask, submits := ev'.submits, overlaps := ev'.overlaps, mtx := None)
    && Counts(ev, ev', mask)
    && z.knotes.Keys == s.knotes.Keys && z.gc == s.gc && z.freed == s.freed
    && forall k :: k in s.knotes ==>
         z.knotes[k]
         == if k.0 == ev.ident && SubmitsFilter(ev.kind, ev'.evmask, k.1) then Knote(e, true) else s.knotes[k]
  }

  /** The rest of a submit changes its event, the filters and the thread's place, and nothing else. */
  ghost predicate Leaves(s: State, z: State, t: Tid, e: Eid) {
    && e in z.events && z.events == s.events[e := z.events[e]]
    && z == s.(events := z.events, knotes := z.knotes, pcs := z.pcs)
    && forall u :: PcOf(z, u) == if u == t then Idle else PcOf(s, u)
  }

  lemma EnabledLeaves(s: State, s': State, z: State, t: Tid, e: Eid)
    requires e in s.events && e in s'.events
    requires s' == At(Set(s, e, s.events[e].(overlaps := s'.events[e].overlaps)), t, SubUnlock(e))
                   .(knotes := Enable(s, e))
    requires z == At(Set(s', e, s'.events[e].(mtx := None)), t, Idle)
    ensures Leaves(s, z, t, e) && z.knotes == Enable(s, e)
    ensures z.events[e] == s.events[e].(overlaps := z.events[e].overlaps, mtx := None)
  {
  }

  lemma FromEnable(s: State, t: Tid, e: Eid, n: nat, z: State)
    requires PcOf(s, t) == SubEnable(e) && e in s.events && Finishes(s, t, n, z)
    ensures Leaves(s, z, t, e) && z.knotes == Enable(s, e)
    ensures z.events[e] == s.events[e].(overlaps := z.events[e].overlaps, mtx := None)
  {
    var s' := EnableAction(s, t, e, n, z);
    UnlockAction(s', t, e, n - 1, z);
    EnabledLeaves(s, s', z, t, e);
  }

  lemma EnabledIsDone(s: State, s': State, z: State, t: Tid, e: Eid, mask: set<Flag>)
    requires e in s.events && e in s'.events && Counts(s.events[e], s'.events[e], mask)
    requires s' == At(Set(s, e, s.events[e].(evmask := s.events[e].evmask + mask, submits := s'.events[e].submits)),
                      t, SubEnable(e))
    requires Leaves(s', z, t, e) && z.knotes == Enable(s', e)
    requires z.events[e] == s'.events[e].(overlaps := z.events[e].overlaps, mtx := None)
    ensures Leaves(s, z, t, e) && SubmitDone(s, z, e, mask)
  {
    forall k | k in s.knotes
      ensures z.knotes[k] == if k.0 == s'.events[e].ident && SubmitsFilter(s'.events[e].kind, s'.events[e].evmask, k.1)
                             then Knote(e, true) else s.knotes[k]
    {
      EnableLiteral(s', e, k);
    }
  }

  lemma FromMark(s: State, t: Tid, e: Eid, mask: set<Flag>, n: nat, z: State)
    requires PcOf(s, t) == SubMark(e, mask) && e in s.events && Finishes(s, t, n, z)
    ensures Leaves(s, z, t, e) && SubmitDone(s, z, e, mask)
  {
    var s' := MarkAction(s, t, e, mask, n, z);
    FromEnable(s', t, e, n - 1, z);
    EnabledIsDone(s, s', z, t, e, mask);
  }

  lemma LockedIsDone(s: State, s': State, z: State, t: Tid, e: Eid, mask: set<Flag>)
    requires e in s.events && s' == At(Set(s, e, s.events[e].(mtx := Some(t))), t, SubMark(e, mask))
    requires Leaves(s', z, t, e) && SubmitDone(s', z, e, mask)
    ensures Leaves(s, z, t, e) && SubmitDone(s, z, e, mask)
  {
  }

  lemma FromLock(s: State, t: Tid, e: Eid, mask: set<Flag>, n: nat, z: State)
    requires PcOf(s, t) == SubLock(e, mask) && Finishes(s, t, n, z)
    ensures e in s.events && s.events[e].mtx == None && Leaves(s, z, t, e) && SubmitDone(s, z, e, mask)
  {
    var s' := LockAction(s, t, e, mask, n, z);
    FromMark(s', t, e, mask, n - 1, z);
    LockedIsDone(s, s', z, t, e, mask);
  }

  lemma SubmitStarts(s: State, t: Tid, e: Eid, mask: set<Flag>, n: nat, z: State) returns (s': State)
    requires Alone(s, t, SubmitCall(t, e, mask), n, z)
    ensures e in s.events && PcOf(s, t) == Idle && Finishes(s', t, n, z)
    ensures if s.events[e].closing then z == s else s' == At(s, t, SubLock(e, mask))
  {
    s' := Apply(s, SubmitCall(t, e, mask));
  }

  lemma StartedIsDone(s: State, s': State, z: State, t: Tid, e: Eid, mask: set<Flag>)
    requires s' == At(s, t, SubLock(e, mask)) && PcOf(s, t) == Idle
    requires e in s'.events && Leaves(s', z, t, e) && SubmitDone(s', z, e, mask)
    ensures Touches(s, z, e) && SubmitDone(s, z, e, mask)
  {
  }

  /** A submit does nothing to a closed event; otherwise it does what `SubmitDone` says and no more. */
  lemma SubmitAlone(s: State, t: Tid, e: Eid, mask: set<Flag>, n: nat, z: State)
    requires Alone(s, t, SubmitCall(t, e, mask), n, z)
    ensures e in s.events && e in z.events
    ensures if s.events[e].closing then z == s else Touches(s, z, e) && SubmitDone(s, z, e, mask)
  {
    var s' := SubmitStarts(s, t, e, mask, n, z);
    if !s.events[e].closing {
      FromLock(s', t, e, mask, n, z);
      StartedIsDone(s, s', z, t, e, mask);
    }
  }

  /** No thread is inside a submit of the event. */
  ghost predicate NoneSubmits(s: State, e: Eid) {
    forall t :: PcOf(s, t).Submitting() ==> PcOf(s, t).e != e
  }

  lemma CallSubmitsOpen(s: State, step: Step, e: Eid)
    requires Enabled(s, step) && !step.Go? && e in s.events && s.events[e].closing && NoneSubmits(s, e)
    ensures NoneSubmits(Apply(s, step), e)
  {
    var s' := Apply(s, step);
    forall t | PcOf(s', t).Submitting()
      ensures PcOf(s', t).e != e
    {
      if PcOf(s', t) == PcOf(s, t) {
        assert PcOf(s, t).e != e;
      } else {
        assert step.SubmitCall? && step.t == t && PcOf(s', t).e == step.e && !s.events[step.e].closing;
      }
    }
  }

  lemma ClosedStaysClosed(s: State, step: Step, e: Eid)
    requires Enabled(s, step) && e in s.events && s.events[e].closing && NoneSubmits(s, e)
    ensures var s' := Apply(s, step);
            && e in s'.events && s'.events[e].closing && NoneSubmits(s', e)
            && s'.events[e].submits == s.events[e].submits && s'.events[e].evmask <= s.events[e].evmask
  {
    var s' := Apply(s, step);
    if step.Go? {
      GoEvent(s, step.t, e);
      forall t | PcOf(s', t).Submitting()
        ensures PcOf(s', t).e != e
      {
        GoMoves(s, step.t, t);
      }
    } else {
      CallEvent(s, step, e);
      CallSubmitsOpen(s, step, e);
      if step.Dispatch? {
        assert s'.events[e].evmask <= s.events[e].evmask;
      }
    }
  }

  /** Once an event is marked closed and no submit is under way, no later submit touches it, on
      any path whatever its callers do: no thread gets inside one, none counts, no bit is added. */
  lemma {:induction false} ClosedTakesNoSubmit(states: seq<State>, steps: seq<Step>, i: nat, e: Eid)
    requires IsPath(states, steps) && i <= |steps|
    requires e in states[0].events && states[0].events[e].closing && NoneSubmits(states[0], e)
    ensures e in states[i].events && states[i].events[e].closing && NoneSubmits(states[i], e)
    ensures states[i].events[e].submits == states[0].events[e].submits
    ensures states[i].events[e].evmask <= states[0].events[e].evmask
  {
    if i > 0 {
      ClosedTakesNoSubmit(states, steps, i - 1, e);
      ClosedStaysClosed(states[i - 1], steps[i - 1], e);
    }
  }

  // ----- posixc_event_destroy

  /** The event's own fields, as far as the program has them. */
  predicate SameFields(ev: Event, ev': Event) {
    ev'.ident == ev.ident && ev'.kind == ev.kind && ev'.evmask == ev.evmask && ev'.mtx == ev.mtx
    && ev'.submits == ev.submits && ev'.calls == ev.calls && ev'.overlaps == ev.overlaps
  }

  /** What a destroy leaves behind: the event is closed. If it was open, its filters are gone and a
      user thread has queued it last. The reactor's thread has released it and closed its number. */
  ghost predicate DestroyDone(s: State, z: State, t: Tid, e: Eid)
    requires e in s.events && e in z.events
  {
    var ev, ev' := s.events[e], z.events[e];
    && SameFields(ev, ev') && ev'.closing && (ev'.released <==> ev.released || t == REACTOR)
    && z.gc == s.gc + (if ev.closing || t == REACTOR then [] else [e])
    && z.freed == s.freed + (if t == REACTOR then [e] else [])
    && (forall k :: k in z.knotes <==>
          && k in s.knotes
          && !(k.0 == ev.ident && !ev.closing && FilterOf(ev.kind, k.1))
          && !(k.0 == ev.ident && t == REACTOR && (k.1 == READ || k.1 == WRITE)))
    && forall k :: k in z.knotes ==> z.knotes[k] == s.knotes[k]
  }

  lemma KeysLiteral(ev: Event, k: Key)
    ensures k in Keys(ev) <==> k.0 == ev.ident && FilterOf(ev.kind, k.1)
  {
  }

  /** The step has touched event `e` only, and of the threads only `t`. */
  ghost predicate OneStep(s: State, z: State, t: Tid, e: Eid) {
    && z.events.Keys == s.events.Keys && (forall e' :: e' in s.events && e' != e ==> z.events[e'] == s.events[e'])
    && z.batch == s.batch && z.inCallback == s.inCallback
    && (forall u :: u != t ==> PcOf(z, u) == PcOf(s, u))
    && e in s.events && e in z.events && SameFields(s.events[e], z.events[e])
  }

  /** It has left the event closed or not and released or not, taken some filters away, queued some
      events and released some. */
  datatype Deed = Deed(closing: bool, released: bool, gone: set<Key>, queued: seq<Eid>, freed: seq<Eid>)

  ghost predicate Does(s: State, z: State, t: Tid, e: Eid, d: Deed) {
    && OneStep(s, z, t, e) && z.events[e].closing == d.closing && z.events[e].released == d.released
    && z.knotes == s.knotes - d.gone && z.gc == s.gc + d.queued && z.freed == s.freed + d.freed
  }

  /** A deed after a step that takes no filter away, or these. */
  lemma DoesAfter(s: State, s': State, z: State, t: Tid, e: Eid, c: Deed, d: Deed)
    requires Does(s, s', t, e, c) && c.queued == [] && c.freed == [] && Does(s', z, t, e, d)
    ensures Does(s, z, t, e, d.(gone := c.gone + d.gone))
    ensures c.gone == {} ==> Does(s, z, t, e, d)
  {
    assert s.knotes - c.gone - d.gone == s.knotes - (c.gone + d.gone);
    assert s.gc + [] == s.gc && s.freed + [] == s.freed;
  }

  lemma DoesBefore(s: State, s': State, z: State, t: Tid, e: Eid, c: Deed, d: Deed)
    requires Does(s, s', t, e, c) && Does(s', z, t, e, d) && d.gone == {} && d.queued == [] && d.freed == []
    ensures Does(s, z, t, e, c.(closing := d.closing, released := d.released))
  {
    assert s'.gc + [] == s'.gc && s'.freed + [] == s'.freed;
  }

  /** The filters of the number of an event that close() drops. */
  function Descriptor(ev: Event): set<Key> {
    {(ev.ident, READ), (ev.ident, WRITE)}
  }

  lemma DestroyStarts(s: State, t: Tid, e: Eid, n: nat, z: State) returns (s': State)
    requires Alone(s, t, DestroyCall(t, e), n, z)
    ensures e in s.events && Finishes(s', t, n, z) && s'.rmtx == s.rmtx
    ensures Does(s, s', t, e, Deed(s.events[e].closing, s.events[e].released, {}, [], []))
    ensures PcOf(s', t)
            == if !s.events[e].closing then Mark(e, false) else if t == REACTOR then Release(e, false) else Idle
  {
    s' := Apply(s, DestroyCall(t, e));
  }

  lemma MarkCloses(s: State, t: Tid, e: Eid, n: nat, z: State) returns (s': State)
    requires PcOf(s, t) == Mark(e, false) && Finishes(s, t, n, z)
    ensures n > 0 && Finishes(s', t, n - 1, z) && e in s.events && s'.rmtx == s.rmtx
    ensures Does(s, s', t, e, Deed(true, s.events[e].released, {}, [], []))
    ensures PcOf(s', t) == Dereg(e, false)
  {
    s' := Apply(s, Go(t));
  }

  lemma DeregTakesFilters(s: State, t: Tid, e: Eid, n: nat, z: State) returns (s': State)
    requires PcOf(s, t) == Dereg(e, false) && Finishes(s, t, n, z)
    ensures n > 0 && Finishes(s', t, n - 1, z) && e in s.events && s'.rmtx == s.rmtx
    ensures Does(s, s', t, e, Deed(s.events[e].closing, s.events[e].released, Keys(s.events[e]), [], []))
    ensures PcOf(s', t) == if t == REACTOR then Release(e, false) else Queue(e, false)
  {
    s' := Apply(s, Go(t));
  }

  lemma QueueLocks(s: State, t: Tid, e: Eid, n: nat, z: State) returns (s': State)
    requires PcOf(s, t) == Queue(e, false) && Finishes(s, t, n, z)
    ensures n > 0 && Finishes(s', t, n - 1, z) && e in s.events && s.rmtx == None
    ensures Does(s, s', t, e, Deed(s.events[e].closing, s.events[e].released, {}, [], []))
    ensures PcOf(s', t) == Link(e, false)
  {
    s' := Apply(s, Go(t));
  }

  lemma LinkQueues(s: State, t: Tid, e: Eid, n: nat, z: State) returns (s': State)
    requires PcOf(s, t) == Link(e, false) && Finishes(s, t, n, z)
    ensures n > 0 && Finishes(s', t, n - 1, z) && e in s.events
    ensures Does(s, s', t, e, Deed(s.events[e].closing, s.events[e].released, {}, [e], []))
    ensures PcOf(s', t) == Unlock(e, false)
  {
    s' := Apply(s, Go(t));
  }

  lemma UnlockEnds(s: State, t: Tid, e: Eid, n: nat, z: State)
    requires PcOf(s, t) == Unlock(e, false) && Finishes(s, t, n, z)
    ensures e in s.events && PcOf(z, t) == Idle && z.rmtx == None
    ensures Does(s, z, t, e, Deed(s.events[e].closing, s.events[e].released, {}, [], []))
  {
    assert z == Apply(s, Go(t));
  }

  lemma ReleaseEnds(s: State, t: Tid, e: Eid, n: nat, z: State)
    requires PcOf(s, t) == Release(e, false) && Finishes(s, t, n, z)
    ensures e in s.events && PcOf(z, t) == Idle && z.rmtx == s.rmtx
    ensures Does(s, z, t, e, Deed(s.events[e].closing, true, Descriptor(s.events[e]), [], [e]))
  {
    assert z == Apply(s, Go(t));
  }

  lemma FromLink(s: State, t: Tid, e: Eid, n: nat, z: State)
    requires PcOf(s, t) == Link(e, false) && Finishes(s, t, n, z)
    ensures e in s.events && Does(s, z, t, e, Deed(s.events[e].closing, s.events[e].released, {}, [e], []))
    ensures PcOf(z, t) == Idle && z.rmtx == None
  {
    var s' := LinkQueues(s, t, e, n, z);
    UnlockEnds(s', t, e, n - 1, z);
    var ev := s.events[e];
    DoesBefore(s, s', z, t, e, Deed(ev.closing, ev.released, {}, [e], []), Deed(ev.closing, ev.released, {}, [], []));
  }

  lemma FromQueue(s: State, t: Tid, e: Eid, n: nat, z: State)
    requires PcOf(s, t) == Queue(e, false) && Finishes(s, t, n, z)
    ensures e in s.events && Does(s, z, t, e, Deed(s.events[e].closing, s.events[e].released, {}, [e], []))
    ensures PcOf(z, t) == Idle && z.rmtx == None == s.rmtx
  {
    var s' := QueueLocks(s, t, e, n, z);
    FromLink(s', t, e, n - 1, z);
    var ev := s.events[e];
    DoesAfter(s, s', z, t, e, Deed(ev.closing, ev.released, {}, [], []), Deed(ev.closing, ev.released, {}, [e], []));
  }

  /** What deregistering and all that follows it does. */
  function Rest(t: Tid, e: Eid, ev: Event): Deed {
    if t == REACTOR then Deed(ev.closing, true, Keys(ev) + Descriptor(ev), [], [e])
    else Deed(ev.closing, ev.released, Keys(ev) + {}, [e], [])
  }

  lemma DeregThen(s: State, s': State, z: State, t: Tid, e: Eid)
    requires e in s.events && e in s'.events
    requires Does(s, s', t, e, Deed(s.events[e].closing, s.events[e].released, Keys(s.events[e]), [], []))
    requires var ev := s'.events[e];
             Does(s', z, t, e, if t == REACTOR then Deed(ev.closing, true, Descriptor(ev), [], [e])
                               else Deed(ev.closing, ev.released, {}, [e], []))
    ensures Does(s, z, t, e, Rest(t, e, s.events[e]))
  {
    var ev, ev' := s.events[e], s'.events[e];
    var d := if t == REACTOR then Deed(ev'.closing, true, Descriptor(ev'), [], [e])
             else Deed(ev'.closing, ev'.released, {}, [e], []);
    DoesAfter(s, s', z, t, e, Deed(ev.closing, ev.released, Keys(ev), [], []), d);
  }

  lemma FromDereg(s: State, t: Tid, e: Eid, n: nat, z: State)
    requires PcOf(s, t) == Dereg(e, false) && Finishes(s, t, n, z)
    ensures e in s.events && Does(s, z, t, e, Rest(t, e, s.events[e]))
    ensures PcOf(z, t) == Idle && z.rmtx == s.rmtx
  {
    var s' := DeregTakesFilters(s, t, e, n, z);
    if t == REACTOR {
      ReleaseEnds(s', t, e, n - 1, z);
    } else {
      FromQueue(s', t, e, n - 1, z);
    }
    DeregThen(s, s', z, t, e);
  }

  lemma MarkThen(s: State, s': State, z: State, t: Tid, e: Eid)
    requires e in s.events && e in s'.events
    requires Does(s, s', t, e, Deed(true, s.events[e].released, {}, [], []))
    requires Does(s', z, t, e, Rest(t, e, s'.events[e]))
    ensures Does(s, z, t, e, Rest(t, e, s.events[e]).(closing := true))
  {
    DoesAfter(s, s', z, t, e, Deed(true, s.events[e].released, {}, [], []), Rest(t, e, s'.events[e]));
  }

  lemma FromMarkOn(s: State, t: Tid, e: Eid, n: nat, z: State)
    requires PcOf(s, t) == Mark(e, false) && Finishes(s, t, n, z)
    ensures e in s.events && Does(s, z, t, e, Rest(t, e, s.events[e]).(closing := true))
    ensures PcOf(z, t) == Idle && z.rmtx == s.rmtx
  {
    var s' := MarkCloses(s, t, e, n, z);
    FromDereg(s', t, e, n - 1, z);
    MarkThen(s, s', z, t, e);
  }

  lemma CallThen(s: State, s': State, z: State, t: Tid, e: Eid)
    requires e in s.events && e in s'.events
    requires Does(s, s', t, e, Deed(s.events[e].closing, s.events[e].released, {}, [], []))
    requires Does(s', z, t, e, Rest(t, e, s'.events[e]).(closing := true))
    ensures DestroyDone(s, z, t, e) || s.events[e].closing
    ensures OneStep(s, z, t, e)
  {
    var ev := s.events[e];
    DoesAfter(s, s', z, t, e, Deed(ev.closing, ev.released, {}, [], []), Rest(t, e, s'.events[e]).(closing := true));
    forall k: Key
      ensures k in Keys(ev) <==> k.0 == ev.ident && FilterOf(ev.kind, k.1)
    {
      KeysLiteral(ev, k);
    }
  }

  lemma CallReleases(s: State, s': State, z: State, t: Tid, e: Eid)
    requires e in s.events && e in s'.events && s.events[e].closing && t == REACTOR
    requires Does(s, s', t, e, Deed(true, s.events[e].released, {}, [], []))
    requires Does(s', z, t, e, Deed(true, true, Descriptor(s'.events[e]), [], [e]))
    ensures DestroyDone(s, z, t, e) && OneStep(s, z, t, e)
  {
    DoesAfter(s, s', z, t, e, Deed(true, s.events[e].released, {}, [], []),
              Deed(true, true, Descriptor(s'.events[e]), [], [e]));
  }

  /** A destroy of any event by any thread does what `DestroyDone` says and no more. */
  lemma DestroyAlone(s: State, t: Tid, e: Eid, n: nat, z: State)
    requires Alone(s, t, DestroyCall(t, e), n, z)
    ensures e in s.events && e in z.events && DestroyDone(s, z, t, e)
    ensures OneStep(s, z, t, e) && PcOf(z, t) == Idle && z.rmtx == s.rmtx
  {
    var s' := DestroyStarts(s, t, e, n, z);
    if !s.events[e].closing {
      FromMarkOn(s', t, e, n, z);
      CallThen(s, s', z, t, e);
    } else if t == REACTOR {
      ReleaseEnds(s', t, e, n, z);
      CallReleases(s, s', z, t, e);
    }
  }

  // ----- posixc_reactor_gc

  /** How far a pass that began in `s` has come: the reactor's thread has released what it has taken
      from the front of the queue, but for the event it holds; another thread has only taken. */
  ghost predicate GcProgress(s: State, x: State, t: Tid) {
    var pc := PcOf(x, t);
    && x.events.Keys == s.events.Keys
    && (forall e :: e in s.events ==>
          SameFields(s.events[e], x.events[e]) && x.events[e].closing == s.events[e].closing)
    && (forall i :: 0 <= i < |x.gc| ==> x.gc[i] in s.gc) && s.freed <= x.freed
    && (pc.Release? ==> pc.gc && t == REACTOR)
    && (pc == Idle ==> x.gc == [])
    && (pc.GcLoop? || pc.Release? || pc.Idle?)
    && if t == REACTOR
       then && x.freed + (if pc.Release? then [pc.e] else []) + x.gc == s.freed + s.gc
            && forall e :: e in s.events ==>
                 (x.events[e].released <==> s.events[e].released || e in x.freed[|s.freed|..])
       else x.freed == s.freed && x.events == s.events && x.knotes == s.knotes
  }

  /** One turn of the loop takes the first event off the queue, or ends the pass. */
  ghost predicate Takes(x: State, z: State, t: Tid) {
    && z.freed == x.freed && z.events.Keys == x.events.Keys
    && (t != REACTOR ==> z.events == x.events && z.knotes == x.knotes)
    && (forall e :: e in x.events ==> z.events[e] == x.events[e].(destroyer := z.events[e].destroyer))
    && z.gc == (if x.gc == [] then [] else x.gc[1..])
    && PcOf(z, t) == (if x.gc == [] then Idle else if t == REACTOR then Release(x.gc[0], true) else GcLoop)
  }

  lemma LoopTakes(x: State, t: Tid)
    requires PcOf(x, t).GcLoop? && Enabled(x, Go(t)) && (x.gc != [] ==> x.events[x.gc[0]].closing)
    ensures Takes(x, Apply(x, Go(t)), t)
  {
  }

  lemma GcTakes(s: State, x: State, z: State, t: Tid)
    requires GcProgress(s, x, t) && PcOf(x, t).GcLoop? && Takes(x, z, t)
    ensures GcProgress(s, z, t)
  {
    if x.gc != [] {
      assert x.freed + [] + x.gc == x.freed + [x.gc[0]] + x.gc[1..];
    }
    forall e | e in s.events
      ensures SameFields(s.events[e], z.events[e]) && z.events[e].closing == s.events[e].closing
      ensures z.events[e].released == x.events[e].released
    {
      assert SameFields(s.events[e], x.events[e]);
    }
  }

  lemma LoopReleases(x: State, e: Eid)
    requires PcOf(x, REACTOR) == Release(e, true) && Enabled(x, Go(REACTOR))
    ensures var z := Apply(x, Go(REACTOR));
            && OneStep(x, z, REACTOR, e) && z.events[e].closing == x.events[e].closing && z.events[e].released
            && z.gc == x.gc && z.freed == x.freed + [e] && PcOf(z, REACTOR) == GcLoop
  {
  }

  lemma EventsAfterRelease(s: State, x: State, z: State, e: Eid)
    requires GcProgress(s, x, REACTOR) && OneStep(x, z, REACTOR, e)
    requires z.events[e].closing == x.events[e].closing && z.events[e].released && z.freed == x.freed + [e]
    ensures forall e' :: e' in s.events ==>
              && SameFields(s.events[e'], z.events[e']) && z.events[e'].closing == s.events[e'].closing
              && (z.events[e'].released <==> s.events[e'].released || e' in z.freed[|s.freed|..])
  {
    assert z.freed[|s.freed|..] == x.freed[|s.freed|..] + [e];
    forall e' | e' in s.events
      ensures SameFields(s.events[e'], z.events[e']) && z.events[e'].closing == s.events[e'].closing
      ensures z.events[e'].released <==> s.events[e'].released || e' in z.freed[|s.freed|..]
    {
      assert e' != e ==> z.events[e'] == x.events[e'];
      assert SameFields(s.events[e'], x.events[e']);
    }
  }

  lemma GcReleases(s: State, x: State, e: Eid, z: State)
    requires GcProgress(s, x, REACTOR) && PcOf(x, REACTOR) == Release(e, true)
    requires OneStep(x, z, REACTOR, e) && z.events[e].closing == x.events[e].closing && z.events[e].released
    requires z.gc == x.gc && z.freed == x.freed + [e] && PcOf(z, REACTOR) == GcLoop
    ensures GcProgress(s, z, REACTOR)
  {
    EventsAfterRelease(s, x, z, e);
    assert z.freed + [] + z.gc == x.freed + [e] + x.gc;
  }

  lemma {:induction false} GcGoesOn(s: State, x: State, t: Tid, n: nat, z: State)
    requires GcProgress(s, x, t) && Finishes(x, t, n, z)
    requires forall i :: 0 <= i < |s.gc| ==> s.gc[i] in s.events && s.events[s.gc[i]].closing
    ensures GcProgress(s, z, t) && PcOf(z, t) == Idle
    decreases n
  {
    if PcOf(x, t) != Idle {
      if PcOf(x, t).GcLoop? {
        assert x.gc != [] ==> x.gc[0] in s.gc;
        LoopTakes(x, t);
        GcTakes(s, x, Apply(x, Go(t)), t);
      } else {
        LoopReleases(x, PcOf(x, t).e);
        GcReleases(s, x, PcOf(x, t).e, Apply(x, Go(t)));
      }
      GcGoesOn(s, Apply(x, Go(t)), t, n - 1, z);
    }
  }

  lemma GcStarts(s: State, t: Tid)
    requires Enabled(s, GcCall(t)) && Enabled(Apply(s, GcCall(t)), Go(t))
    ensures GcProgress(s, Apply(Apply(s, GcCall(t)), Go(t)), t)
  {
    assert s.freed + [] + s.gc == s.freed + s.gc;
  }

  /** A pass over a queue of closed events empties it. The reactor's thread releases them all, first
      queued first, and nothing else; another thread releases none and changes no event. */
  lemma GcAlone(s: State, t: Tid, n: nat, z: State)
    requires Alone(s, t, GcCall(t), n, z)
    requires forall i :: 0 <= i < |s.gc| ==> s.gc[i] in s.events && s.events[s.gc[i]].closing
    ensures z.gc == [] && z.freed == s.freed + (if t == REACTOR then s.gc else [])
    ensures z.events.Keys == s.events.Keys
    ensures forall e :: e in s.events ==>
              && SameFields(s.events[e], z.events[e]) && z.events[e].closing == s.events[e].closing
              && (z.events[e].released <==> s.events[e].released || (t == REACTOR && e in s.gc))
  {
    var s1 := Apply(s, GcCall(t));
    assert PcOf(s1, t) == GcLock;
    GcStarts(s, t);
    GcGoesOn(s, Apply(s1, Go(t)), t, n - 1, z);
    if t == REACTOR {
      assert z.freed + [] + [] == z.freed;
      assert z.freed[|s.freed|..] == s.gc;
    }
  }

  // ----- consume_ev, posixc_event_consume and the kernel's delivery

  /** A dispatch takes the first entry off the batch and clears, in the mask of its event and in no
      other, the bit of its filter, or none for a timer, and the error bit if it reports an error. */
  lemma DispatchClears(s: State)
    requires Enabled(s, Dispatch)
    ensures var x, s' := s.batch[0], Apply(s, Dispatch);
            && s'.batch == s.batch[1..] && s'.inCallback && s'.knotes == s.knotes && s'.gc == s.gc
            && s'.events.Keys == s.events.Keys && (forall e :: e in s.events && e != x.e ==> s'.events[e] == s.events[e])
            && s'.events[x.e].calls == s.events[x.e].calls + multiset{x.f}
            && (s'.events[x.e].closing <==> s.events[x.e].closing)
            && forall b :: b in s'.events[x.e].evmask <==>
                 && b in s.events[x.e].evmask
                 && !(b == IN && x.f == READ) && !(b == OUT && x.f == WRITE)
                 && !(b == SIG && x.f == SIGNAL) && !(b == USR && x.f == USER)
                 && !(b == ERR && x.error)
  {
  }

  /** The kernel may deliver any at most 64 enabled filters, each once; of these it disables the
      ones that fire once, and no other filter changes. */
  lemma PollDelivers(s: State, entries: seq<Entry>)
    requires BetweenBatches(s)
    ensures Enabled(s, Poll(entries)) <==>
              && |entries| <= 64
              && (forall i :: 0 <= i < |entries| ==>
                    && (entries[i].ident, entries[i].f) in s.knotes
                    && s.knotes[(entries[i].ident, entries[i].f)].enabled
                    && s.knotes[(entries[i].ident, entries[i].f)].udata == entries[i].e)
              && (forall i, j :: 0 <= i < j < |entries| ==>
                    (entries[i].ident, entries[i].f) != (entries[j].ident, entries[j].f))
    ensures Enabled(s, Poll(entries)) ==>
              var s' := Apply(s, Poll(entries));
              && s'.batch == entries && s'.events == s.events && s'.knotes.Keys == s.knotes.Keys
              && forall k :: k in s.knotes ==>
                   && s'.knotes[k].udata == s.knotes[k].udata
                   && (s'.knotes[k].enabled <==>
                         && s.knotes[k].enabled
                         && !(k.1 in {READ, WRITE, USER}
                              && exists i :: 0 <= i < |entries| && (entries[i].ident, entries[i].f) == k))
  {
  }

  // ----- posixc_event_create

  lemma NewKnotesLiteral(ident: int, kind: Kind, e: Eid, k: Key)
    ensures k in NewKnotes(ident, kind, e) <==> k.0 == ident && FilterOf(kind, k.1)
    ensures k in NewKnotes(ident, kind, e) ==> NewKnotes(ident, kind, e)[k] == Knote(e, false)
  {
  }

  /** A new event is open, unlocked and without bits. */
  lemma CreateOpens(s: State, t: Tid, e: Eid, ident: int, kind: Kind)
    requires Enabled(s, Create(t, e, ident, kind))
    ensures var s' := Apply(s, Create(t, e, ident, kind));
            && s'.events.Keys == s.events.Keys + {e} && (forall e' :: e' in s.events ==> s'.events[e'] == s.events[e'])
            && (var ev := s'.events[e];
                && ev.ident == ident && ev.kind == kind && ev.evmask == {} && !ev.closing && ev.mtx == None
                && !ev.released)
            && s'.batch == s.batch && s'.gc == s.gc && s'.freed == s.freed && s'.rmtx == s.rmtx
  {
  }

  /** Its filters are registered and disabled, and no other filter changes. */
  lemma CreateRegisters(s: State, t: Tid, e: Eid, ident: int, kind: Kind)
    requires Enabled(s, Create(t, e, ident, kind))
    ensures var s' := Apply(s, Create(t, e, ident, kind));
            forall k: Key ::
              && (k in s'.knotes <==> k in s.knotes || (k.0 == ident && FilterOf(kind, k.1)))
              && (k in s'.knotes ==>
                    s'.knotes[k] == if k.0 == ident && FilterOf(kind, k.1) then Knote(e, false) else s.knotes[k])
  {
    forall k: Key
      ensures k in NewKnotes(ident, kind, e) <==> k.0 == ident && FilterOf(kind, k.1)
      ensures k in NewKnotes(ident, kind, e) ==> NewKnotes(ident, kind, e)[k] == Knote(e, false)
    {
      NewKnotesLiteral(ident, kind, e, k);
    }
    assert Apply(s, Create(t, e, ident, kind)).knotes == s.knotes + NewKnotes(ident, kind, e);
  }

  // ----- when calls are possible, and what memory they reach

  /** User threads call whatever they like while they are in no other call; the reactor's thread calls
      from callbacks, and collects and waits for events only between batches. */
  lemma CallsArePossible(s: State, t: Tid, e: Eid, mask: set<Flag>, ident: int, kind: Kind)
    ensures Enabled(s, SubmitCall(t, e, mask)) <==> e in s.events && PcOf(s, t) == Idle && (t == 0 ==> s.inCallback)
    ensures Enabled(s, DestroyCall(t, e)) <==> e in s.events && PcOf(s, t) == Idle && (t == 0 ==> s.inCallback)
    ensures Enabled(s, Create(t, e, ident, kind))
            <==> e !in s.events && PcOf(s, t) == Idle && (t == 0 ==> s.inCallback)
    ensures Enabled(s, GcCall(t)) <==> PcOf(s, t) == Idle && (t == 0 ==> !s.inCallback && s.batch == [])
    ensures Enabled(s, Return) <==> s.inCallback && PcOf(s, 0) == Idle
    ensures Enabled(s, Dispatch)
            <==> && PcOf(s, 0) == Idle && !s.inCallback && s.batch != []
                 && s.batch[0].e in s.events && s.events[s.batch[0].e].mtx == None
  {
  }

  /** What a step changes in an event already there, it touches. */
  lemma ChangesAreTouched(s: State, step: Step, e: Eid)
    requires Enabled(s, step) && e in s.events && e !in Touched(s, step)
    ensures e in Apply(s, step).events && Apply(s, step).events[e] == s.events[e]
  {
    if step.Go? {
      GoEvent(s, step.t, e);
      if PcOf(s, step.t).GcLoop? {
        GcEvent(s, step.t, e);
      }
    }
  }

  /** It also touches what it only reads: the event whose call it is, the one that an entry points to,
      and the neighbours on the queue whose links it writes. */
  lemma ReadsAreTouched(s: State, step: Step, e: Eid)
    requires Enabled(s, step)
    ensures (step.DestroyCall? || step.SubmitCall?) && step.e == e ==> e in Touched(s, step)
    ensures step.Dispatch? && s.batch[0].e == e ==> e in Touched(s, step)
    ensures step.Go? && PcOf(s, step.t).Handles(e) ==> e in Touched(s, step)
    ensures step.Go? && PcOf(s, step.t).Link? && s.gc != [] && s.gc[|s.gc| - 1] == e ==> e in Touched(s, step)
    ensures step.Go? && PcOf(s, step.t).GcLoop? && s.gc != [] && (s.gc[0] == e || (|s.gc| > 1 && s.gc[1] == e))
            ==> e in Touched(s, step)
  {
    if step.Go? && PcOf(s, step.t).GcLoop? && |s.gc| > 1 {
      assert s.gc[0] in Touched(s, step) && s.gc[1] in Touched(s, step);
    }
  }
}
