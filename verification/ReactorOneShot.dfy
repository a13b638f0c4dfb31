/** One-shot counting: how often a filter is called back, against how often it was submitted. */
module ReactorOneShot {
  import opened Reactor
  import opened ReactorFrames
  import opened ReactorSafety
  import opened ReactorWakeups

  /** The kernel may deliver filter `f` to event `e`. */
  ghost predicate Live(s: State, e: Eid, f: Filter)
    requires e in s.events
  {
    var k := (s.events[e].ident, f);
    k in s.knotes && s.knotes[k] == Knote(e, true)
  }

  predicate Bit(s: State, e: Eid, f: Filter)
    requires e in s.events
  {
    FlagOf(f) in s.events[e].evmask
  }

  function One(b: bool): nat {
    if b then 1 else 0
  }

  /** The callbacks of a filter so far, and those that can still come without another submit: one
      for an entry that waits, one for an enabled filter, or else one for a bit whose filter a
      submit has yet to enable. */
  ghost function Owed(s: State, e: Eid, f: Filter): nat
    requires e in s.events
  {
    s.events[e].calls[f] + One(Pending(s, e, f)) + One(Live(s, e, f))
    + One(Bit(s, e, f) && !Pending(s, e, f) && !Live(s, e, f))
  }

  predicate OneShot(s: State, e: Eid, f: Filter) {
    e in s.events && f in Filters(s.events[e].kind) && Dispatched(f)
  }

  /** What is owed beyond submits and overlaps. */
  ghost function Surplus(s: State, e: Eid, f: Filter): int {
    if OneShot(s, e, f) then Owed(s, e, f) - s.events[e].submits[f] - s.events[e].overlaps[f] else 0
  }

  // ----- submits, and what they add

  lemma CalmOwesNoMore(s: State, s': State, t: Tid, e: Eid, f: Filter)
    requires Calm(s, s', t, e) && (e in s.events ==> e in s'.events)
    ensures Surplus(s', e, f) <= Surplus(s, e, f)
  {
    if OneShot(s', e, f) {
      assert Pending(s', e, f) <==> Pending(s, e, f);
      assert Live(s', e, f) ==> Live(s, e, f);
    }
  }

  /** Naming a filter adds a callback exactly when none was owed: a second submit before the first
      is served is merged with it. */
  lemma MarkOwes(s: State, t: Tid, e: Eid, f: Filter)
    requires PcOf(s, t).SubMark? && Enabled(s, Go(t)) && PcOf(s, t).e == e && OneShot(s, e, f)
    ensures var s' := Apply(s, Go(t)); var named := FlagOf(f) in PcOf(s, t).mask;
            && OneShot(s', e, f) && s'.events[e].submits[f] == s.events[e].submits[f] + One(named)
            && s'.events[e].overlaps == s.events[e].overlaps
            && Owed(s', e, f) == Owed(s, e, f) + One(named && !Bit(s, e, f) && !Pending(s, e, f) && !Live(s, e, f))
  {
    var s' := Apply(s, Go(t));
    assert Pending(s', e, f) <==> Pending(s, e, f);
    assert Live(s', e, f) <==> Live(s, e, f);
  }

  lemma MarkOwesNoMore(s: State, t: Tid, e: Eid, f: Filter)
    requires PcOf(s, t).SubMark? && Enabled(s, Go(t))
    ensures Surplus(Apply(s, Go(t)), e, f) <= Surplus(s, e, f)
  {
    var s' := Apply(s, Go(t));
    if e == PcOf(s, t).e && OneShot(s, e, f) {
      MarkOwes(s, t, e, f);
    } else if OneShot(s', e, f) {
      assert Pending(s', e, f) <==> Pending(s, e, f);
      assert Live(s', e, f) <==> Live(s, e, f);
    }
  }

  lemma EnabledOwes(s: State, s': State, e: Eid, f: Filter)
    requires OneShot(s, e, f) && s'.knotes == Enable(s, e) && s'.batch == s.batch && e in s'.events
    requires s'.events[e] == s.events[e].(overlaps := s'.events[e].overlaps)
    ensures OneShot(s', e, f) && Owed(s', e, f) == Owed(s, e, f) + One(Overlaps(s, e, f))
  {
    assert Pending(s', e, f) <==> Pending(s, e, f);
    assert (s.events[e].ident, f) in Keys(s.events[e]);
  }

  /** Enabling adds a callback exactly when it overlaps a pending entry, whichever bit the submit
      named: submitting OUT is enough to enable a pending IN again. */
  lemma EnableOwes(s: State, s': State, t: Tid, e: Eid, f: Filter)
    requires PcOf(s, t) == SubEnable(e) && Enabled(s, Go(t)) && s' == Apply(s, Go(t)) && OneShot(s, e, f)
    ensures OneShot(s', e, f) && Owed(s', e, f) == Owed(s, e, f) + One(Overlaps(s, e, f))
    ensures s'.events[e].overlaps[f] == s.events[e].overlaps[f] + One(Overlaps(s, e, f))
    ensures s'.events[e].submits == s.events[e].submits && s'.events[e].calls == s.events[e].calls
  {
    EnableEffect(s, t);
    CountsOverlap(s, t, e, f);
    EnabledOwes(s, s', e, f);
  }

  lemma CountsOverlap(s: State, t: Tid, e: Eid, f: Filter)
    requires PcOf(s, t) == SubEnable(e) && Enabled(s, Go(t)) && OneShot(s, e, f)
    ensures var s' := Apply(s, Go(t));
            e in s'.events && s'.events[e].overlaps[f] == s.events[e].overlaps[f] + One(Overlaps(s, e, f))
  {
  }

  lemma EnableSparesOthers(s: State, s': State, e': Eid, e: Eid, f: Filter)
    requires e' in s.events && e != e' && s'.knotes == Enable(s, e') && s'.batch == s.batch
    requires s'.events.Keys == s.events.Keys && (e in s.events ==> s'.events[e] == s.events[e])
    ensures Surplus(s', e, f) <= Surplus(s, e, f)
  {
    if OneShot(s', e, f) {
      assert Pending(s', e, f) <==> Pending(s, e, f);
      assert Live(s', e, f) ==> Live(s, e, f);
    }
  }

  lemma EnableOwesNoMore(s: State, s': State, t: Tid, e: Eid, f: Filter)
    requires PcOf(s, t).SubEnable? && Enabled(s, Go(t)) && s' == Apply(s, Go(t))
    ensures Surplus(s', e, f) <= Surplus(s, e, f)
  {
    EnableEffect(s, t);
    if PcOf(s, t).e != e {
      EnableSparesOthers(s, s', PcOf(s, t).e, e, f);
    } else if OneShot(s, e, f) {
      EnableOwes(s, s', t, e, f);
    }
  }

  // ----- deliveries, and what they use up

  /** A delivery turns an enabled filter into a waiting entry. */
  lemma PollOwesNoMore(s: State, entries: seq<Entry>, e: Eid, f: Filter)
    requires Keyed(s) && Enabled(s, Poll(entries))
    ensures Surplus(Apply(s, Poll(entries)), e, f) <= Surplus(s, e, f)
  {
    var s' := Apply(s, Poll(entries));
    if OneShot(s', e, f) {
      assert Live(s', e, f) ==> Live(s, e, f);
      if Pending(s', e, f) {
        var i :| 0 <= i < |entries| && entries[i].e == e && entries[i].f == f;
        assert Deliverable(s, entries[i]);
        assert KeyOk(s, (entries[i].ident, f));
      }
    }
  }

  lemma PendingAfter(s: State, s': State, e: Eid, f: Filter)
    requires Keyed(s) && s.batch != [] && s'.batch == s.batch[1..] && Pending(s', e, f)
    ensures Pending(s, e, f) && !(s.batch[0].e == e && s.batch[0].f == f)
  {
    var i :| 0 <= i < |s'.batch| && s'.batch[i].e == e && s'.batch[i].f == f;
    assert s.batch[i + 1] == s'.batch[i];
    assert EntryKeyed(s, s.batch[0]) && EntryKeyed(s, s.batch[i + 1]);
    assert !SameKey(s.batch[0], s.batch[i + 1]);
  }

  lemma PendingBehind(s: State, s': State, e: Eid, f: Filter)
    requires s.batch != [] && s'.batch == s.batch[1..]
    requires Pending(s, e, f) && !(s.batch[0].e == e && s.batch[0].f == f)
    ensures Pending(s', e, f)
  {
    var i :| 0 <= i < |s.batch| && s.batch[i].e == e && s.batch[i].f == f;
    assert s'.batch[i - 1] == s.batch[i];
  }

  /** What is pending after a dispatch was pending before, and is not what was dispatched. */
  lemma StillPending(s: State, s': State, e: Eid, f: Filter)
    requires Keyed(s) && s.batch != [] && s'.batch == s.batch[1..]
    ensures Pending(s', e, f) <==> Pending(s, e, f) && !(s.batch[0].e == e && s.batch[0].f == f)
  {
    if Pending(s', e, f) {
      PendingAfter(s, s', e, f);
    }
    if Pending(s, e, f) && !(s.batch[0].e == e && s.batch[0].f == f) {
      PendingBehind(s, s', e, f);
    }
  }

  lemma ConsumedOwes(s: State, s': State, e: Eid, f: Filter, x: Entry)
    requires OneShot(s, e, f) && s'.knotes == s.knotes && e in s'.events
    requires s'.events[e] == if x.e == e then AfterEntry(s.events[e], x) else s.events[e]
    requires x.e == e && x.f == f ==> Pending(s, e, f)
    requires Pending(s', e, f) <==> Pending(s, e, f) && !(x.e == e && x.f == f)
    ensures OneShot(s', e, f) && Owed(s', e, f) == Owed(s, e, f)
  {
    assert Live(s', e, f) <==> Live(s, e, f);
  }

  /** A callback uses up the entry that it was owed for. */
  lemma DispatchOwes(s: State, s': State, e: Eid, f: Filter)
    requires Keyed(s) && OneShot(s, e, f) && s.batch != []
    requires s'.batch == s.batch[1..] && s'.knotes == s.knotes && e in s'.events
    requires s'.events[e] == if s.batch[0].e == e then AfterEntry(s.events[e], s.batch[0]) else s.events[e]
    ensures OneShot(s', e, f) && Owed(s', e, f) == Owed(s, e, f)
  {
    StillPending(s, s', e, f);
    ConsumedOwes(s, s', e, f, s.batch[0]);
  }

  lemma DispatchOwesNoMore(s: State, e: Eid, f: Filter)
    requires Keyed(s) && Enabled(s, Dispatch)
    ensures Surplus(Apply(s, Dispatch), e, f) <= Surplus(s, e, f)
  {
    if OneShot(s, e, f) {
      DispatchOwes(s, Apply(s, Dispatch), e, f);
    }
  }

  lemma NewEventOwesNothing(s: State, s': State, e: Eid, f: Filter)
    requires Keyed(s) && e !in s.events && s'.batch == s.batch && e in s'.events
    requires s'.events[e] == NewEvent(s'.events[e].ident, s'.events[e].kind)
    requires forall k :: k in s'.knotes && s'.knotes[k].udata == e ==> !s'.knotes[k].enabled
    ensures Surplus(s', e, f) == 0
  {
    assert forall i :: 0 <= i < |s.batch| ==> EntryKeyed(s, s.batch[i]);
  }

  lemma CreateSparesOthers(s: State, step: Step, e: Eid, f: Filter)
    requires step.Create? && Enabled(s, step) && e != step.e
    ensures Surplus(Apply(s, step), e, f) <= Surplus(s, e, f)
  {
    var s' := Apply(s, step);
    if OneShot(s', e, f) {
      assert Pending(s', e, f) <==> Pending(s, e, f);
      assert Live(s', e, f) ==> Live(s, e, f);
    }
  }

  lemma CreateOwesNoMore(s: State, step: Step, e: Eid, f: Filter)
    requires Keyed(s) && step.Create? && Enabled(s, step)
    ensures Surplus(Apply(s, step), e, f) <= Surplus(s, e, f)
  {
    if e != step.e {
      CreateSparesOthers(s, step, e, f);
    } else {
      var s' := Apply(s, step);
      forall k | k in s'.knotes && s'.knotes[k].udata == e
        ensures !s'.knotes[k].enabled
      {
        assert k in s.knotes ==> KeyOk(s, k);
      }
      NewEventOwesNothing(s, s', e, f);
    }
  }

  // ----- runs

  lemma GoOwesNoMore(s: State, s': State, t: Tid, e: Eid, f: Filter)
    requires Enabled(s, Go(t)) && s' == Apply(s, Go(t))
    ensures Surplus(s', e, f) <= Surplus(s, e, f)
  {
    var pc := PcOf(s, t);
    if pc.SubMark? {
      MarkOwesNoMore(s, t, e, f);
    } else if pc.SubEnable? {
      EnableOwesNoMore(s, s', t, e, f);
    } else {
      if pc.Destroying() {
        DestroyIsCalm(s, t, e);
      } else if pc.Collecting() {
        GcIsCalm(s, t, e);
      } else {
        LockIsCalm(s, t, e);
      }
      GoFrame(s, t);
      CalmOwesNoMore(s, s', t, e, f);
    }
  }

  lemma CallOwesNoMore(s: State, step: Step, e: Eid, f: Filter)
    requires Keyed(s) && Enabled(s, step) && !step.Go?
    ensures Surplus(Apply(s, step), e, f) <= Surplus(s, e, f)
  {
    if step.Create? {
      CreateOwesNoMore(s, step, e, f);
    } else if step.Poll? {
      PollOwesNoMore(s, step.entries, e, f);
    } else if step.Dispatch? {
      DispatchOwesNoMore(s, e, f);
    } else {
      CallIsCalm(s, step, e);
      CalmOwesNoMore(s, Apply(s, step), if step.Return? then REACTOR else step.t, e, f);
    }
  }

  lemma StepOwesNoMore(s: State, step: Step, e: Eid, f: Filter)
    requires Keyed(s) && Enabled(s, step)
    ensures Surplus(Apply(s, step), e, f) <= Surplus(s, e, f)
  {
    if step.Go? {
      GoOwesNoMore(s, Apply(s, step), step.t, e, f);
    } else {
      CallOwesNoMore(s, step, e, f);
    }
  }

  /** Along every path, whatever the callers do, the surplus never grows. */
  lemma {:induction false} SurplusNeverGrows(states: seq<State>, steps: seq<Step>, i: nat, e: Eid, f: Filter)
    requires IsPath(states, steps) && Keyed(states[0]) && i <= |steps|
    ensures Keyed(states[i]) && Surplus(states[i], e, f) <= Surplus(states[0], e, f)
  {
    if i > 0 {
      SurplusNeverGrows(states, steps, i - 1, e, f);
      KeyedKept(states[i - 1], steps[i - 1]);
      StepOwesNoMore(states[i - 1], steps[i - 1], e, f);
    }
  }

  /** In every run, whatever rules the callers break, the callbacks of a socket or user filter so far,
      plus one if its bit is still set, are at most the submits that named it and the times a
      submit enabled it again while its entry was waiting. */
  lemma CallbacksAgainstSubmits(states: seq<State>, steps: seq<Step>, i: nat, e: Eid, f: Filter)
    requires IsRun(states, steps) && i <= |steps| && OneShot(states[i], e, f)
    ensures var ev := states[i].events[e];
            && Owed(states[i], e, f) <= ev.submits[f] + ev.overlaps[f]
            && ev.calls[f] + One(FlagOf(f) in ev.evmask) <= ev.submits[f] + ev.overlaps[f]
  {
    SurplusNeverGrows(states, steps, i, e, f);
  }

  // ----- submits that do not overlap

  /** Filters are not enabled while an entry of the event waits. */
  ghost predicate Quiet(s: State, step: Step) {
    step.Go? && PcOf(s, step.t).SubEnable? ==> NoEntry(s, PcOf(s, step.t).e)
  }

  ghost predicate QuietRun(states: seq<State>, steps: seq<Step>) {
    |states| == |steps| + 1 && forall i {:trigger steps[i]} :: 0 <= i < |steps| ==> Quiet(states[i], steps[i])
  }

  lemma QuietEnableCountsNothing(s: State, t: Tid, e: Eid, f: Filter)
    requires PcOf(s, t).SubEnable? && Enabled(s, Go(t)) && Quiet(s, Go(t)) && e in s.events
    ensures var s' := Apply(s, Go(t)); e in s'.events && s'.events[e].overlaps == s.events[e].overlaps
  {
    var e' := PcOf(s, t).e;
    assert forall f :: !Pending(s, e', f);
    var again := set f | f in Filters(s.events[e'].kind) && Overlaps(s, e', f);
    assert again == {};
    assert s.events[e'].overlaps + multiset(again) == s.events[e'].overlaps;
  }

  lemma OnlyEnablingOverlaps(s: State, step: Step, e: Eid)
    requires Enabled(s, step) && e in s.events && !(step.Go? && PcOf(s, step.t).SubEnable?)
    ensures var s' := Apply(s, step); e in s'.events && s'.events[e].overlaps == s.events[e].overlaps
  {
    if step.Go? {
      GoEvent(s, step.t, e);
    } else {
      CallEvent(s, step, e);
    }
  }

  lemma {:induction false} QuietRunsDoNotOverlap(states: seq<State>, steps: seq<Step>, i: nat, e: Eid, f: Filter)
    requires IsRun(states, steps) && QuietRun(states, steps) && i <= |steps| && e in states[i].events
    ensures states[i].events[e].overlaps[f] == 0
  {
    if i > 0 {
      var s, step := states[i - 1], steps[i - 1];
      if e in s.events {
        QuietRunsDoNotOverlap(states, steps, i - 1, e, f);
        if step.Go? && PcOf(s, step.t).SubEnable? {
          QuietEnableCountsNothing(s, step.t, e, f);
        } else {
          OnlyEnablingOverlaps(s, step, e);
        }
      } else if step.Go? {
        GoFrame(s, step.t);
      }
    }
  }

  /** In every run whose submits do not overlap a waiting entry of their event, the callbacks of a
      socket or user filter so far, plus one if its bit is still set, are at most the submits
      that named it. */
  lemma CallbacksNeverExceedSubmits(states: seq<State>, steps: seq<Step>, i: nat, e: Eid, f: Filter)
    requires IsRun(states, steps) && QuietRun(states, steps) && i <= |steps|
    requires OneShot(states[i], e, f)
    ensures var ev := states[i].events[e]; ev.calls[f] + One(FlagOf(f) in ev.evmask) <= ev.submits[f]
  {
    CallbacksAgainstSubmits(states, steps, i, e, f);
    QuietRunsDoNotOverlap(states, steps, i, e, f);
  }
}
