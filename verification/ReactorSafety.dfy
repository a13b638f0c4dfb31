/** What every step keeps: the stages of an event's destruction, the list of those that wait for
    release, and the distance between released events and whatever still points at them. */
module ReactorSafety {
  import opened Matching
  import opened Reactor
  import opened ReactorFrames

  // ----- destruction in stages, if destroy is called once per event

  /** How far the destruction of an event has come. */
  ghost predicate EventOk(ev: Event) {
    && (ev.released ==> ev.dereg)
    && (ev.dereg ==> ev.closing)
    && (ev.closing ==> ev.destroyed)
    && (ev.destroyer.Some? ==> ev.destroyed && !ev.released)
  }

  /** What a thread inside destroy may rely on about its event. */
  ghost predicate DestroyOk(s: State, t: Tid, pc: Pc)
    requires pc.Destroying()
  {
    && pc.e in s.events
    && var ev := s.events[pc.e];
    && ev.destroyer == Some(t) && ev.destroyed && !ev.released
    && (ev.closing <==> !pc.Mark?)
    && (ev.dereg <==> !pc.Mark? && !pc.Dereg?)
    && (pc.gc ==> pc.Release?)
    && (pc.Unlock? || pc.e !in s.gc)
    && (t == REACTOR ==> !pc.Queue? && !pc.Link? && !pc.Unlock?)
    && (pc.Release? ==> t == REACTOR)
  }

  /** The reactor mutex is held from locking to unlocking, in destroy and in gc. */
  predicate HoldsReactor(pc: Pc) {
    pc.Link? || pc.Unlock? || pc.GcLoop? || (pc.Release? && pc.gc)
  }

  ghost predicate ThreadOk(s: State, t: Tid) {
    var pc := PcOf(s, t);
    && (pc.Destroying() ==> DestroyOk(s, t, pc))
    && (pc.Submitting() ==> pc.e in s.events)
    && (HoldsReactor(pc) <==> s.rmtx == Some(t))
    && (t == REACTOR && (HoldsReactor(pc) || pc.GcLock?) ==> s.batch == [] && !s.inCallback)
    && (t == REACTOR && !pc.Idle? && !HoldsReactor(pc) && !pc.GcLock? ==> s.inCallback)
  }

  ghost predicate Threads(s: State) {
    forall t :: ThreadOk(s, t)
  }

  ghost predicate Events(s: State) {
    forall e :: e in s.events ==> EventOk(s.events[e])
  }

  /** Every queued event has been marked and deregistered, waits for release, and is queued once. */
  ghost predicate GcOk(s: State) {
    && (forall i :: 0 <= i < |s.gc| ==>
          s.gc[i] in s.events && s.events[s.gc[i]].dereg && !s.events[s.gc[i]].released)
    && (forall i, j :: 0 <= i < j < |s.gc| ==> s.gc[i] != s.gc[j])
  }

  ghost predicate Freed(s: State) {
    && (forall i :: 0 <= i < |s.freed| ==> s.freed[i] in s.events && s.events[s.freed[i]].released)
    && (forall i, j :: 0 <= i < j < |s.freed| ==> s.freed[i] != s.freed[j])
  }

  ghost predicate Life(s: State) {
    Events(s) && GcOk(s) && Freed(s)
  }

  ghost predicate Alive(s: State) {
    Threads(s) && Life(s)
  }

  /** A step that queues and releases nothing keeps the queue and the log. */
  lemma NoReleaseKeepsLife(s: State, s': State)
    requires Life(s) && Events(s') && s.events.Keys <= s'.events.Keys
    requires forall e :: e in s.events ==>
               s'.events[e].released == s.events[e].released && (s.events[e].dereg ==> s'.events[e].dereg)
    requires s'.gc == s.gc || (s.gc != [] && s'.gc == s.gc[1..])
    requires s'.freed == s.freed
    ensures Life(s')
  {
  }

  lemma DestroyKeepsEventOk(s: State, t: Tid, e: Eid)
    requires Enabled(s, Go(t)) && PcOf(s, t).Destroying() && ThreadOk(s, t) && e in s.events && EventOk(s.events[e])
    ensures var s' := Apply(s, Go(t)); e in s'.events && EventOk(s'.events[e])
  {
    match PcOf(s, t) {
      case Mark(_, _) =>
      case Dereg(_, _) =>
      case Queue(_, _) =>
      case Link(_, _) =>
      case Unlock(_, _) =>
      case Release(_, _) =>
    }
  }

  lemma GcKeepsEventOk(s: State, t: Tid, e: Eid)
    requires Enabled(s, Go(t)) && PcOf(s, t).GcLoop? && Life(s) && e in s.events
    ensures var s' := Apply(s, Go(t)); e in s'.events && EventOk(s'.events[e])
  {
    GcEvent(s, t, e);
  }

  lemma GoKeepsEventOk(s: State, t: Tid, e: Eid)
    requires Alive(s) && Enabled(s, Go(t)) && e in s.events
    ensures var s' := Apply(s, Go(t)); e in s'.events && EventOk(s'.events[e])
  {
    assert ThreadOk(s, t) && EventOk(s.events[e]);
    if PcOf(s, t).Destroying() {
      DestroyKeepsEventOk(s, t, e);
    } else if PcOf(s, t).GcLoop? {
      GcKeepsEventOk(s, t, e);
    } else {
      GoEvent(s, t, e);
    }
  }

  lemma GoUnqueues(s: State, t: Tid)
    requires Enabled(s, Go(t)) && PcOf(s, t).GcLoop?
    ensures var s' := Apply(s, Go(t)); s'.gc == s.gc || (s.gc != [] && s'.gc == s.gc[1..])
  {
  }

  /** Only a deregistered event is queued, and only once. */
  lemma LinkKeepsLife(s: State, t: Tid)
    requires Alive(s) && PcOf(s, t).Link? && Enabled(s, Go(t))
    ensures Life(Apply(s, Go(t)))
  {
    assert ThreadOk(s, t);
  }

  /** What is released is not queued, and has not been released before. */
  lemma ReleaseKeepsLife(s: State, t: Tid)
    requires Alive(s) && PcOf(s, t).Release? && Enabled(s, Go(t))
    ensures Life(Apply(s, Go(t)))
  {
    assert ThreadOk(s, t);
  }

  lemma GoKeepsLife(s: State, s': State, t: Tid)
    requires Alive(s) && Enabled(s, Go(t)) && s' == Apply(s, Go(t))
    ensures Life(s')
  {
    assert ThreadOk(s, t);
    if PcOf(s, t).Link? {
      LinkKeepsLife(s, t);
    } else if PcOf(s, t).Release? {
      ReleaseKeepsLife(s, t);
    } else {
      GoFrame(s, t);
      if PcOf(s, t).GcLoop? {
        GoUnqueues(s, t);
      }
      forall e | e in s.events
        ensures EventOk(s'.events[e]) && GoChanges(PcOf(s, t), s.events[e], s'.events[e])
      {
        GoKeepsEventOk(s, t, e);
        GoEvent(s, t, e);
      }
      NoReleaseKeepsLife(s, s');
    }
  }

  lemma CallKeepsEventOk(s: State, step: Step, e: Eid)
    requires Enabled(s, step) && !step.Go? && DestroysOnce(s, step) && Events(s) && e in Apply(s, step).events
    ensures EventOk(Apply(s, step).events[e])
  {
    match step {
      case Create(_, _, _, _) =>
      case DestroyCall(_, _) =>
      case SubmitCall(_, _, _) =>
      case GcCall(_) =>
      case Poll(_) =>
      case Dispatch =>
      case Return =>
    }
  }

  lemma CallKeepsLife(s: State, s': State, step: Step)
    requires Life(s) && !step.Go? && Enabled(s, step) && DestroysOnce(s, step) && s' == Apply(s, step)
    ensures Life(s')
  {
    CallFrame(s, step);
    forall e | e in s'.events
      ensures EventOk(s'.events[e])
    {
      CallKeepsEventOk(s, step, e);
    }
    forall e | e in s.events
      ensures e in s'.events && CallChanges(step, s.events[e], s'.events[e])
    {
      CallEvent(s, step, e);
    }
    NoReleaseKeepsLife(s, s');
  }

  /** No step has touched what a thread relies on about an event's destruction. */
  predicate SameLife(ev: Event, ev': Event) {
    && ev'.destroyer == ev.destroyer && ev'.destroyed == ev.destroyed
    && ev'.closing == ev.closing && ev'.dereg == ev.dereg && ev'.released == ev.released
  }

  /** What other threads may not do to thread `u`: move it, disturb the event it destroys, take or
      give back its reactor mutex, or touch the batch of the reactor thread. */
  ghost predicate Undisturbed(s: State, s': State, u: Tid) {
    var pc := PcOf(s, u);
    && PcOf(s', u) == pc && s.events.Keys <= s'.events.Keys
    && (pc.Destroying() && pc.e in s.events ==>
          SameLife(s.events[pc.e], s'.events[pc.e]) && (pc.e !in s.gc ==> pc.e !in s'.gc))
    && (s'.rmtx == Some(u) <==> s.rmtx == Some(u))
    && (u == REACTOR ==> s'.batch == s.batch && s'.inCallback == s.inCallback)
  }

  lemma ThreadKept(s: State, s': State, u: Tid)
    requires ThreadOk(s, u) && Undisturbed(s, s', u)
    ensures ThreadOk(s', u)
  {
  }

  /** A thread takes the reactor mutex only when it is free, and gives back only its own. */
  lemma GoLocksOwn(s: State, t: Tid, u: Tid)
    requires ThreadOk(s, t) && Enabled(s, Go(t)) && u != t
    ensures Apply(s, Go(t)).rmtx == Some(u) <==> s.rmtx == Some(u)
  {
    match PcOf(s, t) {
      case Mark(_, _) =>
      case Dereg(_, _) =>
      case Queue(_, _) =>
      case Link(_, _) =>
      case Unlock(_, _) =>
      case Release(_, _) =>
      case SubLock(_, _) =>
      case SubMark(_, _) =>
      case SubEnable(_) =>
      case SubUnlock(_) =>
      case GcLock =>
      case GcLoop =>
    }
  }

  /** Nobody else is inside destroy of an event that a thread destroys, or takes it from the queue. */
  lemma GoLeavesDestroyed(s: State, s': State, t: Tid, u: Tid)
    requires Alive(s) && Enabled(s, Go(t)) && s' == Apply(s, Go(t)) && u != t && PcOf(s, u).Destroying()
    ensures var e := PcOf(s, u).e;
            && e in s.events && e in s'.events && SameLife(s.events[e], s'.events[e])
            && (e !in s.gc ==> e !in s'.gc)
  {
    assert ThreadOk(s, t) && ThreadOk(s, u);
    var e := PcOf(s, u).e;
    GoEvent(s, t, e);
    GoFrame(s, t);
    if PcOf(s, t).GcLoop? {
      GcEvent(s, t, e);
      GoUnqueues(s, t);
    }
  }

  lemma GoDisturbsNoOther(s: State, s': State, t: Tid, u: Tid)
    requires Alive(s) && Enabled(s, Go(t)) && s' == Apply(s, Go(t)) && u != t
    ensures Undisturbed(s, s', u)
  {
    assert ThreadOk(s, t);
    GoFrame(s, t);
    OthersStay(s, t, u);
    GoLocksOwn(s, t, u);
    if PcOf(s, u).Destroying() {
      GoLeavesDestroyed(s, s', t, u);
    }
  }

  lemma DestroyBegins(s: State, t: Tid)
    requires ThreadOk(s, t) && Enabled(s, Go(t)) && (PcOf(s, t).Mark? || PcOf(s, t).Dereg?)
    ensures ThreadOk(Apply(s, Go(t)), t)
  {
    match PcOf(s, t) {
      case Mark(_, _) =>
      case Dereg(_, _) =>
    }
  }

  lemma DestroyQueues(s: State, t: Tid)
    requires ThreadOk(s, t) && Enabled(s, Go(t)) && (PcOf(s, t).Queue? || PcOf(s, t).Link?)
    ensures ThreadOk(Apply(s, Go(t)), t)
  {
    match PcOf(s, t) {
      case Queue(_, _) =>
      case Link(_, _) =>
    }
  }

  lemma DestroyFinishes(s: State, t: Tid)
    requires ThreadOk(s, t) && Enabled(s, Go(t)) && (PcOf(s, t).Unlock? || PcOf(s, t).Release?)
    ensures ThreadOk(Apply(s, Go(t)), t)
  {
    match PcOf(s, t) {
      case Unlock(_, _) =>
      case Release(_, _) =>
    }
  }

  lemma DestroyerGoesOn(s: State, t: Tid)
    requires ThreadOk(s, t) && Enabled(s, Go(t)) && PcOf(s, t).Destroying()
    ensures ThreadOk(Apply(s, Go(t)), t)
  {
    var pc := PcOf(s, t);
    if pc.Mark? || pc.Dereg? {
      DestroyBegins(s, t);
    } else if pc.Queue? || pc.Link? {
      DestroyQueues(s, t);
    } else {
      DestroyFinishes(s, t);
    }
  }

  lemma SubmitterGoesOn(s: State, t: Tid)
    requires ThreadOk(s, t) && Enabled(s, Go(t)) && PcOf(s, t).Submitting()
    ensures ThreadOk(Apply(s, Go(t)), t)
  {
    match PcOf(s, t) {
      case SubLock(_, _) =>
      case SubMark(_, _) =>
      case SubEnable(_) =>
      case SubUnlock(_) =>
    }
  }

  lemma CollectorGoesOn(s: State, t: Tid)
    requires Alive(s) && Enabled(s, Go(t)) && PcOf(s, t).Collecting()
    ensures ThreadOk(Apply(s, Go(t)), t)
  {
    assert ThreadOk(s, t);
    match PcOf(s, t) {
      case GcLock =>
      case GcLoop =>
    }
  }

  lemma GoKeepsThreads(s: State, t: Tid)
    requires Alive(s) && Enabled(s, Go(t))
    ensures Threads(Apply(s, Go(t)))
  {
    var s' := Apply(s, Go(t));
    forall u
      ensures ThreadOk(s', u)
    {
      assert ThreadOk(s, u);
      if u != t {
        GoDisturbsNoOther(s, s', t, u);
        ThreadKept(s, s', u);
      } else if PcOf(s, t).Destroying() {
        DestroyerGoesOn(s, t);
      } else if PcOf(s, t).Submitting() {
        SubmitterGoesOn(s, t);
      } else {
        CollectorGoesOn(s, t);
      }
    }
  }

  /** A second destroy is the only call that could disturb a thread inside destroy. */
  lemma CallDisturbsNoOther(s: State, s': State, step: Step, u: Tid)
    requires Threads(s) && !step.Go? && Enabled(s, step) && DestroysOnce(s, step) && s' == Apply(s, step)
    requires u != Actor(step)
    ensures Undisturbed(s, s', u)
  {
    assert ThreadOk(s, u);
    CallFrame(s, step);
    CallMovesNoOther(s, step, u);
    if PcOf(s, u).Destroying() {
      CallEvent(s, step, PcOf(s, u).e);
    }
  }

  lemma DestroyerStarts(s: State, step: Step)
    requires Life(s) && step.DestroyCall? && Enabled(s, step) && DestroysOnce(s, step) && ThreadOk(s, step.t)
    ensures ThreadOk(Apply(s, step), step.t)
  {
    assert EventOk(s.events[step.e]);
  }

  lemma CallerGoesOn(s: State, step: Step)
    requires Alive(s) && !step.Go? && Enabled(s, step) && DestroysOnce(s, step)
    ensures ThreadOk(Apply(s, step), Actor(step))
  {
    assert ThreadOk(s, Actor(step));
    match step {
      case Create(_, _, _, _) =>
      case DestroyCall(_, _) => DestroyerStarts(s, step);
      case SubmitCall(_, _, _) =>
      case GcCall(_) =>
      case Poll(_) =>
      case Dispatch =>
      case Return =>
    }
  }

  lemma CallKeepsThreads(s: State, step: Step)
    requires Alive(s) && !step.Go? && Enabled(s, step) && DestroysOnce(s, step)
    ensures Threads(Apply(s, step))
  {
    var s' := Apply(s, step);
    forall u
      ensures ThreadOk(s', u)
    {
      assert ThreadOk(s, u);
      if u == Actor(step) {
        CallerGoesOn(s, step);
      } else {
        CallDisturbsNoOther(s, s', step, u);
        ThreadKept(s, s', u);
      }
    }
  }

  /** Every step keeps the stages of destruction, if destroy is called once per event. */
  lemma StepKeepsAlive(s: State, step: Step)
    requires Alive(s) && Enabled(s, step) && DestroysOnce(s, step)
    ensures Alive(Apply(s, step))
  {
    if step.Go? {
      GoKeepsLife(s, Apply(s, step), step.t);
      GoKeepsThreads(s, step.t);
    } else {
      CallKeepsLife(s, Apply(s, step), step);
      CallKeepsThreads(s, step);
    }
  }

  // ----- filters and entries belong to their events, in every run

  ghost predicate KeyOk(s: State, k: Key)
    requires k in s.knotes
  {
    var u := s.knotes[k].udata;
    u in s.events && k in Keys(s.events[u])
  }

  ghost predicate EntryKeyed(s: State, x: Entry) {
    x.e in s.events && (x.ident, x.f) in Keys(s.events[x.e])
  }

  /** Filters and entries point to the event that they are named after, and a batch holds each
      filter at most once. */
  ghost predicate Keyed(s: State) {
    && (forall k :: k in s.knotes ==> KeyOk(s, k))
    && (forall i :: 0 <= i < |s.batch| ==> EntryKeyed(s, s.batch[i]))
    && (forall i, j :: 0 <= i < j < |s.batch| ==> !SameKey(s.batch[i], s.batch[j]))
  }

  /** No event disappears or changes its name or kind. */
  ghost predicate SameNames(s: State, s': State) {
    && s.events.Keys <= s'.events.Keys
    && forall e :: e in s.events ==> s'.events[e].ident == s.events[e].ident && s'.events[e].kind == s.events[e].kind
  }

  lemma NamesKept(s: State, step: Step)
    requires Enabled(s, step)
    ensures SameNames(s, Apply(s, step))
  {
    var s' := Apply(s, step);
    forall e | e in s.events
      ensures e in s'.events && Grows(s.events[e], s'.events[e])
    {
      StepEvent(s, step, e);
    }
  }

  /** A thread inside destroy, submit or gc adds no filter and renames none but to the event it enables. */
  lemma GoKeepsKeys(s: State, t: Tid)
    requires Enabled(s, Go(t))
    ensures var s' := Apply(s, Go(t));
            forall k :: k in s'.knotes ==>
              && k in s.knotes
              && (s'.knotes[k] == s.knotes[k]
                  || (PcOf(s, t).SubEnable? && s'.knotes[k].udata == PcOf(s, t).e && k in Keys(s.events[PcOf(s, t).e])))
  {
    match PcOf(s, t) {
      case Mark(_, _) =>
      case Dereg(_, _) =>
      case Queue(_, _) =>
      case Link(_, _) =>
      case Unlock(_, _) =>
      case Release(_, _) =>
      case SubLock(_, _) =>
      case SubMark(_, _) =>
      case SubEnable(_) =>
      case SubUnlock(_) =>
      case GcLock =>
      case GcLoop =>
    }
  }

  lemma StillKeyed(s: State, s': State)
    requires Keyed(s) && SameNames(s, s')
    requires forall k :: k in s'.knotes ==> (k in s.knotes && s'.knotes[k].udata == s.knotes[k].udata) || KeyOk(s', k)
    requires s'.batch == s.batch || (s.batch != [] && s'.batch == s.batch[1..])
    ensures Keyed(s')
  {
    forall k | k in s'.knotes
      ensures KeyOk(s', k)
    {
      assert k in s.knotes ==> KeyOk(s, k);
    }
    forall i | 0 <= i < |s'.batch|
      ensures EntryKeyed(s', s'.batch[i])
    {
      assert EntryKeyed(s, if s'.batch == s.batch then s.batch[i] else s.batch[i + 1]);
    }
  }

  lemma GoKeepsKeyed(s: State, s': State, t: Tid)
    requires Keyed(s) && Enabled(s, Go(t)) && s' == Apply(s, Go(t))
    ensures Keyed(s')
  {
    NamesKept(s, Go(t));
    GoFrame(s, t);
    GoKeepsKeys(s, t);
    StillKeyed(s, s');
  }

  lemma CreateKeepsKeyed(s: State, step: Step)
    requires Keyed(s) && step.Create? && Enabled(s, step)
    ensures Keyed(Apply(s, step))
  {
    NamesKept(s, step);
    StillKeyed(s, Apply(s, step));
  }

  lemma PollKeepsKeyed(s: State, step: Step)
    requires Keyed(s) && step.Poll? && Enabled(s, step)
    ensures Keyed(Apply(s, step))
  {
    var s' := Apply(s, step);
    forall k | k in s'.knotes
      ensures KeyOk(s', k)
    {
      assert KeyOk(s, k);
    }
    forall i | 0 <= i < |s'.batch|
      ensures EntryKeyed(s', s'.batch[i])
    {
      var x := s'.batch[i];
      assert Deliverable(s, x) && KeyOk(s, (x.ident, x.f));
    }
  }

  lemma KeyedKept(s: State, step: Step)
    requires Keyed(s) && Enabled(s, step)
    ensures Keyed(Apply(s, step))
  {
    match step {
      case Go(t) => GoKeepsKeyed(s, Apply(s, step), t);
      case Create(_, _, _, _) => CreateKeepsKeyed(s, step);
      case Poll(_) => PollKeepsKeyed(s, step);
      case _ =>
        NamesKept(s, step);
        CallFrame(s, step);
        StillKeyed(s, Apply(s, step));
    }
  }

  // ----- nothing points at a released event

  /** The kernel points to no event that has been deregistered. */
  ghost predicate Knotes(s: State) {
    forall k :: k in s.knotes ==> s.knotes[k].udata in s.events && !s.events[s.knotes[k].udata].dereg
  }

  /** No entry of the batch points to an event that has been released. */
  ghost predicate Batch(s: State) {
    forall i :: 0 <= i < |s.batch| ==> s.batch[i].e in s.events && !s.events[s.batch[i].e].released
  }

  /** What the reactor thread destroys has no entry left in the batch. */
  ghost predicate Spared(s: State) {
    PcOf(s, REACTOR).Destroying() ==> NoEntry(s, PcOf(s, REACTOR).e)
  }

  ghost predicate Memory(s: State) {
    Knotes(s) && Batch(s) && Spared(s)
  }

  ghost predicate Inv(s: State) {
    Alive(s) && Keyed(s) && Memory(s)
  }

  /** A submit that enables filters of an event already deregistered finds none of them registered. */
  ghost predicate EnablesOwn(s: State, step: Step) {
    step.Go? && PcOf(s, step.t).SubEnable? && PcOf(s, step.t).e in s.events && s.events[PcOf(s, step.t).e].dereg
    ==> Keys(s.events[PcOf(s, step.t).e]) !! s.knotes.Keys
  }

  predicate SameFate(ev: Event, ev': Event) {
    ev'.dereg == ev.dereg && ev'.released == ev.released
  }

  /** A step that deregisters, releases, delivers and enables nothing. */
  lemma SameFatesKeepMemory(s: State, s': State)
    requires Memory(s) && Spared(s') && s'.events.Keys == s.events.Keys
    requires forall e :: e in s.events ==> SameFate(s.events[e], s'.events[e])
    requires s'.knotes == s.knotes && (s'.batch == s.batch || (s.batch != [] && s'.batch == s.batch[1..]))
    ensures Memory(s')
  {
  }

  lemma ReactorKeepsSpared(s: State)
    requires ThreadOk(s, REACTOR) && Spared(s) && Enabled(s, Go(REACTOR))
    ensures Spared(Apply(s, Go(REACTOR)))
  {
    GoFrame(s, REACTOR);
    match PcOf(s, REACTOR) {
      case Mark(_, _) =>
      case Dereg(_, _) =>
      case Release(_, _) =>
      case SubLock(_, _) =>
      case SubMark(_, _) =>
      case SubEnable(_) =>
      case SubUnlock(_) =>
      case GcLock =>
      case GcLoop =>
    }
  }

  lemma GoKeepsSpared(s: State, s': State, t: Tid)
    requires Alive(s) && Spared(s) && Enabled(s, Go(t)) && s' == Apply(s, Go(t))
    ensures Spared(s')
  {
    assert ThreadOk(s, REACTOR);
    if t == REACTOR {
      ReactorKeepsSpared(s);
    } else {
      GoFrame(s, t);
      OthersStay(s, t, REACTOR);
    }
  }

  /** Deregistering removes every filter that points to the event. */
  lemma DeregKeepsMemory(s: State, t: Tid)
    requires Inv(s) && PcOf(s, t).Dereg? && Enabled(s, Go(t))
    ensures var s' := Apply(s, Go(t)); Knotes(s') && Batch(s')
  {
    assert forall k :: k in s.knotes ==> KeyOk(s, k);
  }

  /** What is released has no entry, and no filter points to it. */
  lemma ReleaseKeepsMemory(s: State, t: Tid)
    requires Inv(s) && PcOf(s, t).Release? && Enabled(s, Go(t))
    ensures var s' := Apply(s, Go(t)); Knotes(s') && Batch(s')
  {
    assert ThreadOk(s, t);
  }

  lemma EnabledKeepsKnotes(s: State, s': State, e: Eid)
    requires Knotes(s) && e in s.events && s'.events.Keys == s.events.Keys && s'.knotes == Enable(s, e)
    requires forall e' :: e' in s.events ==> SameFate(s.events[e'], s'.events[e'])
    requires s.events[e].dereg ==> Keys(s.events[e]) !! s.knotes.Keys
    ensures Knotes(s')
  {
  }

  /** Enabling touches only filters that are registered, so it points none at a deregistered event. */
  lemma SubEnableKeepsMemory(s: State, t: Tid)
    requires Memory(s) && PcOf(s, t).SubEnable? && Enabled(s, Go(t)) && EnablesOwn(s, Go(t))
    ensures var s' := Apply(s, Go(t)); Knotes(s') && Batch(s')
  {
    EnableEffect(s, t);
    EnabledKeepsKnotes(s, Apply(s, Go(t)), PcOf(s, t).e);
  }

  lemma GoKeepsMemory(s: State, s': State, t: Tid)
    requires Inv(s) && Enabled(s, Go(t)) && EnablesOwn(s, Go(t)) && s' == Apply(s, Go(t))
    ensures Memory(s')
  {
    GoKeepsSpared(s, s', t);
    var pc := PcOf(s, t);
    if pc.Dereg? {
      DeregKeepsMemory(s, t);
    } else if pc.Release? {
      ReleaseKeepsMemory(s, t);
    } else if pc.SubEnable? {
      SubEnableKeepsMemory(s, t);
    } else {
      GoFrame(s, t);
      forall e | e in s.events
        ensures SameFate(s.events[e], s'.events[e])
      {
        GoEvent(s, t, e);
      }
      SameFatesKeepMemory(s, s');
    }
  }

  lemma CreateKeepsMemory(s: State, step: Step)
    requires Memory(s) && Keyed(s) && step.Create? && Enabled(s, step)
    ensures Memory(Apply(s, step))
  {
  }

  /** A batch names only events whose filters the kernel knows. */
  lemma PollKeepsMemory(s: State, step: Step)
    requires Inv(s) && step.Poll? && Enabled(s, step)
    ensures Memory(Apply(s, step))
  {
    forall i | 0 <= i < |step.entries|
      ensures step.entries[i].e in s.events && !s.events[step.entries[i].e].released
    {
      assert Deliverable(s, step.entries[i]) && EventOk(s.events[step.entries[i].e]);
    }
  }

  lemma CallKeepsSpared(s: State, step: Step)
    requires Spared(s) && Enabled(s, step) && SparesPending(s, step) && !step.Go? && !step.Poll?
    ensures Spared(Apply(s, step))
  {
    match step {
      case Create(_, _, _, _) =>
      case DestroyCall(_, _) =>
      case SubmitCall(_, _, _) =>
      case GcCall(_) =>
      case Dispatch =>
      case Return =>
    }
  }

  lemma CallKeepsMemory(s: State, s': State, step: Step)
    requires Memory(s) && Enabled(s, step) && SparesPending(s, step) && s' == Apply(s, step)
    requires !step.Go? && !step.Create? && !step.Poll?
    ensures Memory(s')
  {
    CallKeepsSpared(s, step);
    CallFrame(s, step);
    forall e | e in s.events
      ensures e in s'.events && SameFate(s.events[e], s'.events[e])
    {
      CallEvent(s, step, e);
    }
    SameFatesKeepMemory(s, s');
  }

  /** Every step keeps the invariant, if destroy is called once per event, callbacks spare what has
      an entry left, and no submit enables a filter for an event that lost it. */
  lemma StepKeeps(s: State, step: Step)
    requires Inv(s) && Enabled(s, step)
    requires DestroysOnce(s, step) && SparesPending(s, step) && EnablesOwn(s, step)
    ensures Inv(Apply(s, step))
  {
    StepKeepsAlive(s, step);
    KeyedKept(s, step);
    match step {
      case Go(t) => GoKeepsMemory(s, Apply(s, step), t);
      case Create(_, _, _, _) => CreateKeepsMemory(s, step);
      case Poll(_) => PollKeepsMemory(s, step);
      case _ => CallKeepsMemory(s, Apply(s, step), step);
    }
  }

  // ----- filters of one number have one owner

  ghost predicate Unshared(s: State) {
    forall e, e' :: e in s.events && e' in s.events && e != e' && !s.events[e].released && !s.events[e'].released
                    && s.events[e].ident == s.events[e'].ident
                    ==> Filters(s.events[e].kind) !! Filters(s.events[e'].kind)
  }

  lemma StillUnshared(s: State, s': State)
    requires Unshared(s) && SameNames(s, s') && s'.events.Keys == s.events.Keys
    requires forall e :: e in s.events && s.events[e].released ==> s'.events[e].released
    ensures Unshared(s')
  {
  }

  lemma CreateKeepsUnshared(s: State, step: Step)
    requires Unshared(s) && step.Create? && Enabled(s, step) && OwnsFilters(s, step)
    ensures Unshared(Apply(s, step))
  {
  }

  lemma UnsharedKept(s: State, step: Step)
    requires Unshared(s) && Enabled(s, step) && OwnsFilters(s, step)
    ensures Unshared(Apply(s, step))
  {
    if step.Create? {
      CreateKeepsUnshared(s, step);
    } else {
      var s' := Apply(s, step);
      NamesKept(s, step);
      OnlyCreateAdds(s, step);
      forall e | e in s.events && s.events[e].released
        ensures s'.events[e].released
      {
        StepEvent(s, step, e);
      }
      StillUnshared(s, s');
    }
  }

  /** With one owner per filter, a submit on an unreleased event, however late, finds no foreign one. */
  lemma UnsharedEnablesOwn(s: State, step: Step)
    requires Inv(s) && Unshared(s) && Enabled(s, step) && SubmitsOnUnreleased(s, step)
    ensures EnablesOwn(s, step)
  {
    if step.Go? && PcOf(s, step.t).SubEnable? && s.events[PcOf(s, step.t).e].dereg {
      var e := PcOf(s, step.t).e;
      forall k | k in s.knotes
        ensures k !in Keys(s.events[e])
      {
        assert KeyOk(s, k) && EventOk(s.events[s.knotes[k].udata]);
      }
    }
  }
}
