/** The life of an event: src/event.c, src/reactor.c, src/mac/event_kq.c and
    src/mac/reactor_kq.c as one transition system.

    Threads interleave at every read or write of shared state: destroy and submit are split
    into their lock, field, kernel and list steps. Thread 0 runs the reactor loop; every other
    thread is a user thread. An event is named by a number that is never reused, while its
    file descriptor may be. `evmask` is the set of its bits. */
module Reactor {
  import opened Matching

  type Tid = nat
  type Eid = nat

  const REACTOR: Tid := 0
  const MAX_EVENTS := 64

  // ----- events and the kernel

  datatype Kind = SOCK | TIMER_EV | USER_EV | SIG_EV

  /** EVFILT_* */
  datatype Filter = READ | WRITE | TIMER | USER | SIGNAL

  /** POSIXC_EVENT_* */
  datatype Flag = IN | OUT | TIM | USR | SIG | ERR

  /** The filters that posixc_event_plat_create registers. */
  function Filters(kind: Kind): set<Filter> {
    match kind
    case SOCK => {READ, WRITE}
    case TIMER_EV => {TIMER}
    case USER_EV => {USER}
    case SIG_EV => {SIGNAL}
  }

  /** The bit that makes posixc_event_plat_submit enable a filter. */
  function FlagOf(f: Filter): Flag {
    match f
    case READ => IN
    case WRITE => OUT
    case TIMER => TIM
    case USER => USR
    case SIGNAL => SIG
  }

  /** The bits that consume_ev clears: the filter's own, except that timer events are not consumed. */
  function Consumed(f: Filter, error: bool): set<Flag> {
    (if f == TIMER then {} else {FlagOf(f)}) + (if error then {ERR} else {})
  }

  /** Submitted with EV_DISPATCH: the kernel disables the filter when it delivers it. */
  predicate Dispatched(f: Filter) {
    f == READ || f == WRITE || f == USER
  }

  /** posixc_event. The fields from `destroyed` on are history that no step of the program reads. */
  datatype Event = Event(
    ident: int, kind: Kind, evmask: set<Flag>, closing: bool, mtx: Option<Tid>,
    destroyed: bool,              // user code has called destroy
    destroyer: Option<Tid>,       // the thread inside destroy, if any
    dereg: bool,                  // its filters have been deleted
    released: bool,               // closed and freed
    submits: multiset<Filter>,    // submits that named a filter's bit
    calls: multiset<Filter>,      // deliveries consumed, each followed by its callback
    overlaps: multiset<Filter>)   // times a filter was enabled again while its entry was pending

  /** A registered filter: what it points to and whether it may fire. */
  datatype Knote = Knote(udata: Eid, enabled: bool)

  type Key = (int, Filter)

  /** A kevent of the current batch, not yet dispatched. */
  datatype Entry = Entry(ident: int, f: Filter, e: Eid, error: bool)

  // ----- threads

  /** Where a thread is. `gc` says that the destroy was called from posixc_reactor_gc. */
  datatype Pc =
    | Idle
    // posixc_event_destroy
    | Mark(e: Eid, gc: bool)       // has seen closing == false
    | Dereg(e: Eid, gc: bool)      // has set closing
    | Queue(e: Eid, gc: bool)      // user thread, about to lock the reactor
    | Link(e: Eid, gc: bool)       // holds the reactor mutex
    | Unlock(e: Eid, gc: bool)     // has queued the event
    | Release(e: Eid, gc: bool)    // reactor thread, about to free the event
    // posixc_event_submit
    | SubLock(e: Eid, mask: set<Flag>)
    | SubMark(e: Eid, mask: set<Flag>)
    | SubEnable(e: Eid)
    | SubUnlock(e: Eid)
    // posixc_reactor_gc
    | GcLock                       // about to lock the reactor
    | GcLoop                       // holds the reactor mutex, between two queued events
  {
    predicate Submitting() {
      SubLock? || SubMark? || SubEnable? || SubUnlock?
    }
    predicate Destroying() {
      Mark? || Dereg? || Queue? || Link? || Unlock? || Release?
    }
    predicate Collecting() {
      GcLock? || GcLoop?
    }
    /** The thread is inside a destroy or a submit of the event. */
    predicate Handles(x: Eid) {
      (Destroying() || Submitting()) && e == x
    }
  }

  datatype State = State(
    events: map<Eid, Event>,
    knotes: map<Key, Knote>,
    batch: seq<Entry>,            // what the reactor thread has yet to dispatch
    inCallback: bool,             // the reactor thread is running user code
    pcs: map<Tid, Pc>,
    gc: seq<Eid>,                 // the reactor's gc list
    rmtx: Option<Tid>,            // the reactor's mutex
    freed: seq<Eid>,              // history: the events released, in order
    passFreed: seq<Eid>,          // history: `freed` and `gc` when the reactor thread's
    passQueue: seq<Eid>)          //   current or last gc pass began

  const INIT := State(map[], map[], [], false, map[], [], None, [], [], [])

  function PcOf(s: State, t: Tid): Pc {
    if t in s.pcs then s.pcs[t] else Idle
  }

  function At(s: State, t: Tid, pc: Pc): State {
    s.(pcs := s.pcs[t := pc])
  }

  function Set(s: State, e: Eid, ev: Event): State {
    s.(events := s.events[e := ev])
  }

  /** posixc_event_init */
  function NewEvent(ident: int, kind: Kind): Event {
    Event(ident, kind, {}, false, None, false, None, false, false, multiset{}, multiset{}, multiset{})
  }

  /** The filters of a new event, registered and disabled. */
  function NewKnotes(ident: int, kind: Kind, e: Eid): map<Key, Knote> {
    map f | f in Filters(kind) :: (ident, f) := Knote(e, false)
  }

  // ----- steps

  datatype Step =
    | Create(t: Tid, e: Eid, ident: int, kind: Kind)
    | DestroyCall(t: Tid, e: Eid)
    | SubmitCall(t: Tid, e: Eid, mask: set<Flag>)
    | Go(t: Tid)                     // the next action of a thread inside destroy, submit or gc
    | GcCall(t: Tid)
    | Poll(entries: seq<Entry>)      // kevent() returns a batch
    | Dispatch                       // consume_ev up to the callback
    | Return                         // the callback returns

  /** User code runs on user threads at any time, on the reactor thread inside a callback. */
  predicate RunsUserCode(s: State, t: Tid) {
    PcOf(s, t) == Idle && (t == REACTOR ==> s.inCallback)
  }

  /** The reactor thread is between two batches. */
  predicate BetweenBatches(s: State) {
    PcOf(s, REACTOR) == Idle && !s.inCallback && s.batch == []
  }

  predicate Deliverable(s: State, x: Entry) {
    (x.ident, x.f) in s.knotes && s.knotes[(x.ident, x.f)] == Knote(x.e, true)
  }

  predicate SameKey(x: Entry, y: Entry) {
    x.ident == y.ident && x.f == y.f
  }

  predicate Enabled(s: State, step: Step) {
    match step
    case Create(t, e, ident, kind) => RunsUserCode(s, t) && e !in s.events
    case DestroyCall(t, e) => RunsUserCode(s, t) && e in s.events
    case SubmitCall(t, e, mask) => RunsUserCode(s, t) && e in s.events
    case GcCall(t) => if t == REACTOR then BetweenBatches(s) else PcOf(s, t) == Idle
    case Go(t) => GoEnabled(s, PcOf(s, t))
    case Poll(entries) =>
      && BetweenBatches(s) && |entries| <= MAX_EVENTS
      && (forall i :: 0 <= i < |entries| ==> Deliverable(s, entries[i]))
      && (forall i, j :: 0 <= i < j < |entries| ==> !SameKey(entries[i], entries[j]))
    case Dispatch =>
      && PcOf(s, REACTOR) == Idle && !s.inCallback && s.batch != []
      && s.batch[0].e in s.events && s.events[s.batch[0].e].mtx == None
    case Return => s.inCallback && PcOf(s, REACTOR) == Idle
  }

  predicate GoEnabled(s: State, pc: Pc) {
    match pc
    case Idle => false
    case GcLock => s.rmtx == None
    case GcLoop => s.gc != [] ==> s.gc[0] in s.events
    case Queue(e, gc) => e in s.events && s.rmtx == None
    case SubLock(e, mask) => e in s.events && s.events[e].mtx == None
    case _ => pc.e in s.events
  }

  function Apply(s: State, step: Step): State
    requires Enabled(s, step)
  {
    match step
    case Create(t, e, ident, kind) =>
      Set(s, e, NewEvent(ident, kind))
      .(knotes := s.knotes + NewKnotes(ident, kind, e))
    case DestroyCall(t, e) =>
      var ev := s.events[e];
      var pc := if !ev.closing then Mark(e, false) else if t == REACTOR then Release(e, false) else Idle;
      At(Set(s, e, ev.(destroyed := true, destroyer := if pc.Idle? then ev.destroyer else Some(t))), t, pc)
    case SubmitCall(t, e, mask) =>
      if s.events[e].closing then s else At(s, t, SubLock(e, mask))
    case GcCall(t) => At(s, t, GcLock)
    case Go(t) => GoApply(s, t, PcOf(s, t))
    case Poll(entries) =>
      s.(batch := entries, knotes := map k | k in s.knotes :: Delivered(s.knotes[k], k, entries))
    case Dispatch =>
      var x := s.batch[0];
      var ev := s.events[x.e];
      Set(s, x.e, AfterEntry(ev, x))
      .(batch := s.batch[1..], inCallback := true)
    case Return => s.(inCallback := false)
  }

  /** posixc_event_consume */
  function AfterEntry(ev: Event, x: Entry): Event {
    ev.(evmask := ev.evmask - Consumed(x.f, x.error), calls := ev.calls + multiset{x.f})
  }

  /** The kernel's side of a delivery. */
  function Delivered(n: Knote, k: Key, entries: seq<Entry>): Knote {
    if Dispatched(k.1) && exists i :: 0 <= i < |entries| && entries[i].ident == k.0 && entries[i].f == k.1
    then n.(enabled := false) else n
  }

  /** The keys of an event's registered filters. */
  function Keys(ev: Event): set<Key> {
    set f | f in Filters(ev.kind) :: (ev.ident, f)
  }

  /** posixc_event_plat_submit: enables, and never adds, the filters whose bits are set. */
  function Enable(s: State, e: Eid): map<Key, Knote>
    requires e in s.events
  {
    var ev := s.events[e];
    map k | k in s.knotes ::
      if k in Keys(ev) && FlagOf(k.1) in ev.evmask then Knote(e, true) else s.knotes[k]
  }

  /** An entry of filter `f` of event `e` waits in the batch. */
  predicate Pending(s: State, e: Eid, f: Filter) {
    exists i :: 0 <= i < |s.batch| && s.batch[i].e == e && s.batch[i].f == f
  }

  /** A submit that runs now enables a filter that the kernel had disabled when it delivered the
      entry that still waits. */
  predicate Overlaps(s: State, e: Eid, f: Filter)
    requires e in s.events
  {
    var ev := s.events[e];
    && f in Filters(ev.kind) && FlagOf(f) in ev.evmask && Pending(s, e, f)
    && (ev.ident, f) in s.knotes && s.knotes[(ev.ident, f)] != Knote(e, true)
  }

  function GoApply(s: State, t: Tid, pc: Pc): State
    requires GoEnabled(s, pc)
  {
    match pc
    case Mark(e, gc) => At(Set(s, e, s.events[e].(closing := true)), t, Dereg(e, gc))
    case Dereg(e, gc) =>
      var ev := s.events[e];
      At(Set(s, e, ev.(dereg := true)), t, if t == REACTOR then Release(e, gc) else Queue(e, gc))
      .(knotes := s.knotes - Keys(ev))
    case Queue(e, gc) => At(s, t, Link(e, gc)).(rmtx := Some(t))
    case Link(e, gc) => At(s, t, Unlock(e, gc)).(gc := s.gc + [e])
    case Unlock(e, gc) =>
      At(Set(s, e, s.events[e].(destroyer := None)), t, if gc then GcLoop else Idle).(rmtx := None)
    case Release(e, gc) =>
      // close() drops whatever READ and WRITE filters the number has, whoever owns them
      var ev := s.events[e];
      At(Set(s, e, ev.(released := true, destroyer := None)), t, if gc then GcLoop else Idle)
      .(knotes := s.knotes - {(ev.ident, READ), (ev.ident, WRITE)}, freed := s.freed + [e])
    case GcLock =>
      var s' := At(s, t, GcLoop).(rmtx := Some(t));
      if t == REACTOR then s'.(passFreed := s.freed, passQueue := s.gc) else s'
    case GcLoop =>
      if s.gc == [] then At(s, t, Idle).(rmtx := None)
      else
        var e := s.gc[0];
        var s' := s.(gc := s.gc[1..]);
        if !s.events[e].closing then At(Set(s', e, s.events[e].(destroyer := Some(t))), t, Mark(e, true))
        else if t == REACTOR then At(Set(s', e, s.events[e].(destroyer := Some(t))), t, Release(e, true))
        else s'
    case SubLock(e, mask) => At(Set(s, e, s.events[e].(mtx := Some(t))), t, SubMark(e, mask))
    case SubMark(e, mask) =>
      var ev := s.events[e];
      var named := multiset(set f | f in Filters(ev.kind) && FlagOf(f) in mask);
      At(Set(s, e, ev.(evmask := ev.evmask + mask, submits := ev.submits + named)), t, SubEnable(e))
    case SubEnable(e) =>
      var ev := s.events[e];
      var again := multiset(set f | f in Filters(ev.kind) && Overlaps(s, e, f));
      At(Set(s, e, ev.(overlaps := ev.overlaps + again)), t, SubUnlock(e)).(knotes := Enable(s, e))
    case SubUnlock(e) => At(Set(s, e, s.events[e].(mtx := None)), t, Idle)
  }

  // ----- what the library asks of its callers

  /** Destroy is called once per event. */
  predicate DestroysOnce(s: State, step: Step) {
    step.DestroyCall? && step.e in s.events ==> !s.events[step.e].destroyed
  }

  /** A callback does not destroy an event that has an entry left in the batch. */
  ghost predicate SparesPending(s: State, step: Step) {
    step.DestroyCall? && step.t == REACTOR ==> NoEntry(s, step.e)
  }

  /** No two unreleased events register the same filter of one number. */
  ghost predicate OwnsFilters(s: State, step: Step) {
    step.Create? ==>
      forall e' :: e' in s.events && !s.events[e'].released && s.events[e'].ident == step.ident
                   ==> Filters(s.events[e'].kind) !! Filters(step.kind)
  }

  ghost predicate Disciplined(s: State, step: Step) {
    DestroysOnce(s, step) && SparesPending(s, step) && OwnsFilters(s, step)
  }

  ghost predicate NoEntry(s: State, e: Eid) {
    forall i :: 0 <= i < |s.batch| ==> s.batch[i].e != e
  }

  /** No submit runs on an event that has been released. Submits may still race with destroy. */
  predicate SubmitsOnUnreleased(s: State, step: Step) {
    match step
    case SubmitCall(t, e, mask) => e in s.events ==> !s.events[e].released
    case Go(t) => var pc := PcOf(s, t); pc.Submitting() && pc.e in s.events ==> !s.events[pc.e].released
    case _ => true
  }

  /** The stricter rule a caller can keep by itself: no submit starts once destroy was called,
      and destroy is not called while a submit is under way. */
  ghost predicate GivesUpOnDestroy(s: State, step: Step) {
    match step
    case SubmitCall(t, e, mask) => e in s.events ==> !s.events[e].destroyed
    case DestroyCall(t, e) => forall t' :: PcOf(s, t').Submitting() ==> PcOf(s, t').e != e
    case _ => true
  }

  // ----- runs

  ghost predicate IsPath(states: seq<State>, steps: seq<Step>) {
    && |states| == |steps| + 1
    && forall i {:trigger steps[i]} :: 0 <= i < |steps| ==>
         Enabled(states[i], steps[i]) && states[i + 1] == Apply(states[i], steps[i])
  }

  ghost predicate IsRun(states: seq<State>, steps: seq<Step>) {
    IsPath(states, steps) && states[0] == INIT
  }

  /** Destroy is called once per event. */
  ghost predicate OneDestroyEach(states: seq<State>, steps: seq<Step>) {
    && |states| == |steps| + 1
    && forall i {:trigger steps[i]} :: 0 <= i < |steps| ==> DestroysOnce(states[i], steps[i])
  }

  /** Every step keeps the callers' rules; submits may race with destroy. */
  ghost predicate RulesKept(states: seq<State>, steps: seq<Step>) {
    && |states| == |steps| + 1
    && forall i {:trigger steps[i]} :: 0 <= i < |steps| ==>
         Disciplined(states[i], steps[i]) && SubmitsOnUnreleased(states[i], steps[i])
  }

  /** The events whose memory a step reads or writes. */
  function Touched(s: State, step: Step): set<Eid>
    requires Enabled(s, step)
  {
    match step
    case DestroyCall(t, e) => {e}
    case SubmitCall(t, e, mask) => {e}
    case Dispatch => {s.batch[0].e}
    case Go(t) =>
      var pc := PcOf(s, t);
      if pc.GcLoop? then set i | 0 <= i < |s.gc| && i < 2 :: s.gc[i]
      else if pc.GcLock? then {}
      else {pc.e} + if pc.Link? && s.gc != [] then {s.gc[|s.gc| - 1]} else {}
    case _ => {}
  }
}
