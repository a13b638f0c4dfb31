/** src/mac/event_kq.c: the change lists handed to kevent(), and their effect on the kernel's
    filters. The transition system of module Reactor states these effects directly; here the
    kernel is driven by the lists the source builds, errors included, and is proved to follow
    the transition system in every run. */
module KqueueChanges {
  import opened Matching
  import opened Reactor
  import opened ReactorFrames

  /** EV_* */
  datatype KqFlag = ADD | DELETE | ENABLE | DISABLE | DISPATCH | CLEAR

  /** struct kevent, as EV_SET fills it */
  datatype Change = Change(ident: int, f: Filter, flags: set<KqFlag>, udata: Eid) {
    function Key(): Key {
      (ident, f)
    }
  }

  /** A filter in the kernel: whom it points to, whether it may fire, and whether it is disabled when it does. */
  datatype KFilter = KFilter(udata: Eid, enabled: bool, once: bool)

  type Kernel = map<Key, KFilter>

  /** One change: adding makes the filter, enabled unless it says otherwise; deleting and enabling need it to exist. */
  function ApplyChange(kernel: Kernel, c: Change): Option<Kernel> {
    if ADD in c.flags then Some(kernel[c.Key() := KFilter(c.udata, DISABLE !in c.flags, DISPATCH in c.flags)])
    else if c.Key() !in kernel then None
    else if DELETE in c.flags then Some(kernel - {c.Key()})
    else if ENABLE in c.flags then Some(kernel[c.Key() := KFilter(c.udata, true, DISPATCH in c.flags)])
    else Some(kernel)
  }

  /** kevent() with a change list and no room for events: the changes in order, up to the first error. */
  function Kevent(kernel: Kernel, changes: seq<Change>): (Kernel, bool)
    decreases |changes|
  {
    if changes == [] then (kernel, true)
    else match ApplyChange(kernel, changes[0])
      case None => (kernel, false)
      case Some(k) => Kevent(k, changes[1..])
  }

  /** kevent() with room for events has delivered these. */
  function Deliver(kernel: Kernel, entries: seq<Entry>): Kernel {
    map k | k in kernel ::
      if kernel[k].once && exists i :: 0 <= i < |entries| && (entries[i].ident, entries[i].f) == k
      then kernel[k].(enabled := false) else kernel[k]
  }

  /** close() of a descriptor drops its filters. */
  function CloseFd(kernel: Kernel, fd: int): Kernel {
    kernel - {(fd, READ), (fd, WRITE)}
  }

  // ----- the lists

  /** The filters that an event of each kind registers, as src/mac/event_kq.c:85-106 lists them. */
  ghost predicate FilterOf(kind: Kind, f: Filter) {
    || (kind == SOCK && (f == READ || f == WRITE))
    || (kind == TIMER_EV && f == TIMER)
    || (kind == USER_EV && f == USER)
    || (kind == SIG_EV && f == SIGNAL)
  }

  /** The filters that a submit enables, as src/mac/event_kq.c:134-147 lists them. */
  ghost predicate SubmitsFilter(kind: Kind, evmask: set<Flag>, f: Filter) {
    || (kind == SOCK && f == READ && IN in evmask)
    || (kind == SOCK && f == WRITE && OUT in evmask)
    || (kind == TIMER_EV && f == TIMER && TIM in evmask)
    || (kind == USER_EV && f == USER && USR in evmask)
    || (kind == SIG_EV && f == SIGNAL && SIG in evmask)
  }

  /** The filters that a list names. */
  function FiltersOf(changes: seq<Change>): set<Filter> {
    set i | 0 <= i < |changes| :: changes[i].f
  }

  /** At most two changes of one event, no two of one filter. */
  ghost predicate ListsOnce(changes: seq<Change>, ident: int, e: Eid) {
    && |changes| <= 2 && (|changes| == 2 ==> changes[0].f != changes[1].f)
    && forall i :: 0 <= i < |changes| ==> changes[i].ident == ident && changes[i].udata == e
  }

  ghost predicate IsCreateList(changes: seq<Change>, kind: Kind, ident: int, e: Eid) {
    && ListsOnce(changes, ident, e)
    && (forall f :: f in FiltersOf(changes) <==> FilterOf(kind, f))
    && forall i :: 0 <= i < |changes| ==> changes[i].flags == {ADD, DISABLE, CLEAR}
  }

  ghost predicate IsDestroyList(changes: seq<Change>, kind: Kind, ident: int, e: Eid) {
    && ListsOnce(changes, ident, e)
    && (forall f :: f in FiltersOf(changes) <==> FilterOf(kind, f))
    && forall i :: 0 <= i < |changes| ==> changes[i].flags == {DELETE}
  }

  /** No change adds a filter, and exactly the filters that deliver once carry EV_DISPATCH. */
  ghost predicate IsSubmitList(changes: seq<Change>, kind: Kind, ident: int, e: Eid, evmask: set<Flag>) {
    && ListsOnce(changes, ident, e)
    && (forall f :: f in FiltersOf(changes) <==> SubmitsFilter(kind, evmask, f))
    && forall i :: 0 <= i < |changes| ==>
         && changes[i].flags - {DISPATCH} == {ENABLE, CLEAR}
         && (DISPATCH in changes[i].flags <==> changes[i].f in {READ, WRITE, USER})
  }

  const NEWLY_ADD := {ADD, DISABLE, CLEAR}
  const SUBMIT := {ENABLE, DISPATCH, CLEAR}
  const SUBMIT_KEPT := {ENABLE, CLEAR}

  /** posixc_event_plat_create, up to the system call */
  method CreateChanges(kind: Kind, ident: int, e: Eid) returns (changes: seq<Change>)
    ensures IsCreateList(changes, kind, ident, e)
  {
    var ev := new Change[2](_ => Change(0, READ, {}, 0));
    var i := 0;
    match kind {
      case SOCK =>
        ev[i] := Change(ident, READ, NEWLY_ADD, e);
        i := i + 1;
        ev[i] := Change(ident, WRITE, NEWLY_ADD, e);
        i := i + 1;
      case SIG_EV =>
        ev[i] := Change(ident, SIGNAL, NEWLY_ADD, e);
        i := i + 1;
      case USER_EV =>
        ev[i] := Change(ident, USER, NEWLY_ADD, e);
        i := i + 1;
      case TIMER_EV =>
        ev[i] := Change(ident, TIMER, NEWLY_ADD, e);
        i := i + 1;
    }
    changes := ev[..i];
    assert changes[0] == ev[0] && (i == 2 ==> changes[1] == ev[1]);
  }

  /** posixc_event_plat_destroy, up to the system call */
  method DestroyChanges(kind: Kind, ident: int, e: Eid) returns (changes: seq<Change>)
    ensures IsDestroyList(changes, kind, ident, e)
  {
    var ev := new Change[2](_ => Change(0, READ, {}, 0));
    var i := 0;
    match kind {
      case SOCK =>
        ev[i] := Change(ident, READ, {DELETE}, e);
        i := i + 1;
        ev[i] := Change(ident, WRITE, {DELETE}, e);
        i := i + 1;
      case SIG_EV =>
        ev[i] := Change(ident, SIGNAL, {DELETE}, e);
        i := i + 1;
      case USER_EV =>
        ev[i] := Change(ident, USER, {DELETE}, e);
        i := i + 1;
      case TIMER_EV =>
        ev[i] := Change(ident, TIMER, {DELETE}, e);
        i := i + 1;
    }
    changes := ev[..i];
    assert changes[0] == ev[0] && (i == 2 ==> changes[1] == ev[1]);
  }

  /** posixc_event_plat_submit, up to the system call */
  method SubmitChanges(kind: Kind, ident: int, e: Eid, evmask: set<Flag>) returns (changes: seq<Change>)
    ensures IsSubmitList(changes, kind, ident, e, evmask)
  {
    var ev := new Change[2](_ => Change(0, READ, {}, 0));
    var i := 0;
    match kind {
      case SOCK =>
        if IN in evmask {
          ev[i] := Change(ident, READ, SUBMIT, e);
          i := i + 1;
        }
        if OUT in evmask {
          ev[i] := Change(ident, WRITE, SUBMIT, e);
          i := i + 1;
        }
      case SIG_EV =>
        if SIG in evmask {
          ev[i] := Change(ident, SIGNAL, SUBMIT_KEPT, e);
          i := i + 1;
        }
      case USER_EV =>
        if USR in evmask {
          ev[i] := Change(ident, USER, SUBMIT, e);
          i := i + 1;
        }
      case TIMER_EV =>
        if TIM in evmask {
          ev[i] := Change(ident, TIMER, SUBMIT_KEPT, e);
          i := i + 1;
        }
    }
    changes := ev[..i];
    assert i >= 1 ==> changes[0] == ev[0];
    assert i == 2 ==> changes[1] == ev[1];
  }

  // ----- what kevent() makes of them

  function Named(ident: int, changes: seq<Change>): set<Key> {
    set i | 0 <= i < |changes| :: (ident, changes[i].f)
  }

  lemma NamedTail(ident: int, changes: seq<Change>)
    requires changes != []
    ensures Named(ident, changes) == {(ident, changes[0].f)} + Named(ident, changes[1..])
  {
    forall k | k in Named(ident, changes)
      ensures k in {(ident, changes[0].f)} + Named(ident, changes[1..])
    {
      var i :| 0 <= i < |changes| && k == (ident, changes[i].f);
      assert i > 0 ==> changes[1..][i - 1] == changes[i];
    }
    forall k | k in Named(ident, changes[1..])
      ensures k in Named(ident, changes)
    {
      var i :| 0 <= i < |changes| - 1 && k == (ident, changes[1..][i].f);
      assert changes[i + 1] == changes[1..][i];
    }
  }

  lemma NamedFilters(ident: int, changes: seq<Change>, f: Filter)
    ensures (ident, f) in Named(ident, changes) <==> f in FiltersOf(changes)
  {
  }

  lemma NamedIdent(ident: int, changes: seq<Change>, k: Key)
    ensures k in Named(ident, changes) ==> k == (ident, k.1)
  {
  }

  function Fresh(keys: set<Key>, e: Eid): Kernel {
    map k | k in keys :: KFilter(e, false, false)
  }

  lemma FreshSplit(kernel: Kernel, k: Key, keys: set<Key>, e: Eid)
    ensures kernel[k := KFilter(e, false, false)] + Fresh(keys, e) == kernel + Fresh({k} + keys, e)
  {
  }

  lemma {:induction false} CreateEffect(kernel: Kernel, changes: seq<Change>, ident: int, e: Eid)
    requires forall i :: 0 <= i < |changes| ==> changes[i] == Change(ident, changes[i].f, {ADD, DISABLE, CLEAR}, e)
    ensures Kevent(kernel, changes).1
    ensures Kevent(kernel, changes).0 == kernel + Fresh(Named(ident, changes), e)
    decreases |changes|
  {
    if changes != [] {
      var k := changes[0].Key();
      assert ApplyChange(kernel, changes[0]) == Some(kernel[k := KFilter(e, false, false)]);
      CreateEffect(kernel[k := KFilter(e, false, false)], changes[1..], ident, e);
      NamedTail(ident, changes);
      FreshSplit(kernel, k, Named(ident, changes[1..]), e);
    }
  }

  /** Deleting filters of which all or none are registered removes them all. */
  lemma {:induction false} DestroyEffect(kernel: Kernel, changes: seq<Change>, ident: int, e: Eid)
    requires forall i :: 0 <= i < |changes| ==> changes[i] == Change(ident, changes[i].f, {DELETE}, e)
    requires forall i, j :: 0 <= i < j < |changes| ==> changes[i].f != changes[j].f
    requires Named(ident, changes) <= kernel.Keys || Named(ident, changes) !! kernel.Keys
    ensures Kevent(kernel, changes).0 == kernel - Named(ident, changes)
    ensures Kevent(kernel, changes).1 <==> Named(ident, changes) <= kernel.Keys
    decreases |changes|
  {
    if changes != [] {
      NamedTail(ident, changes);
      var k := changes[0].Key();
      assert k in Named(ident, changes);
      if k in kernel {
        assert k !in Named(ident, changes[1..]);
        DestroyEffect(kernel - {k}, changes[1..], ident, e);
        assert kernel - {k} - Named(ident, changes[1..]) == kernel - Named(ident, changes);
      }
    }
  }

  ghost predicate EnablesOnce(c: Change, ident: int, e: Eid) {
    && c.ident == ident && c.udata == e && ENABLE in c.flags && ADD !in c.flags && DELETE !in c.flags
    && (DISPATCH in c.flags <==> c.f in {READ, WRITE, USER})
  }

  /** Enabling filters of which all or none are registered enables those that are. */
  lemma {:induction false} SubmitEffect(kernel: Kernel, changes: seq<Change>, ident: int, e: Eid)
    requires forall i :: 0 <= i < |changes| ==> EnablesOnce(changes[i], ident, e)
    requires Named(ident, changes) <= kernel.Keys || Named(ident, changes) !! kernel.Keys
    ensures Kevent(kernel, changes).0
            == map k | k in kernel ::
                 if k in Named(ident, changes) then KFilter(e, true, k.1 in {READ, WRITE, USER}) else kernel[k]
    ensures Kevent(kernel, changes).1 <==> Named(ident, changes) <= kernel.Keys
    decreases |changes|
  {
    if changes != [] {
      NamedTail(ident, changes);
      assert EnablesOnce(changes[0], ident, e);
      var k := changes[0].Key();
      assert k in Named(ident, changes);
      if k in kernel {
        var kernel' := kernel[k := KFilter(e, true, k.1 in {READ, WRITE, USER})];
        assert kernel'.Keys == kernel.Keys;
        SubmitEffect(kernel', changes[1..], ident, e);
      }
    }
  }

  /** Without EV_DISABLE the filters of a new event would be enabled before any submit, and without
      EV_DISPATCH a submitted filter would stay enabled after its delivery. */
  lemma FlagsAreNeeded(kernel: Kernel, ident: int, f: Filter, e: Eid, x: Entry)
    requires x.ident == ident && x.f == f
    ensures ApplyChange(kernel, Change(ident, f, {ADD, CLEAR}, e)).value[(ident, f)] == KFilter(e, true, false)
    ensures (ident, f) in kernel ==>
              var k := ApplyChange(kernel, Change(ident, f, {ENABLE, CLEAR}, e)).value;
              (ident, f) in Deliver(k, [x]) && Deliver(k, [x])[(ident, f)].enabled
    ensures (ident, f) in kernel ==>
              var k := ApplyChange(kernel, Change(ident, f, {ENABLE, DISPATCH, CLEAR}, e)).value;
              (ident, f) in Deliver(k, [x]) && !Deliver(k, [x])[(ident, f)].enabled
  {
    assert [x][0] == x;
  }

  // ----- the transition system's view of the kernel

  /** The kernel's filters as the transition system sees them: it leaves out how they deliver. */
  function Seen(kernel: Kernel): map<Key, Knote> {
    map k | k in kernel :: Knote(kernel[k].udata, kernel[k].enabled)
  }

  /** It sees this kernel, in which exactly the enabled filters of the right sorts fire once. */
  ghost predicate Matches(kernel: Kernel, s: State) {
    && Seen(kernel) == s.knotes
    && forall k :: k in kernel && kernel[k].enabled ==> (kernel[k].once <==> k.1 in {READ, WRITE, USER})
  }

  lemma KeysAreNamed(ev: Event, changes: seq<Change>)
    requires forall f :: f in FiltersOf(changes) <==> FilterOf(ev.kind, f)
    ensures Named(ev.ident, changes) == Keys(ev)
  {
    forall k
      ensures k in Named(ev.ident, changes) <==> k in Keys(ev)
    {
      NamedIdent(ev.ident, changes, k);
      NamedFilters(ev.ident, changes, k.1);
    }
  }

  lemma FreshSeen(kernel: Kernel, keys: set<Key>, e: Eid)
    ensures Seen(kernel + Fresh(keys, e)) == Seen(kernel) + map k | k in keys :: Knote(e, false)
  {
  }

  lemma NewAreNamed(ident: int, kind: Kind, e: Eid, changes: seq<Change>)
    requires forall f :: f in FiltersOf(changes) <==> FilterOf(kind, f)
    ensures NewKnotes(ident, kind, e) == map k | k in Named(ident, changes) :: Knote(e, false)
  {
    KeysAreNamed(NewEvent(ident, kind), changes);
    forall k: Key
      ensures k in NewKnotes(ident, kind, e) <==> k in Named(ident, changes)
    {
      assert k in Keys(NewEvent(ident, kind)) <==> k in Named(ident, changes);
    }
  }

  /** With the lists as built, kevent() does what the transition system's steps say, provided an
      event's filters are registered all or not at all (`AllOrNone` below). */
  lemma CreateMatchesModel(kernel: Kernel, s: State, t: Tid, e: Eid, ident: int, kind: Kind, changes: seq<Change>)
    requires Matches(kernel, s) && Enabled(s, Create(t, e, ident, kind)) && IsCreateList(changes, kind, ident, e)
    ensures Kevent(kernel, changes).1
    ensures Matches(Kevent(kernel, changes).0, Apply(s, Create(t, e, ident, kind)))
  {
    CreateEffect(kernel, changes, ident, e);
    NewAreNamed(ident, kind, e, changes);
    FreshSeen(kernel, Named(ident, changes), e);
    assert Apply(s, Create(t, e, ident, kind)).knotes == s.knotes + NewKnotes(ident, kind, e);
  }

  lemma DestroyMatchesModel(kernel: Kernel, s: State, t: Tid, changes: seq<Change>)
    requires Matches(kernel, s) && PcOf(s, t).Dereg? && Enabled(s, Go(t)) && AllOrNone(s, PcOf(s, t).e)
    requires var ev := s.events[PcOf(s, t).e]; IsDestroyList(changes, ev.kind, ev.ident, PcOf(s, t).e)
    ensures Matches(Kevent(kernel, changes).0, Apply(s, Go(t)))
    ensures Kevent(kernel, changes).1 <==> Keys(s.events[PcOf(s, t).e]) <= s.knotes.Keys
  {
    var e := PcOf(s, t).e;
    var ev := s.events[e];
    KeysAreNamed(ev, changes);
    assert kernel.Keys == s.knotes.Keys;
    DestroyEffect(kernel, changes, ev.ident, e);
    assert Seen(kernel - Keys(ev)) == s.knotes - Keys(ev);
    assert Apply(s, Go(t)).knotes == s.knotes - Keys(ev);
  }

  /** The result of posixc_event_plat_submit: an empty list is refused before the system call. */
  function SubmitAccepted(kernel: Kernel, changes: seq<Change>): bool {
    changes != [] && Kevent(kernel, changes).1
  }

  lemma SubmitNames(ev: Event, changes: seq<Change>, k: Key)
    requires forall f :: f in FiltersOf(changes) <==> SubmitsFilter(ev.kind, ev.evmask, f)
    ensures k in Named(ev.ident, changes) <==> k in Keys(ev) && FlagOf(k.1) in ev.evmask
  {
    NamedIdent(ev.ident, changes, k);
    NamedFilters(ev.ident, changes, k.1);
  }

  /** What the list does to the kernel, and to what is seen of it. */
  lemma SubmitSeen(kernel: Kernel, s: State, e: Eid, changes: seq<Change>)
    requires Matches(kernel, s) && e in s.events && AllOrNone(s, e)
    requires IsSubmitList(changes, s.events[e].kind, s.events[e].ident, e, s.events[e].evmask)
    ensures var kernel' := Kevent(kernel, changes).0;
            && Seen(kernel') == Enable(s, e)
            && forall k :: k in kernel' && kernel'[k].enabled ==> (kernel'[k].once <==> k.1 in {READ, WRITE, USER})
    ensures Kevent(kernel, changes).1 <==> Named(s.events[e].ident, changes) <= s.knotes.Keys
  {
    var ev := s.events[e];
    forall k: Key
      ensures k in Named(ev.ident, changes) <==> k in Keys(ev) && FlagOf(k.1) in ev.evmask
    {
      SubmitNames(ev, changes, k);
    }
    assert kernel.Keys == s.knotes.Keys;
    forall i | 0 <= i < |changes|
      ensures EnablesOnce(changes[i], ev.ident, e)
    {
      var rest := changes[i].flags - {DISPATCH};
      assert ENABLE in rest && ADD !in rest && DELETE !in rest;
    }
    SubmitEffect(kernel, changes, ev.ident, e);
  }

  lemma SubmitMatchesModel(kernel: Kernel, s: State, t: Tid, changes: seq<Change>)
    requires Matches(kernel, s) && PcOf(s, t).SubEnable? && Enabled(s, Go(t)) && AllOrNone(s, PcOf(s, t).e)
    requires var ev := s.events[PcOf(s, t).e]; IsSubmitList(changes, ev.kind, ev.ident, PcOf(s, t).e, ev.evmask)
    ensures Matches(Kevent(kernel, changes).0, Apply(s, Go(t)))
    ensures var ev := s.events[PcOf(s, t).e];
            SubmitAccepted(kernel, changes) <==>
              && Keys(ev) <= s.knotes.Keys
              && exists f :: SubmitsFilter(ev.kind, ev.evmask, f)
  {
    var e := PcOf(s, t).e;
    var ev := s.events[e];
    SubmitSeen(kernel, s, e, changes);
    EnableEffect(s, t);
    if changes != [] {
      var k := (ev.ident, changes[0].f);
      assert changes[0].f in FiltersOf(changes);
      SubmitNames(ev, changes, k);
      assert k in Named(ev.ident, changes);
      forall k' | k' in Named(ev.ident, changes)
        ensures k' in Keys(ev)
      {
        SubmitNames(ev, changes, k');
      }
    } else {
      assert FiltersOf(changes) == {};
    }
  }

  lemma DeliveredSeen(kernel: Kernel, s: State, entries: seq<Entry>, k: Key)
    requires Matches(kernel, s) && k in kernel
    requires forall i :: 0 <= i < |entries| ==> Deliverable(s, entries[i])
    ensures Seen(Deliver(kernel, entries))[k] == Delivered(s.knotes[k], k, entries)
  {
    assert s.knotes[k] == Knote(kernel[k].udata, kernel[k].enabled);
    if i :| 0 <= i < |entries| && (entries[i].ident, entries[i].f) == k {
      assert Deliverable(s, entries[i]);
    }
  }

  /** A delivery disables exactly the filters that fire once. */
  lemma PollMatchesModel(kernel: Kernel, s: State, entries: seq<Entry>)
    requires Matches(kernel, s) && Enabled(s, Poll(entries))
    ensures Matches(Deliver(kernel, entries), Apply(s, Poll(entries)))
  {
    forall k | k in kernel
      ensures Seen(Deliver(kernel, entries))[k] == Delivered(s.knotes[k], k, entries)
    {
      DeliveredSeen(kernel, s, entries, k);
    }
    assert kernel.Keys == s.knotes.Keys;
    assert Seen(Deliver(kernel, entries)) == Apply(s, Poll(entries)).knotes;
  }

  lemma ReleaseMatchesModel(kernel: Kernel, s: State, t: Tid)
    requires Matches(kernel, s) && PcOf(s, t).Release? && Enabled(s, Go(t))
    ensures Matches(CloseFd(kernel, s.events[PcOf(s, t).e].ident), Apply(s, Go(t)))
  {
    var fd := s.events[PcOf(s, t).e].ident;
    assert Seen(CloseFd(kernel, fd)) == s.knotes - {(fd, READ), (fd, WRITE)};
  }

  // ----- filters come and go together

  ghost predicate AllOrNone(s: State, e: Eid)
    requires e in s.events
  {
    Keys(s.events[e]) <= s.knotes.Keys || Keys(s.events[e]) !! s.knotes.Keys
  }

  ghost predicate Paired(table: map<Key, Knote>, ident: int) {
    (ident, READ) in table <==> (ident, WRITE) in table
  }

  lemma PairedKept(s: State, step: Step, ident: int)
    requires Enabled(s, step) && Paired(s.knotes, ident)
    ensures Paired(Apply(s, step).knotes, ident)
  {
    if step.Go? {
      match PcOf(s, step.t) {
        case Mark(_, _) =>
        case Dereg(_, _) =>
        case Queue(_, _) =>
        case Link(_, _) =>
        case Unlock(_, _) =>
        case Release(_, _) =>
        case SubLock(_, _) =>
        case SubMark(_, _) =>
        case SubEnable(_) =>
        case SubUnlock(_) =>
        case GcLock =>
        case GcLoop =>
      }
    }
  }

  lemma {:induction false} ReachablePaired(states: seq<State>, steps: seq<Step>, i: nat, ident: int)
    requires IsRun(states, steps) && i <= |steps|
    ensures Paired(states[i].knotes, ident)
  {
    if i > 0 {
      ReachablePaired(states, steps, i - 1, ident);
      PairedKept(states[i - 1], steps[i - 1], ident);
    }
  }

  /** In every run, whatever its callers do, an event's filters are registered all or not at all. */
  lemma FiltersComeAndGoTogether(states: seq<State>, steps: seq<Step>, i: nat, e: Eid)
    requires IsRun(states, steps) && i <= |steps| && e in states[i].events
    ensures AllOrNone(states[i], e)
  {
    ReachablePaired(states, steps, i, states[i].events[e].ident);
  }

  // ----- the kernel in every run

  /** What the program asks of the kernel in a step, and what the kernel does of its own. */
  ghost predicate KernelStep(kernel: Kernel, s: State, step: Step, kernel': Kernel)
    requires Enabled(s, step)
  {
    match step
    case Create(t, e, ident, kind) =>
      exists changes :: IsCreateList(changes, kind, ident, e) && kernel' == Kevent(kernel, changes).0
    case Poll(entries) => kernel' == Deliver(kernel, entries)
    case Go(t) =>
      var pc := PcOf(s, t);
      if pc.Dereg? then
        exists changes ::
          && IsDestroyList(changes, s.events[pc.e].kind, s.events[pc.e].ident, pc.e)
          && kernel' == Kevent(kernel, changes).0
      else if pc.SubEnable? then
        exists changes ::
          && IsSubmitList(changes, s.events[pc.e].kind, s.events[pc.e].ident, pc.e, s.events[pc.e].evmask)
          && kernel' == Kevent(kernel, changes).0
      else if pc.Release? then kernel' == CloseFd(kernel, s.events[pc.e].ident)
      else kernel' == kernel
    case _ => kernel' == kernel
  }

  lemma KernelStepMatches(kernel: Kernel, s: State, step: Step, kernel': Kernel)
    requires Matches(kernel, s) && Enabled(s, step) && KernelStep(kernel, s, step, kernel')
    requires step.Go? && (PcOf(s, step.t).Destroying() || PcOf(s, step.t).Submitting()) ==>
               AllOrNone(s, PcOf(s, step.t).e)
    ensures Matches(kernel', Apply(s, step))
  {
    match step {
      case Create(t, e, ident, kind) =>
        var changes :| IsCreateList(changes, kind, ident, e) && kernel' == Kevent(kernel, changes).0;
        CreateMatchesModel(kernel, s, t, e, ident, kind, changes);
      case Poll(entries) => PollMatchesModel(kernel, s, entries);
      case Go(t) => KernelGoMatches(kernel, s, t, kernel');
      case _ => CallFrame(s, step);
    }
  }

  lemma KernelGoMatches(kernel: Kernel, s: State, t: Tid, kernel': Kernel)
    requires Matches(kernel, s) && Enabled(s, Go(t)) && KernelStep(kernel, s, Go(t), kernel')
    requires PcOf(s, t).Destroying() || PcOf(s, t).Submitting() ==> AllOrNone(s, PcOf(s, t).e)
    ensures Matches(kernel', Apply(s, Go(t)))
  {
    var pc := PcOf(s, t);
    if pc.Dereg? {
      var changes :| && IsDestroyList(changes, s.events[pc.e].kind, s.events[pc.e].ident, pc.e)
                     && kernel' == Kevent(kernel, changes).0;
      DestroyMatchesModel(kernel, s, t, changes);
    } else if pc.SubEnable? {
      var ev := s.events[pc.e];
      var changes :| IsSubmitList(changes, ev.kind, ev.ident, pc.e, ev.evmask) && kernel' == Kevent(kernel, changes).0;
      SubmitMatchesModel(kernel, s, t, changes);
    } else if pc.Release? {
      ReleaseMatchesModel(kernel, s, t);
    } else {
      GoFrame(s, t);
    }
  }

  /** In every run, whatever its callers do, the kernel that the program's lists drive holds the
      filters that the transition system says, enabled when it says so. */
  lemma {:induction false} KernelFollows(states: seq<State>, steps: seq<Step>, kernels: seq<Kernel>, i: nat)
    requires IsRun(states, steps) && i <= |steps|
    requires |kernels| == |states| && kernels[0] == map[]
    requires forall j :: 0 <= j < |steps| ==> KernelStep(kernels[j], states[j], steps[j], kernels[j + 1])
    ensures Matches(kernels[i], states[i])
  {
    if i > 0 {
      var s, step := states[i - 1], steps[i - 1];
      KernelFollows(states, steps, kernels, i - 1);
      if step.Go? && (PcOf(s, step.t).Destroying() || PcOf(s, step.t).Submitting()) {
        FiltersComeAndGoTogether(states, steps, i - 1, PcOf(s, step.t).e);
      }
      KernelStepMatches(kernels[i - 1], s, step, kernels[i - 1 + 1]);
    }
  }
}
