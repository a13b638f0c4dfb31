/** A run, within every rule of the callers but one that no caller can keep alone, that loses a
    wake-up: timer events are numbered from 0 (posixc_unique_timer_event_id),
    release() closes that number as if it were a descriptor, and a socket may have it. */
module LostWakeup {
  import opened Matching
  import opened Reactor
  import opened ReactorPaths
  import opened ReactorWakeups

  const FOREIGN := {CloseOwn}

  /** A user thread creates timer 5 as event 0 and a socket with descriptor 5 as event 1. */
  lemma Creates() returns (s: State)
    ensures Leads(FOREIGN, INIT, s) && s.events == map[0 := NewEvent(5, TIMER_EV), 1 := NewEvent(5, SOCK)]
    ensures (5, READ) in s.knotes && s.knotes[(5, READ)] == Knote(1, false)
    ensures BetweenBatches(s) && s.gc == [] && s.rmtx == None && forall u :: PcOf(s, u) == Idle
  {
    Stay(FOREIGN, INIT);
    var s1 := CreateStep(FOREIGN, INIT, INIT, 1, 0, 5, TIMER_EV);
    s := CreateStep(FOREIGN, INIT, s1, 1, 1, 5, SOCK);
    assert READ in Filters(SOCK);
  }

  /** It submits the socket for input. */
  lemma Submits() returns (s: State)
    ensures Leads(FOREIGN, INIT, s) && s.events.Keys == {0, 1} && s.events[0] == NewEvent(5, TIMER_EV)
    ensures s.events[1].ident == 5 && s.events[1].kind == SOCK && s.events[1].evmask == {IN} && !s.events[1].dereg
    ensures (5, READ) in s.knotes && s.knotes[(5, READ)] == Knote(1, true)
    ensures BetweenBatches(s) && s.gc == [] && s.rmtx == None && forall u :: PcOf(s, u) == Idle
  {
    var s0 := Creates();
    assert (5, READ) in Keys(s0.events[1]);
    s := SubmitAll(FOREIGN, INIT, s0, 1, 1, {IN});
    assert s.events[1].evmask == {} + {IN} == {IN};
  }

  /** It destroys the timer. */
  lemma Deregisters() returns (s: State)
    ensures Leads(FOREIGN, INIT, s) && s.events.Keys == {0, 1} && s.events[0].ident == 5 && s.events[0].closing
    ensures SocketWithIdent(s, 1, 5) && IN in s.events[1].evmask
    ensures BetweenBatches(s) && s.gc == [] && s.rmtx == None
    ensures PcOf(s, 1) == Queue(0, false) && forall u :: u != 1 ==> PcOf(s, u) == Idle
  {
    var s0 := Submits();
    var s1 := DestroyCallStep(FOREIGN, INIT, s0, 1, 0);
    s := MarkAndDereg(FOREIGN, INIT, s1, 1, 0);
  }

  /** The reactor thread releases the timer and closes its number. */
  lemma Collects() returns (s: State)
    ensures Leads(FOREIGN, INIT, s) && SocketWithIdent(s, 1, 5) && IN in s.events[1].evmask
    ensures (5, READ) !in s.knotes && s.batch == [] && forall u :: !PcOf(s, u).SubEnable?
  {
    var s0 := Deregisters();
    s := QueueAndCollect(FOREIGN, INIT, s0, 1, 0);
  }

  /** In the end the socket is open and submitted for input, and registered with no filter that
      could serve it. */
  lemma WakeupIsLost()
    ensures exists states, steps ::
              && IsRun(states, steps) && PathWithout({CloseOwn}, states, steps)
              && Armed(states[|steps|], 1, READ) && !Served(states[|steps|], 1, READ)
  {
    var s := Collects();
    var states, steps :| PathWithout(FOREIGN, states, steps) && states[0] == INIT && states[|steps|] == s;
    assert IsRun(states, steps);
  }
}
