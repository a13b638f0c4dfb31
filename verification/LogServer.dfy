/** src/asynclogsvr.c: datagrams go through the buffered writer; the clock flushes it; enough
    bytes roll the log. Rolling changes the file name only, so one file receives everything.
    The results of the writer are dropped by the source; the methods here return them, as
    `ok`, so that contracts can tell a lossless step from a lossy one.

    The runs here are of the server's callbacks, called any number of times. Wired to the reactor
    as in src/asynclogsvr.c:82, the datagram callback is submitted once and, by module OneSubmit,
    runs at most once. */
module LogServer {
  import opened Matching
  import opened FileIo
  import LogClient

  const ONE_PAGE := LogClient.ONE_PAGE

  /** What read() leaves in the page-sized buffer: a longer datagram loses its tail. */
  function Received(payload: seq<Byte>): (r: seq<Byte>)
    ensures r <= payload && |r| <= ONE_PAGE
    ensures |payload| <= 4096 ==> r == payload
    ensures |payload| > 4096 ==> |r| == 4096
  {
    payload[..Min(|payload|, ONE_PAGE)]
  }

  /** posixc_asynclogsvr; `generation` counts the changes of `filename`. */
  class Server {
    const writer: BufferedWritable
    const maxFileSize: nat
    var bytesWritten: nat
    var generation: nat

    ghost predicate Valid()
      reads this, writer
    {
      writer.Valid() && bytesWritten <= maxFileSize
    }

    constructor (writer: BufferedWritable, maxFileSize: nat)
      requires writer.Valid()
      ensures Valid() && this.writer == writer && this.maxFileSize == maxFileSize
      ensures bytesWritten == 0 && generation == 0
    {
      this.writer := writer;
      this.maxFileSize := maxFileSize;
      bytesWritten := 0;
      generation := 0;
    }

    /** What can be seen of it from outside. */
    ghost function Seen(): View
      reads this, writer, writer.buf, writer.file
      requires writer.Valid()
    {
      View(writer.Seen(), bytesWritten, generation)
    }

    /** posixc_asynclogsvr_flush, which is also what on_clock does */
    method Flush() returns (ok: bool)
      requires writer.Valid()
      modifies writer, writer.file
      ensures writer.Valid() && writer.pos == 0
      ensures old(writer.file.contents) <= writer.file.contents <= old(writer.Accepted())
      ensures ok <==> writer.file.contents == old(writer.Accepted())
      ensures old(writer.pos) == 0 <==> writer.file.calls == old(writer.file.calls)
      ensures writer.file.kernel(old(writer.file.calls)).Failed? ==> writer.file.contents == old(writer.file.contents)
      ensures old(writer.file.calls) <= writer.file.calls
      ensures ok <==> NoneFailed(writer.file.kernel, old(writer.file.calls), writer.file.calls)
    {
      ok := writer.Flush();
    }

    /** posixc_asynclogsvr_roll */
    method Roll() returns (ok: bool)
      requires writer.Valid()
      modifies this, writer, writer.file
      ensures Valid() && writer.pos == 0
      ensures old(writer.file.contents) <= writer.file.contents <= old(writer.Accepted())
      ensures ok <==> writer.file.contents == old(writer.Accepted())
      ensures old(writer.file.calls) <= writer.file.calls
      ensures ok <==> NoneFailed(writer.file.kernel, old(writer.file.calls), writer.file.calls)
      ensures bytesWritten == 0 && generation == old(generation) + 1
    {
      ok := Flush();
      generation := generation + 1;
      bytesWritten := 0;
    }

    /** on_dgram; `payload` is the datagram, empty when read() returns nothing or fails. */
    method OnDatagram(payload: seq<Byte>) returns (ok: bool)
      requires Valid()
      modifies this, writer, writer.buf, writer.file
      ensures Valid()
      ensures old(writer.file.contents) <= writer.file.contents
      ensures ok ==> writer.Accepted() == old(writer.Accepted()) + Received(payload)
      ensures !ok ==> writer.pos == 0 && writer.file.contents < old(writer.Accepted()) + Received(payload)
      ensures old(writer.file.calls) <= writer.file.calls
      ensures ok <==> NoneFailed(writer.file.kernel, old(writer.file.calls), writer.file.calls)
      ensures var total := old(bytesWritten) + |Received(payload)|;
              if total <= maxFileSize then bytesWritten == total && generation == old(generation)
              else bytesWritten == 0 && generation == old(generation) + 1 && writer.pos == 0
      ensures |Received(payload)| <= BUFFER_SIZE - old(writer.pos) && old(bytesWritten) + |Received(payload)| <= maxFileSize
              ==> ok && writer.file.contents == old(writer.file.contents)
    {
      var data := Received(payload);
      if |data| > 0 {
        ghost var stream := writer.Accepted() + data;
        ghost var before := writer.file.calls;
        ok := writer.Write(data);
        ghost var between := writer.file.calls;
        assert ok ==> writer.Accepted() == stream;
        assert !ok ==> writer.buf[..writer.pos] == [] && writer.file.contents < stream;
        bytesWritten := bytesWritten + |data|;
        if bytesWritten > maxFileSize {
          var flushed := Roll();
          ok := ok && flushed;
          NoneFailedJoins(writer.file.kernel, before, between, writer.file.calls);
        }
      } else {
        ok := true;
      }
    }
  }

  // ----- whole runs

  datatype Input = Datagram(payload: seq<Byte>) | Tick | Roll {
    /** What it asks of the buffered writer. */
    function AsOp(): Op {
      if Datagram? then Put(Received(payload)) else Op.Flush
    }

    function Bytes(): seq<Byte> {
      AsOp().Bytes()
    }
  }

  datatype View = View(kept: Snapshot, bytesWritten: nat, generation: nat)

  /** The input rolls the log: it asks for it, or its bytes take the counter past the limit. */
  predicate Rolls(max: nat, counter: nat, input: Input) {
    input.Roll? || counter + |input.Bytes()| > max
  }

  /** One callback or roll, seen from outside: a call on the writer, and a roll that renames,
      flushes and resets, or a counter that grows. */
  ghost predicate StepEffect(max: nat, s: View, input: Input, ok: bool, s': View) {
    && CallEffect(s.kept, input.AsOp(), ok, s'.kept)
    && (!input.Datagram? ==> s'.kept.buffered == [])
    && (if Rolls(max, s.bytesWritten, input)
        then s'.generation == s.generation + 1 && s'.bytesWritten == 0 && s'.kept.buffered == []
        else s'.generation == s.generation && s'.bytesWritten == s.bytesWritten + |input.Bytes()|)
  }

  ghost predicate IsServed(max: nat, inputs: seq<Input>, oks: seq<bool>, trace: seq<View>) {
    && |oks| == |inputs| && |trace| == |inputs| + 1
    && forall i :: 0 <= i < |inputs| ==> StepEffect(max, trace[i], inputs[i], oks[i], trace[i + 1])
  }

  function Ops(inputs: seq<Input>): (ops: seq<Op>)
    ensures |ops| == |inputs| && forall i :: 0 <= i < |inputs| ==> ops[i] == inputs[i].AsOp()
  {
    seq(|inputs|, i requires 0 <= i < |inputs| => inputs[i].AsOp())
  }

  function Kept(trace: seq<View>): (r: seq<Snapshot>)
    ensures |r| == |trace| && forall i :: 0 <= i < |trace| ==> r[i] == trace[i].kept
  {
    seq(|trace|, i requires 0 <= i < |trace| => trace[i].kept)
  }

  /** What a server does is a run of its writer, so all that holds of such runs holds of it. */
  lemma ServedIsTrace(max: nat, inputs: seq<Input>, oks: seq<bool>, trace: seq<View>)
    requires IsServed(max, inputs, oks, trace)
    ensures IsTrace(Ops(inputs), oks, Kept(trace))
  {
    forall i | 0 <= i < |inputs|
      ensures CallEffect(Kept(trace)[i], Ops(inputs)[i], oks[i], Kept(trace)[i + 1])
    {
      assert StepEffect(max, trace[i], inputs[i], oks[i], trace[i + 1]);
    }
  }

  /** The datagrams received, in order. */
  function Arrivals(inputs: seq<Input>): seq<Byte> {
    Stream(Ops(inputs))
  }

  lemma ArrivalsStep(inputs: seq<Input>)
    requires inputs != []
    ensures Arrivals(inputs) == Arrivals(inputs[..|inputs| - 1]) + inputs[|inputs| - 1].Bytes()
  {
    assert Ops(inputs)[..|inputs| - 1] == Ops(inputs[..|inputs| - 1]);
  }

  /** Everything received is kept if and only if no step failed to write. */
  lemma NothingLostIff(max: nat, inputs: seq<Input>, oks: seq<bool>, trace: seq<View>)
    requires IsServed(max, inputs, oks, trace)
    ensures trace[|inputs|].kept.Accepted() == trace[0].kept.Accepted() + Arrivals(inputs) <==> AllOk(oks)
  {
    ServedIsTrace(max, inputs, oks, trace);
    FileIo.NothingLostIff(Ops(inputs), oks, Kept(trace));
  }

  /** With failing writes, which the server ignores, what is kept is still in order and without repeats. */
  lemma KeptInOrder(max: nat, inputs: seq<Input>, oks: seq<bool>, trace: seq<View>)
    requires IsServed(max, inputs, oks, trace)
    ensures Subsequence(trace[|inputs|].kept.Accepted(), trace[0].kept.Accepted() + Arrivals(inputs))
  {
    ServedIsTrace(max, inputs, oks, trace);
    NeverReordered(Ops(inputs), oks, Kept(trace));
  }

  // ----- the counter

  /** The bytes received since the log last rolled, by the inputs alone: counting goes on from
      `start`, and starts again at a roll, and with the datagram that takes it past the limit. */
  function SinceRoll(max: nat, start: nat, inputs: seq<Input>, i: nat): nat
    requires i <= |inputs|
  {
    if i == 0 then start
    else
      var n := SinceRoll(max, start, inputs, i - 1);
      if Rolls(max, n, inputs[i - 1]) then 0 else n + |inputs[i - 1].Bytes()|
  }

  /** How often they have rolled it. */
  function RollCount(max: nat, start: nat, inputs: seq<Input>, i: nat): nat
    requires i <= |inputs|
  {
    if i == 0 then 0
    else
      RollCount(max, start, inputs, i - 1)
      + if Rolls(max, SinceRoll(max, start, inputs, i - 1), inputs[i - 1]) then 1 else 0
  }

  /** After every step, whether or not writes fail, the counter is that number and within the limit,
      and the file has been renamed by exactly the inputs that roll. */
  lemma {:induction false} CounterIsSinceRoll(max: nat, inputs: seq<Input>, oks: seq<bool>, trace: seq<View>, i: nat)
    requires IsServed(max, inputs, oks, trace) && trace[0].bytesWritten <= max && i <= |inputs|
    ensures trace[i].bytesWritten == SinceRoll(max, trace[0].bytesWritten, inputs, i) <= max
    ensures trace[i].generation == trace[0].generation + RollCount(max, trace[0].bytesWritten, inputs, i)
  {
    if i > 0 {
      CounterIsSinceRoll(max, inputs, oks, trace, i - 1);
      assert StepEffect(max, trace[i - 1], inputs[i - 1], oks[i - 1], trace[i - 1 + 1]);
    }
  }

  /** The name last changed with the `r`-th of the first `i` inputs, or never when `r` is 0. */
  ghost predicate LastRename(trace: seq<View>, r: nat, i: nat)
    requires i < |trace|
  {
    && r <= i && (r == 0 || trace[r].generation != trace[r - 1].generation)
    && forall k :: r < k <= i ==> trace[k].generation == trace[r].generation
  }

  lemma SameNameStill(trace: seq<View>, r: nat, i: nat)
    requires 0 < i < |trace| && LastRename(trace, r, i - 1) && trace[i].generation == trace[i - 1].generation
    ensures LastRename(trace, r, i)
  {
  }

  /** How many bytes the first `i` inputs bring. */
  function Total(inputs: seq<Input>, i: nat): nat
    requires i <= |inputs|
  {
    if i == 0 then 0 else Total(inputs, i - 1) + |inputs[i - 1].Bytes()|
  }

  lemma {:induction false} TotalIsArrivals(inputs: seq<Input>, i: nat)
    requires i <= |inputs|
    ensures |Arrivals(inputs[..i])| == Total(inputs, i)
  {
    if i > 0 {
      TotalIsArrivals(inputs, i - 1);
      ArrivalsStep(inputs[..i]);
      assert inputs[..i][..i - 1] == inputs[..i - 1];
    }
  }

  lemma {:induction false} CounterIsTotal(max: nat, inputs: seq<Input>, oks: seq<bool>, trace: seq<View>, i: nat)
    returns (r: nat)
    requires IsServed(max, inputs, oks, trace) && i <= |inputs|
    ensures LastRename(trace, r, i)
    ensures trace[i].bytesWritten == Total(inputs, i) - Total(inputs, r) + if r == 0 then trace[0].bytesWritten else 0
  {
    r := i;
    if i > 0 {
      assert StepEffect(max, trace[i - 1], inputs[i - 1], oks[i - 1], trace[i - 1 + 1]);
      if trace[i].generation == trace[i - 1].generation {
        r := CounterIsTotal(max, inputs, oks, trace, i - 1);
        SameNameStill(trace, r, i);
      }
    }
  }

  /** The counter is the length of what arrived between that input and now. */
  lemma CounterIsArrivals(max: nat, inputs: seq<Input>, oks: seq<bool>, trace: seq<View>, i: nat) returns (r: nat)
    requires IsServed(max, inputs, oks, trace) && i <= |inputs|
    ensures LastRename(trace, r, i)
    ensures trace[i].bytesWritten
            == |Arrivals(inputs[..i])| - |Arrivals(inputs[..r])| + if r == 0 then trace[0].bytesWritten else 0
  {
    r := CounterIsTotal(max, inputs, oks, trace, i);
    TotalIsArrivals(inputs, i);
    TotalIsArrivals(inputs, r);
  }

  // ----- the server, over whole runs

  /** One callback of either kind, or a roll, observed. */
  method Serve(svr: Server, input: Input) returns (ok: bool)
    requires svr.Valid()
    modifies svr, svr.writer, svr.writer.buf, svr.writer.file
    ensures svr.Valid() && old(svr.writer.file.calls) <= svr.writer.file.calls
    ensures StepEffect(svr.maxFileSize, old(svr.Seen()), input, ok, svr.Seen())
    ensures ok <==> NoneFailed(svr.writer.file.kernel, old(svr.writer.file.calls), svr.writer.file.calls)
  {
    match input {
      case Datagram(payload) => ok := svr.OnDatagram(payload);
      case Tick => ok := svr.Flush();
      case Roll => ok := svr.Roll();
    }
  }

  /** Any sequence of inputs to a server is a trace of step effects that ends in what the server then
      holds: all it held before and all it received if and only if no write() that was made
      failed, and the bytes since the last roll in its counter. */
  method Drive(svr: Server, inputs: seq<Input>) returns (oks: seq<bool>, ghost trace: seq<View>)
    requires svr.Valid()
    modifies svr, svr.writer, svr.writer.buf, svr.writer.file
    ensures svr.Valid() && old(svr.writer.file.calls) <= svr.writer.file.calls
    ensures IsServed(svr.maxFileSize, inputs, oks, trace) && trace[0] == old(svr.Seen()) && trace[|inputs|] == svr.Seen()
    ensures AllOk(oks) <==> NoneFailed(svr.writer.file.kernel, old(svr.writer.file.calls), svr.writer.file.calls)
    ensures svr.writer.Accepted() == old(svr.writer.Accepted()) + Arrivals(inputs)
            <==> NoneFailed(svr.writer.file.kernel, old(svr.writer.file.calls), svr.writer.file.calls)
    ensures Subsequence(svr.writer.Accepted(), old(svr.writer.Accepted()) + Arrivals(inputs))
    ensures svr.bytesWritten == SinceRoll(svr.maxFileSize, old(svr.bytesWritten), inputs, |inputs|)
    ensures svr.generation == old(svr.generation) + RollCount(svr.maxFileSize, old(svr.bytesWritten), inputs, |inputs|)
  {
    oks, trace := [], [svr.Seen()];
    for i := 0 to |inputs|
      invariant svr.Valid() && old(svr.writer.file.calls) <= svr.writer.file.calls
      invariant |oks| == i && |trace| == i + 1 && trace[0] == old(svr.Seen()) && trace[i] == svr.Seen()
      invariant forall j :: 0 <= j < i ==> StepEffect(svr.maxFileSize, trace[j], inputs[j], oks[j], trace[j + 1])
      invariant AllOk(oks) <==> NoneFailed(svr.writer.file.kernel, old(svr.writer.file.calls), svr.writer.file.calls)
    {
      ghost var before := svr.writer.file.calls;
      var ok := Serve(svr, inputs[i]);
      NoneFailedJoins(svr.writer.file.kernel, old(svr.writer.file.calls), before, svr.writer.file.calls);
      AllOkExtends(oks, ok);
      oks, trace := oks + [ok], trace + [svr.Seen()];
    }
    NothingLostIff(svr.maxFileSize, inputs, oks, trace);
    KeptInOrder(svr.maxFileSize, inputs, oks, trace);
    CounterIsSinceRoll(svr.maxFileSize, inputs, oks, trace, |inputs|);
  }

  /** A datagram that arrives before a tick whose write() fails is gone, with all that was
      buffered, and nobody is told. */
  method FailedTickLoses(svr: Server, payload: seq<Byte>)
    requires svr.Valid() && 0 < |Received(payload)| <= BUFFER_SIZE - svr.writer.pos
    requires svr.bytesWritten + |Received(payload)| <= svr.maxFileSize
    requires svr.writer.file.kernel(svr.writer.file.calls).Failed?
    modifies svr, svr.writer, svr.writer.buf, svr.writer.file
    ensures svr.Valid() && svr.bytesWritten == old(svr.bytesWritten) + |Received(payload)|
    ensures svr.writer.Accepted() == old(svr.writer.file.contents) != old(svr.writer.Accepted()) + Received(payload)
  {
    var w := svr.writer;
    ghost var stream := w.Accepted() + Received(payload);
    var received := svr.OnDatagram(payload);
    assert |w.Accepted()| == |w.file.contents| + w.pos;
    var ticked := svr.Flush();
    assert w.Accepted() == w.file.contents;
    assert |stream| > |old(svr.writer.file.contents)|;
  }

  // ----- end to end

  /** The payloads among the inputs. */
  function Payloads(inputs: seq<Input>): seq<seq<Byte>> {
    if inputs == [] then []
    else Payloads(inputs[..|inputs| - 1]) +
         (if inputs[|inputs| - 1].Datagram? then [inputs[|inputs| - 1].payload] else [])
  }

  lemma {:induction false} ConcatAppend(records: seq<seq<Byte>>, r: seq<Byte>)
    ensures LogClient.Concat(records + [r]) == LogClient.Concat(records) + r
  {
    if records != [] {
      ConcatAppend(records[1..], r);
      assert (records + [r])[1..] == records[1..] + [r];
    } else {
      assert records + [r] == [r];
    }
  }

  lemma {:induction false} ArrivalsAreRecords(inputs: seq<Input>)
    requires forall i :: 0 <= i < |inputs| && inputs[i].Datagram? ==> |inputs[i].payload| <= ONE_PAGE
    ensures Arrivals(inputs) == LogClient.Concat(Payloads(inputs))
  {
    if inputs != [] {
      var last := inputs[|inputs| - 1];
      ArrivalsStep(inputs);
      ArrivalsAreRecords(inputs[..|inputs| - 1]);
      if last.Datagram? {
        ConcatAppend(Payloads(inputs[..|inputs| - 1]), last.payload);
      } else {
        assert Payloads(inputs) == Payloads(inputs[..|inputs| - 1]);
      }
    }
  }

  lemma {:induction false} PayloadIsListed(inputs: seq<Input>, i: nat)
    requires i < |inputs| && inputs[i].Datagram?
    ensures inputs[i].payload in Payloads(inputs)
  {
    if i < |inputs| - 1 {
      PayloadIsListed(inputs[..|inputs| - 1], i);
    }
  }

  /** Whatever client records reach the server, between any ticks and rolls, and however the
      kernel cuts or interrupts the writes: if they succeed, file plus buffer is the records in
      order, and cutting it at newlines gives the records back if and only if no header and no
      part of a message that was kept has a newline. */
  lemma EndToEnd(max: nat, inputs: seq<Input>, oks: seq<bool>, trace: seq<View>,
                 headers: seq<seq<Byte>>, messages: seq<seq<Byte>>)
    requires IsServed(max, inputs, oks, trace) && trace[0].kept.Accepted() == [] && AllOk(oks)
    requires |headers| == |messages| == |Payloads(inputs)|
    requires forall i :: 0 <= i < |headers| ==> LogClient.IsRecord(headers[i], messages[i], Payloads(inputs)[i])
    ensures trace[|inputs|].kept.Accepted() == LogClient.Concat(Payloads(inputs))
    ensures LogClient.Lines(trace[|inputs|].kept.Accepted(), 0) == Payloads(inputs) <==>
              forall i :: 0 <= i < |headers| ==> LogClient.OneLine(headers[i], Payloads(inputs)[i])
  {
    var records := Payloads(inputs);
    NothingLostIff(max, inputs, oks, trace);
    forall i | 0 <= i < |inputs| && inputs[i].Datagram?
      ensures |inputs[i].payload| <= ONE_PAGE
    {
      PayloadIsListed(inputs, i);
    }
    ArrivalsAreRecords(inputs);
    assert trace[|inputs|].kept.Accepted() == [] + Arrivals(inputs) == LogClient.Concat(records);
    forall i | 0 <= i < |records|
      ensures LogClient.IsLine(records[i]) <==> LogClient.OneLine(headers[i], records[i])
    {
      LogClient.RecordIsLine(headers[i], messages[i], records[i]);
    }
    LogClient.LinesUndoConcat(records);
  }
}
