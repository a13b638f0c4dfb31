/** src/fileio.c: the retrying writer and the buffered writer in front of it.

    `write` is the system call of POSIX.1-2017: it may be interrupted, fail, or take any
    part of what it is given, none of it included. What it does is a function of how often
    it has been called before, and every such function is allowed. The loop of the source
    ends only if the kernel does not stall for ever, which is what `Fair` says. */
module FileIo {
  import opened Matching

  const BUFFER_SIZE := 4096

  /** One answer of write(): -1 with EINTR, -1 with another error, or a count (cut to the size asked for). */
  datatype Response = Interrupted | Failed | Wrote(count: nat)

  function Min(a: nat, b: nat): nat {
    if a < b then a else b
  }

  predicate Moves(r: Response) {
    r.Failed? || (r.Wrote? && r.count > 0)
  }

  /** However late it is, some later call takes a byte or fails. */
  ghost predicate Fair(kernel: nat -> Response) {
    forall t: nat :: MovesFrom(kernel, t)
  }

  ghost predicate MovesFrom(kernel: nat -> Response, t: nat) {
    exists u: nat :: t <= u && Moves(kernel(u))
  }

  /** None of the calls numbered `from` up to `upTo` failed; being interrupted is not failing. */
  ghost predicate NoneFailed(kernel: nat -> Response, from: nat, upTo: nat) {
    forall c: nat :: from <= c < upTo ==> !kernel(c).Failed?
  }

  /** An open file: what it holds, and the kernel that answers for it. */
  class File {
    const kernel: nat -> Response
    var calls: nat
    var contents: seq<Byte>

    constructor (kernel: nat -> Response)
      ensures this.kernel == kernel && contents == [] && calls == 0
    {
      this.kernel := kernel;
      contents := [];
      calls := 0;
    }

    /** write(2): the count or -1, and whether errno is EINTR. */
    method Write(data: seq<Byte>) returns (n: int, interrupted: bool)
      modifies this
      ensures calls == old(calls) + 1
      ensures -1 <= n <= |data|
      ensures n == match kernel(old(calls)) case Wrote(count) => Min(count, |data|) case _ => -1
      ensures interrupted <==> kernel(old(calls)).Interrupted?
      ensures contents == old(contents) + (if n < 0 then [] else data[..n])
    {
      var response := kernel(calls);
      calls := calls + 1;
      match response {
        case Interrupted => return -1, true;
        case Failed => return -1, false;
        case Wrote(count) =>
          n := Min(count, |data|);
          contents := contents + data[..n];
          return n, false;
      }
    }
  }

  /** posixc_unbuffered_write: whatever the kernel does, the file grows by a prefix of the
      data, and by all of it exactly when the call succeeds. */
  method UnbufferedWrite(file: File, data: seq<Byte>) returns (ok: bool)
    requires Fair(file.kernel)
    modifies file
    ensures old(file.contents) <= file.contents <= old(file.contents) + data
    ensures ok <==> file.contents == old(file.contents) + data
    ensures old(file.calls) <= file.calls && (ok <==> NoneFailed(file.kernel, old(file.calls), file.calls))
    ensures data == [] <==> file.calls == old(file.calls)
    ensures file.kernel(old(file.calls)).Failed? ==> file.contents == old(file.contents)
  {
    var done := 0;
    assert MovesFrom(file.kernel, file.calls);
    ghost var next: nat :| file.calls <= next && Moves(file.kernel(next));
    while |data| - done > 0
      invariant 0 <= done <= |data|
      invariant file.contents == old(file.contents) + data[..done]
      invariant file.calls <= next && Moves(file.kernel(next))
      invariant old(file.calls) <= file.calls && NoneFailed(file.kernel, old(file.calls), file.calls)
      invariant file.calls == old(file.calls) ==> done == 0
      invariant data == [] ==> file.calls == old(file.calls)
      decreases |data| - done, next - file.calls
    {
      var n, interrupted := file.Write(data[done..]);
      if n < 0 {
        if interrupted {
          continue;
        }
        return false;
      }
      assert data[..done + n] == data[..done] + data[done..][..n];
      done := done + n;
      if n > 0 {
        assert MovesFrom(file.kernel, file.calls);
        next :| file.calls <= next && Moves(file.kernel(next));
      }
    }
    assert data[..done] == data;
    return true;
  }

  /** memcpy into a buffer that has the room */
  method CopyInto(buf: array<Byte>, at: nat, data: seq<Byte>)
    requires at + |data| <= buf.Length
    modifies buf
    ensures buf[..at] == old(buf[..at])
    ensures buf[at..at + |data|] == data
    ensures buf[..at + |data|] == old(buf[..at]) + data
  {
    ghost var before := buf[..at];
    forall k | 0 <= k < |data| {
      buf[at + k] := data[k];
    }
    assert buf[..at] == before;
    assert buf[..at + |data|] == buf[..at] + buf[at..at + |data|];
  }

  /** posixc_buffered_writable */
  class BufferedWritable {
    const buf: array<Byte>
    var pos: nat
    const file: File

    ghost predicate Valid()
      reads this
    {
      buf.Length == BUFFER_SIZE && pos <= BUFFER_SIZE && Fair(file.kernel)
    }

    /** What can be seen of it from outside. */
    ghost function Seen(): Snapshot
      reads this, buf, file
      requires Valid()
    {
      Snapshot(file.contents, buf[..pos])
    }

    /** What has been accepted and not lost: the file and then the buffered bytes. */
    ghost function Accepted(): seq<Byte>
      reads this, buf, file
      requires Valid()
    {
      Seen().Accepted()
    }

    /** posixc_buffered_writable_init */
    constructor (file: File)
      requires Fair(file.kernel)
      ensures Valid() && fresh(buf) && buf.Length == 4096 && this.file == file && pos == 0
    {
      buf := new Byte[BUFFER_SIZE](_ => 0);
      pos := 0;
      this.file := file;
    }

    /** posixc_flush: the buffer ends empty either way; on failure its unwritten tail is lost. */
    method Flush() returns (ok: bool)
      requires Valid()
      modifies this, file
      ensures Valid() && pos == 0
      ensures old(file.contents) <= file.contents <= old(Accepted())
      ensures ok <==> file.contents == old(Accepted())
      ensures old(file.calls) <= file.calls && (ok <==> NoneFailed(file.kernel, old(file.calls), file.calls))
      ensures old(pos) == 0 <==> file.calls == old(file.calls)
      ensures file.kernel(old(file.calls)).Failed? ==> file.contents == old(file.contents)
    {
      var size := pos;
      pos := 0;
      ok := UnbufferedWrite(file, buf[..size]);
    }

    /** posixc_buffered_write, lines 209-217: what did not fit goes after a flush, into the buffer or past it. */
    method FlushAndStore(rest: seq<Byte>) returns (ok: bool)
      requires Valid()
      modifies this, buf, file
      ensures Valid()
      ensures old(file.contents) <= file.contents <= old(Accepted()) + rest
      ensures ok ==> Accepted() == old(Accepted()) + rest
      ensures !ok ==> pos == 0 && file.contents != old(Accepted()) + rest
      ensures ok ==> buf[..pos] == if |rest| < 4096 then rest else []
      ensures old(file.calls) <= file.calls && (ok <==> NoneFailed(file.kernel, old(file.calls), file.calls))
    {
      ok := Flush();
      if ok {
        if |rest| < BUFFER_SIZE {
          CopyInto(buf, 0, rest);
          pos := |rest|;
          return true;
        }
        ok := UnbufferedWrite(file, rest);
        return;
      }
      return false;
    }

    /** posixc_buffered_write: data that fits the buffer causes no system call, and the call
        fails exactly when one of its system calls does. Other data fills the buffer first; what is
        left is buffered if it is less than a buffer and written if it is not. */
    method Write(data: seq<Byte>) returns (ok: bool)
      requires Valid()
      modifies this, buf, file
      ensures Valid()
      ensures old(file.contents) <= file.contents <= old(Accepted()) + data
      ensures ok ==> Accepted() == old(Accepted()) + data
      ensures !ok ==> pos == 0 && file.contents != old(Accepted()) + data
      ensures old(file.calls) <= file.calls && (ok <==> NoneFailed(file.kernel, old(file.calls), file.calls))
      ensures |data| <= 4096 - old(pos) ==> ok && file.calls == old(file.calls) && file.contents == old(file.contents)
      ensures ok && |data| > 4096 - old(pos) ==>
                var rest := data[4096 - old(pos)..]; buf[..pos] == if |rest| < 4096 then rest else []
    {
      ghost var stream := Accepted() + data;
      var n := Min(|data|, BUFFER_SIZE - pos);
      ghost var kept := buf[..pos];
      CopyInto(buf, pos, data[..n]);
      var rest := data[n..];
      pos := pos + n;
      assert Accepted() == file.contents + (kept + data[..n]);
      assert data == data[..n] + rest;
      assert Accepted() + rest == stream;
      if |rest| == 0 {
        return true;
      }
      ok := FlushAndStore(rest);
    }
  }

  // ----- whole runs

  datatype Op = Put(data: seq<Byte>) | Flush {
    function Bytes(): seq<Byte> {
      if Put? then data else []
    }
  }

  /** What can be seen between two calls. */
  datatype Snapshot = Snapshot(file: seq<Byte>, buffered: seq<Byte>) {
    function Accepted(): seq<Byte> {
      file + buffered
    }
  }

  /** One call, seen from outside: bytes reach the file only at its end, a successful call
      adds exactly its data to what is accepted, and a failing one empties the buffer and cuts
      what is accepted, its own data included, to a proper prefix. */
  ghost predicate CallEffect(s: Snapshot, op: Op, ok: bool, s': Snapshot) {
    && s.file <= s'.file
    && |s'.buffered| <= BUFFER_SIZE
    && (ok ==> s'.Accepted() == s.Accepted() + op.Bytes())
    && (ok && op.Flush? ==> s'.buffered == [])
    && (!ok ==> s'.buffered == [] && s'.file < s.Accepted() + op.Bytes())
  }

  ghost predicate IsTrace(ops: seq<Op>, oks: seq<bool>, trace: seq<Snapshot>) {
    && |oks| == |ops| && |trace| == |ops| + 1
    && forall i :: 0 <= i < |ops| ==> CallEffect(trace[i], ops[i], oks[i], trace[i + 1])
  }

  predicate AllOk(oks: seq<bool>) {
    forall i :: 0 <= i < |oks| ==> oks[i]
  }

  lemma AllOkExtends(oks: seq<bool>, ok: bool)
    ensures AllOk(oks + [ok]) <==> AllOk(oks) && ok
  {
    var all := oks + [ok];
    assert all[|oks|] == ok;
    assert forall i :: 0 <= i < |oks| ==> all[i] == oks[i];
  }

  lemma NoneFailedJoins(kernel: nat -> Response, a: nat, b: nat, c: nat)
    requires a <= b <= c
    ensures NoneFailed(kernel, a, c) <==> NoneFailed(kernel, a, b) && NoneFailed(kernel, b, c)
  {
  }

  /** All data handed to the writer, in order. */
  function Stream(ops: seq<Op>): seq<Byte> {
    if ops == [] then [] else Stream(ops[..|ops| - 1]) + ops[|ops| - 1].Bytes()
  }

  lemma TracePrefix(ops: seq<Op>, oks: seq<bool>, trace: seq<Snapshot>, n: nat)
    requires IsTrace(ops, oks, trace) && n <= |ops|
    ensures IsTrace(ops[..n], oks[..n], trace[..n + 1])
  {
  }

  /** While every call succeeds, nothing is lost, repeated or reordered. */
  lemma {:induction false} AllSucceed(ops: seq<Op>, oks: seq<bool>, trace: seq<Snapshot>)
    requires IsTrace(ops, oks, trace) && AllOk(oks)
    ensures trace[|ops|].Accepted() == trace[0].Accepted() + Stream(ops)
  {
    if ops != [] {
      var n := |ops| - 1;
      TracePrefix(ops, oks, trace, n);
      AllSucceed(ops[..n], oks[..n], trace[..n + 1]);
      assert CallEffect(trace[n], ops[n], oks[n], trace[n + 1]);
    }
  }

  /** What is accepted is never longer than the stream, and shorter for good once a call has failed. */
  lemma {:induction false} FailureShortens(ops: seq<Op>, oks: seq<bool>, trace: seq<Snapshot>)
    requires IsTrace(ops, oks, trace)
    ensures |trace[|ops|].Accepted()| <= |trace[0].Accepted() + Stream(ops)|
    ensures !AllOk(oks) ==> |trace[|ops|].Accepted()| < |trace[0].Accepted() + Stream(ops)|
  {
    if ops != [] {
      var n := |ops| - 1;
      TracePrefix(ops, oks, trace, n);
      FailureShortens(ops[..n], oks[..n], trace[..n + 1]);
      assert CallEffect(trace[n], ops[n], oks[n], trace[n + 1]);
      AllOkExtends(oks[..n], oks[n]);
      assert oks[..n] + [oks[n]] == oks;
    }
  }

  /** Nothing is lost over a run if and only if every call of it succeeds; later success does not
      make up for a failure. */
  lemma NothingLostIff(ops: seq<Op>, oks: seq<bool>, trace: seq<Snapshot>)
    requires IsTrace(ops, oks, trace)
    ensures trace[|ops|].Accepted() == trace[0].Accepted() + Stream(ops) <==> AllOk(oks)
  {
    if AllOk(oks) {
      AllSucceed(ops, oks, trace);
    } else {
      FailureShortens(ops, oks, trace);
    }
  }

  /** When a call fails for the first time, the file holds a prefix of the stream that includes
      the failing call's data, and nothing is buffered. */
  lemma FirstFailure(ops: seq<Op>, oks: seq<bool>, trace: seq<Snapshot>, n: nat)
    requires IsTrace(ops, oks, trace)
    requires n < |ops| && !oks[n] && AllOk(oks[..n])
    ensures trace[n + 1].file < trace[0].Accepted() + Stream(ops[..n + 1]) && trace[n + 1].buffered == []
  {
    assert trace[n].Accepted() == trace[0].Accepted() + Stream(ops[..n]) by {
      TracePrefix(ops, oks, trace, n);
      AllSucceed(ops[..n], oks[..n], trace[..n + 1]);
    }
    assert CallEffect(trace[n], ops[n], oks[n], trace[n + 1]);
    assert ops[..n + 1][..n] == ops[..n];
    assert Stream(ops[..n + 1]) == Stream(ops[..n]) + ops[n].Bytes();
  }

  /** `a` is `b` with some bytes left out. */
  ghost predicate Subsequence(a: seq<Byte>, b: seq<Byte>)
    decreases |b|
  {
    if a == [] then true
    else if b == [] then false
    else
      var a', b' := a[..|a| - 1], b[..|b| - 1];
      (a[|a| - 1] == b[|b| - 1] && Subsequence(a', b')) || Subsequence(a, b')
  }

  lemma {:induction false} SubsequenceAppend(a: seq<Byte>, b: seq<Byte>, d: seq<Byte>)
    requires Subsequence(a, b)
    ensures Subsequence(a + d, b + d)
    decreases |d|
  {
    if d == [] {
      assert a + d == a && b + d == b;
    } else {
      var d' := d[..|d| - 1];
      SubsequenceAppend(a, b, d');
      assert (a + d)[..|a + d| - 1] == a + d' && (b + d)[..|b + d| - 1] == b + d';
    }
  }

  lemma {:induction false} SubsequencePrefix(p: seq<Byte>, a: seq<Byte>, b: seq<Byte>)
    requires Subsequence(a, b) && p <= a
    ensures Subsequence(p, b)
    decreases |b|
  {
    if p != [] && p != a {
      var a', b' := a[..|a| - 1], b[..|b| - 1];
      if a[|a| - 1] == b[|b| - 1] && Subsequence(a', b') {
        SubsequencePrefix(p, a', b');
      } else {
        SubsequencePrefix(p, a, b');
      }
    }
  }

  lemma {:induction false} SubsequenceOfItself(a: seq<Byte>)
    ensures Subsequence(a, a)
  {
    if a != [] {
      SubsequenceOfItself(a[..|a| - 1]);
    }
  }

  lemma CallKeepsOrder(s: Snapshot, op: Op, ok: bool, s': Snapshot, stream: seq<Byte>)
    requires CallEffect(s, op, ok, s') && Subsequence(s.Accepted(), stream)
    ensures Subsequence(s'.Accepted(), stream + op.Bytes())
  {
    SubsequenceAppend(s.Accepted(), stream, op.Bytes());
    assert !ok ==> s'.Accepted() == s'.file;
    SubsequencePrefix(s'.Accepted(), s.Accepted() + op.Bytes(), stream + op.Bytes());
  }

  /** With any number of failures anywhere in the run, what has been accepted is still the
      stream with bytes left out: never a byte twice, never two in the wrong order. */
  lemma {:induction false} NeverReordered(ops: seq<Op>, oks: seq<bool>, trace: seq<Snapshot>)
    requires IsTrace(ops, oks, trace)
    ensures Subsequence(trace[|ops|].Accepted(), trace[0].Accepted() + Stream(ops))
  {
    var start := trace[0].Accepted();
    if ops == [] {
      SubsequenceOfItself(start);
      assert start + Stream(ops) == start;
    } else {
      var n := |ops| - 1;
      TracePrefix(ops, oks, trace, n);
      NeverReordered(ops[..n], oks[..n], trace[..n + 1]);
      CallKeepsOrder(trace[n], ops[n], oks[n], trace[n + 1], start + Stream(ops[..n]));
      assert start + Stream(ops[..n]) + ops[n].Bytes() == start + Stream(ops);
    }
  }

  // ----- the writer, over whole runs

  /** Any sequence of calls on a writer is a trace of call effects that ends in what the writer then
      holds. It holds all it held before and all data if and only if none of the write() calls
      that were made failed, and never more than a subsequence of that. */
  method Drive(w: BufferedWritable, ops: seq<Op>) returns (oks: seq<bool>, ghost trace: seq<Snapshot>)
    requires w.Valid()
    modifies w, w.buf, w.file
    ensures w.Valid() && old(w.file.calls) <= w.file.calls
    ensures IsTrace(ops, oks, trace) && trace[0] == old(w.Seen()) && trace[|ops|] == w.Seen()
    ensures AllOk(oks) <==> NoneFailed(w.file.kernel, old(w.file.calls), w.file.calls)
    ensures w.Accepted() == old(w.Accepted()) + Stream(ops)
            <==> NoneFailed(w.file.kernel, old(w.file.calls), w.file.calls)
    ensures Subsequence(w.Accepted(), old(w.Accepted()) + Stream(ops))
  {
    oks, trace := [], [w.Seen()];
    for i := 0 to |ops|
      invariant w.Valid() && old(w.file.calls) <= w.file.calls
      invariant |oks| == i && |trace| == i + 1 && trace[0] == old(w.Seen()) && trace[i] == w.Seen()
      invariant forall j :: 0 <= j < i ==> CallEffect(trace[j], ops[j], oks[j], trace[j + 1])
      invariant AllOk(oks) <==> NoneFailed(w.file.kernel, old(w.file.calls), w.file.calls)
    {
      var ok;
      ghost var before := w.file.calls;
      match ops[i] {
        case Put(data) => ok := w.Write(data);
        case Flush => ok := w.Flush();
      }
      assert CallEffect(trace[i], ops[i], ok, w.Seen());
      NoneFailedJoins(w.file.kernel, old(w.file.calls), before, w.file.calls);
      AllOkExtends(oks, ok);
      oks, trace := oks + [ok], trace + [w.Seen()];
    }
    NothingLostIff(ops, oks, trace);
    NeverReordered(ops, oks, trace);
  }

  /** Data that fits the buffer is accepted, and gone when the write() of the next flush fails,
      with all that was buffered before. */
  method FailedFlushLoses(w: BufferedWritable, data: seq<Byte>) returns (put: bool, flushed: bool)
    requires w.Valid() && 0 < |data| <= BUFFER_SIZE - w.pos && w.file.kernel(w.file.calls).Failed?
    modifies w, w.buf, w.file
    ensures w.Valid() && put && !flushed
    ensures w.Accepted() == old(w.file.contents) != old(w.Accepted()) + data
  {
    ghost var stream := w.Accepted() + data;
    put := w.Write(data);
    assert |w.Accepted()| == |w.file.contents| + w.pos;
    ghost var before := w.file.calls;
    flushed := w.Flush();
    assert w.file.kernel(before).Failed?;
    assert w.Accepted() == w.file.contents;
    assert |stream| > |old(w.file.contents)|;
  }
}
