/** src/asynclogcli.c: one log call builds one datagram in a page-sized buffer.

    The time stamp is an input: strftime is given 80 bytes, so it writes fewer than 80
    characters. `int` is unbounded here; in C `pos+len` overflows for lengths within 88 of
    INT_MAX. */
module LogClient {
  import opened Matching
  import opened FileIo

  const ONE_PAGE := 4096
  const NEWLINE: Byte := 10

  /** The bytes are those of the text, character by character. */
  predicate Spells(b: seq<Byte>, text: string) {
    |b| == |text| && forall k :: 0 <= k < |b| ==> b[k] as int == text[k] as int
  }

  /** The bytes of an ASCII literal. */
  function Ascii(s: string): (r: seq<Byte>)
    ensures |r| == |s|
    ensures (forall k :: 0 <= k < |s| ==> s[k] as int < 128) ==> Spells(r, s)
  {
    seq(|s|, k requires 0 <= k < |s| => s[k] as int % 256)
  }

  /** The label of a level, or nothing for a level that is never logged. */
  function Label(level: int): (r: Option<seq<Byte>>)
    ensures r.Some? <==> 0 <= level <= 4
    ensures r.Some? ==> |r.value| <= 8
    ensures level == 0 ==> Spells(r.value, " Debug: ")
    ensures level == 1 ==> Spells(r.value, " Info: ")
    ensures level == 2 ==> Spells(r.value, " Warn: ")
    ensures level == 3 ==> Spells(r.value, " Err: ")
    ensures level == 4 ==> Spells(r.value, " Fatal: ")
  {
    match level
    case 0 => Some(Ascii(" Debug: "))
    case 1 => Some(Ascii(" Info: "))
    case 2 => Some(Ascii(" Warn: "))
    case 3 => Some(Ascii(" Err: "))
    case 4 => Some(Ascii(" Fatal: "))
    case _ => None
  }

  /** The label tells the level. */
  lemma LabelsDiffer(a: int, b: int)
    requires Label(a).Some? && Label(b).Some? && a != b
    ensures Label(a) != Label(b)
  {
    LabelInitial(a);
    LabelInitial(b);
  }

  lemma LabelInitial(level: int)
    requires Label(level).Some?
    ensures var r := Label(level).value; |r| > 1 && r[1] as char == "DIWEF"[level]
  {
    match level {
      case 0 => assert " Debug: "[1] == 'D';
      case 1 => assert " Info: "[1] == 'I';
      case 2 => assert " Warn: "[1] == 'W';
      case 3 => assert " Err: "[1] == 'E';
      case 4 => assert " Fatal: "[1] == 'F';
    }
  }

  /** A record is the header, a prefix of the message and a newline; it fits one page, and
      the message is cut only when the whole would not fit, and then the page is full. */
  ghost predicate IsRecord(header: seq<Byte>, what: seq<Byte>, record: seq<Byte>) {
    && |header| < |record| <= ONE_PAGE
    && record[..|header|] == header
    && record[|record| - 1] == NEWLINE
    && record[|header|..|record| - 1] <= what
    && (|header| + |what| + 1 <= ONE_PAGE <==> record == header + what + [NEWLINE])
    && (|header| + |what| + 1 > ONE_PAGE ==> |record| == ONE_PAGE)
  }

  /** Cutting the message to the room left on the page makes a record. */
  lemma CutMakesRecord(header: seq<Byte>, what: seq<Byte>, len: nat)
    requires |header| < ONE_PAGE
    requires len == if |header| + |what| > ONE_PAGE - 1 then ONE_PAGE - 1 - |header| else |what|
    ensures IsRecord(header, what, header + what[..len] + [NEWLINE])
  {
    var record := header + what[..len] + [NEWLINE];
    assert record[|header|..|record| - 1] == what[..len];
    assert what[..|what|] == what;
  }

  /** Stamp, label, as much of the message as fits a page of 4096 bytes, newline. */
  predicate Labelled(record: seq<Byte>, stamp: seq<Byte>, tag: string, what: seq<Byte>) {
    var n, m := |stamp|, |stamp| + |tag|;
    && m < |record| == (if m + |what| + 1 <= 4096 then m + |what| + 1 else 4096)
    && record[..n] == stamp && Spells(record[n..m], tag)
    && record[m..|record| - 1] <= what && record[|record| - 1] == '\n' as int
  }

  lemma RecordIsLabelled(stamp: seq<Byte>, level: int, what: seq<Byte>, record: seq<Byte>)
    requires Label(level).Some? && |stamp| < 80 && IsRecord(stamp + Label(level).value, what, record)
    ensures level == 0 ==> Labelled(record, stamp, " Debug: ", what)
    ensures level == 1 ==> Labelled(record, stamp, " Info: ", what)
    ensures level == 2 ==> Labelled(record, stamp, " Warn: ", what)
    ensures level == 3 ==> Labelled(record, stamp, " Err: ", what)
    ensures level == 4 ==> Labelled(record, stamp, " Fatal: ", what)
  {
    var tag := Label(level).value;
    var header := stamp + tag;
    assert record[..|stamp|] == record[..|header|][..|stamp|] == stamp;
    assert record[|stamp|..|header|] == record[..|header|][|stamp|..] == tag;
  }

  /** posixc_asynclogcli_log, lines 34-44: the page-sized buffer is filled from left to right. */
  method Assemble(stamp: seq<Byte>, tmp: seq<Byte>, what: seq<Byte>) returns (record: seq<Byte>)
    requires |stamp| < 80 && |tmp| <= 8
    ensures IsRecord(stamp + tmp, what, record)
  {
    var buf := new Byte[ONE_PAGE](_ => 0);
    var len := |what|;
    CopyInto(buf, 0, stamp);
    var pos := |stamp|;
    CopyInto(buf, pos, tmp + [0]);
    pos := pos + |tmp|;
    assert buf[..pos] == buf[..pos + 1][..pos] == stamp + tmp;
    if pos + len > ONE_PAGE - 1 {
      len := ONE_PAGE - 1 - pos;
    }
    CopyInto(buf, pos, what[..len]);
    pos := pos + len;
    ghost var body := buf[..pos];
    buf[pos] := NEWLINE;
    assert buf[..pos + 1] == body + [NEWLINE];
    assert body == stamp + tmp + what[..len];
    CutMakesRecord(stamp + tmp, what, len);
    return buf[..pos + 1];
  }

  /** posixc_asynclogcli_log: the datagram handed to the socket, or nothing when the level is
      below the threshold or has no label. `what` holds the `len` bytes the caller passes. */
  method Log(lowest: int, stamp: seq<Byte>, what: seq<Byte>, level: int) returns (sent: Option<seq<Byte>>)
    requires |stamp| < 80
    ensures sent.Some? <==> lowest <= level && 0 <= level <= 4
    ensures sent.Some? ==> IsRecord(stamp + Label(level).value, what, sent.value)
    ensures sent.Some? && level == 0 ==> Labelled(sent.value, stamp, " Debug: ", what)
    ensures sent.Some? && level == 1 ==> Labelled(sent.value, stamp, " Info: ", what)
    ensures sent.Some? && level == 2 ==> Labelled(sent.value, stamp, " Warn: ", what)
    ensures sent.Some? && level == 3 ==> Labelled(sent.value, stamp, " Err: ", what)
    ensures sent.Some? && level == 4 ==> Labelled(sent.value, stamp, " Fatal: ", what)
  {
    if level < lowest {
      return None;
    }
    var tag := Label(level);
    if tag.None? {
      return None;
    }
    var record := Assemble(stamp, tag.value, what);
    RecordIsLabelled(stamp, level, what, record);
    return Some(record);
  }

  // ----- the framing can be undone

  function Concat(records: seq<seq<Byte>>): seq<Byte> {
    if records == [] then [] else records[0] + Concat(records[1..])
  }

  /** Cuts a byte stream after every newline; a last piece without one is dropped. */
  function Lines(s: seq<Byte>, from: nat): seq<seq<Byte>>
    requires from <= |s|
    decreases |s| - from
  {
    if from == |s| then []
    else if s[from] == NEWLINE then [s[..from + 1]] + Lines(s[from + 1..], 0)
    else Lines(s, from + 1)
  }

  predicate IsLine(r: seq<Byte>) {
    |r| > 0 && r[|r| - 1] == NEWLINE && forall k :: 0 <= k < |r| - 1 ==> r[k] != NEWLINE
  }

  lemma {:induction false} FirstLine(r: seq<Byte>, rest: seq<Byte>, from: nat)
    requires IsLine(r) && from < |r|
    ensures Lines(r + rest, from) == [r] + Lines(rest, 0)
    decreases |r| - from
  {
    if from == |r| - 1 {
      assert (r + rest)[..from + 1] == r && (r + rest)[from + 1..] == rest;
    } else {
      FirstLine(r, rest, from + 1);
    }
  }

  /** Whatever the stream, every piece is a line. */
  lemma {:induction false} PiecesAreLines(s: seq<Byte>, from: nat)
    requires from <= |s| && forall k :: 0 <= k < from ==> s[k] != NEWLINE
    ensures forall i :: 0 <= i < |Lines(s, from)| ==> IsLine(Lines(s, from)[i])
    decreases |s| - from
  {
    if from < |s| {
      if s[from] == NEWLINE {
        PiecesAreLines(s[from + 1..], 0);
        assert IsLine(s[..from + 1]);
      } else {
        PiecesAreLines(s, from + 1);
      }
    }
  }

  lemma {:induction false} LinesComeBack(records: seq<seq<Byte>>)
    requires forall i :: 0 <= i < |records| ==> IsLine(records[i])
    ensures Lines(Concat(records), 0) == records
  {
    if records != [] {
      LinesComeBack(records[1..]);
      FirstLine(records[0], Concat(records[1..]), 0);
    }
  }

  /** Cutting concatenated records at newlines gives them back if and only if each is a line. */
  lemma LinesUndoConcat(records: seq<seq<Byte>>)
    ensures Lines(Concat(records), 0) == records <==> forall i :: 0 <= i < |records| ==> IsLine(records[i])
  {
    if forall i :: 0 <= i < |records| ==> IsLine(records[i]) {
      LinesComeBack(records);
    }
    PiecesAreLines(Concat(records), 0);
  }

  /** The part of the message that a record holds. */
  function Kept(header: seq<Byte>, record: seq<Byte>): seq<Byte>
    requires |header| < |record|
  {
    record[|header|..|record| - 1]
  }

  /** Neither the header nor what the record holds of the message has a newline. */
  predicate OneLine(header: seq<Byte>, record: seq<Byte>) {
    |header| < |record| && NEWLINE !in header && NEWLINE !in Kept(header, record)
  }

  lemma RecordIsLine(header: seq<Byte>, what: seq<Byte>, record: seq<Byte>)
    requires IsRecord(header, what, record)
    ensures IsLine(record) <==> OneLine(header, record)
  {
    var body := Kept(header, record);
    assert forall k :: 0 <= k < |header| ==> record[k] == record[..|header|][k] == header[k];
    assert forall k :: 0 <= k < |body| ==> body[k] == record[|header| + k];
    if NEWLINE !in header && NEWLINE !in body {
      forall k | 0 <= k < |record| - 1
        ensures record[k] != NEWLINE
      {
        if k >= |header| {
          assert record[k] == body[k - |header|];
        }
      }
    }
  }
}
