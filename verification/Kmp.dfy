/** src/common/kmp.c: Knuth-Morris-Pratt search.

    The failure table (kmp_failure) is modelled as written. The search is modelled twice:
    `PrefixSearch` falls back through `P[j-1]`, the entry that the table was built for, and
    `WrittenStep` falls back through `P[j+1]` as line 34 of the source does. The first is
    proved to be a matcher; the second is proved not to be, for every needle. */
module Kmp {
  import opened Matching

  // ----- borders

  /** The first `b` bytes of `s` are also the last `b` of its first `n`, and `b < n`. */
  ghost predicate Border(s: seq<Byte>, n: nat, b: int) {
    0 <= b < n <= |s| && s[..b] == s[n - b..n]
  }

  ghost predicate LongestBorder(s: seq<Byte>, n: nat, b: int) {
    Border(s, n, b) && forall c :: Border(s, n, c) ==> c <= b
  }

  ghost predicate FailureTable(s: seq<Byte>, P: seq<nat>, upTo: nat)
    requires upTo <= |P|
  {
    forall i :: 0 <= i < upTo ==> LongestBorder(s, i + 1, P[i])
  }

  lemma BorderEnds(s: seq<Byte>, n: nat, b: nat)
    requires Border(s, n, b)
    ensures b > 0 ==> s[b - 1] == s[n - 1]
  {
    if b > 0 {
      assert s[..b][b - 1] == s[n - b..n][b - 1];
    }
  }

  /** Below a border `j` of the first `n` bytes, the borders of those bytes are the borders of the first `j`. */
  lemma BordersNest(s: seq<Byte>, n: nat, j: nat, b: int)
    requires Border(s, n, j) && b < j
    ensures Border(s, n, b) <==> Border(s, j, b)
  {
    if 0 <= b {
      assert s[n - b..n] == s[n - j..n][j - b..];
      assert s[j - b..j] == s[..j][j - b..];
    }
  }

  /** A border of one more byte is a border that the next byte extends. */
  lemma BorderExtends(s: seq<Byte>, n: nat, b: nat)
    requires 1 <= n < |s|
    ensures Border(s, n + 1, b + 1) <==> Border(s, n, b) && s[b] == s[n]
  {
    if b < n {
      assert s[..b + 1] == s[..b] + [s[b]];
      assert s[n - b..n + 1] == s[n - b..n] + [s[n]];
    }
  }

  /** Every border of the first `i` bytes that byte `i` extends is at most `j`. */
  ghost predicate NoneSkipped(s: seq<Byte>, i: nat, j: int)
    requires i < |s|
  {
    forall b :: Border(s, i, b) && s[b] == s[i] ==> b <= j
  }

  /** One fallback skips no candidate: the next candidate below `j` is the longest border of the first `j` bytes. */
  lemma FallbackKeepsCandidates(s: seq<Byte>, i: nat, j: nat, p: nat)
    requires 0 < j && i < |s|
    requires Border(s, i, j) && NoneSkipped(s, i, j)
    requires s[j] != s[i]
    requires LongestBorder(s, j, p)
    ensures Border(s, i, p) && NoneSkipped(s, i, p)
  {
    BordersNest(s, i, j, p);
    forall b | Border(s, i, b) && s[b] == s[i]
      ensures b <= p
    {
      BordersNest(s, i, j, b);
    }
  }

  /** When the fallback ends, the table entry is exact. */
  lemma EntryIsLongest(s: seq<Byte>, i: nat, j: nat)
    requires 1 <= i < |s|
    requires Border(s, i, j) && NoneSkipped(s, i, j)
    requires j == 0 || s[j] == s[i]
    ensures LongestBorder(s, i + 1, if s[i] == s[j] then j + 1 else j)
  {
    BorderExtends(s, i, j);
    var entry := if s[i] == s[j] then j + 1 else j;
    var n := i + 1;
    forall c | Border(s, n, c)
      ensures c <= entry
    {
      if c > 0 {
        BorderExtends(s, i, c - 1);
      }
    }
  }

  /** kmp_failure. The store to `P[1]` on line 14 needs a table of at least two entries. */
  method Failure(str: seq<Byte>, P: array<nat>)
    requires |str| == P.Length >= 2
    modifies P
    ensures FailureTable(str, P[..], |str|)
  {
    var len := |str|;
    var i := 1;
    var j := 0;
    P[0] := 0;
    P[1] := 0;
    while i < len
      invariant 1 <= i <= len
      invariant j == P[i - 1]
      invariant FailureTable(str, P[..], i)
    {
      assert LongestBorder(str, i, P[..][i - 1]);
      while j > 0 && str[i] != str[j]
        invariant Border(str, i, j) && NoneSkipped(str, i, j)
        invariant FailureTable(str, P[..], i)
        decreases j
      {
        assert LongestBorder(str, j, P[..][j - 1]);
        FallbackKeepsCandidates(str, i, j, P[j - 1]);
        j := P[j - 1];
      }
      EntryIsLongest(str, i, j);
      if str[i] == str[j] {
        j := j + 1;
      }
      ghost var before := P[..];
      P[i] := j;
      assert P[..i] == before[..i];
      assert forall k :: 0 <= k < i ==> P[..][k] == before[k];
      i := i + 1;
    }
  }

  // ----- searching

  /** The first `b` bytes of the needle are the last `b` of the first `i` bytes of the text. */
  ghost predicate Aligned(needle: seq<Byte>, text: seq<Byte>, i: nat, b: int) {
    0 <= b <= i <= |text| && b <= |needle| && needle[..b] == text[i - b..i]
  }

  ghost predicate NoneMissed(needle: seq<Byte>, text: seq<Byte>, i: nat, j: int)
    requires i < |text|
  {
    forall b :: Aligned(needle, text, i, b) && b < |needle| && needle[b] == text[i] ==> b <= j
  }

  ghost predicate LongestAligned(needle: seq<Byte>, text: seq<Byte>, i: nat, j: int) {
    && Aligned(needle, text, i, j) && j < |needle|
    && forall b :: Aligned(needle, text, i, b) && b < |needle| ==> b <= j
  }

  lemma AlignedNests(needle: seq<Byte>, text: seq<Byte>, i: nat, j: nat, b: int)
    requires Aligned(needle, text, i, j) && b < j
    ensures Aligned(needle, text, i, b) <==> Border(needle, j, b)
  {
    if 0 <= b {
      assert text[i - b..i] == text[i - j..i][j - b..];
      assert needle[j - b..j] == needle[..j][j - b..];
    }
  }

  lemma AlignedExtends(needle: seq<Byte>, text: seq<Byte>, i: nat, b: nat)
    requires i < |text| && b < |needle|
    ensures Aligned(needle, text, i + 1, b + 1) <==> Aligned(needle, text, i, b) && needle[b] == text[i]
  {
    if b <= i {
      assert needle[..b + 1] == needle[..b] + [needle[b]];
      assert text[i - b..i + 1] == text[i - b..i] + [text[i]];
    }
  }

  lemma FallbackMissesNone(needle: seq<Byte>, text: seq<Byte>, i: nat, j: nat, p: nat)
    requires i < |text| && 0 < j < |needle|
    requires Aligned(needle, text, i, j) && NoneMissed(needle, text, i, j)
    requires needle[j] != text[i]
    requires LongestBorder(needle, j, p)
    ensures Aligned(needle, text, i, p) && NoneMissed(needle, text, i, p)
  {
    AlignedNests(needle, text, i, j, p);
    forall b | Aligned(needle, text, i, b) && b < |needle| && needle[b] == text[i]
      ensures b <= p
    {
      if b < j {
        AlignedNests(needle, text, i, j, b);
      }
    }
  }

  ghost predicate AtMost(needle: seq<Byte>, text: seq<Byte>, i: nat, j: int) {
    forall b :: Aligned(needle, text, i, b) ==> b <= j
  }

  lemma ScanStep(needle: seq<Byte>, text: seq<Byte>, i: nat, j: nat)
    requires i < |text| && j < |needle|
    requires Aligned(needle, text, i, j) && NoneMissed(needle, text, i, j)
    requires j == 0 || needle[j] == text[i]
    ensures var j' := if needle[j] == text[i] then j + 1 else j;
            Aligned(needle, text, i + 1, j') && AtMost(needle, text, i + 1, j')
  {
    AlignedExtends(needle, text, i, j);
    var n := i + 1;
    forall b | Aligned(needle, text, n, b)
      ensures b <= if needle[j] == text[i] then j + 1 else j
    {
      if b > 0 {
        AlignedExtends(needle, text, i, b - 1);
      }
    }
  }

  /** An occurrence is a full alignment. */
  lemma OccurrenceIsAligned(needle: seq<Byte>, text: seq<Byte>, a: nat)
    ensures OccursAt(needle, text, a) <==> Aligned(needle, text, a + |needle|, |needle|)
  {
    if a + |needle| <= |text| {
      assert needle[..|needle|] == needle;
      assert OccursAt(needle, text, a) <==> text[a..a + |needle|] == needle;
    }
  }

  ghost predicate NoneEndsBy(needle: seq<Byte>, text: seq<Byte>, i: nat) {
    forall a: nat :: a + |needle| <= i ==> !OccursAt(needle, text, a)
  }

  lemma ScanVerdict(needle: seq<Byte>, text: seq<Byte>, i: nat, j: int)
    requires |needle| > 0 && i < |text|
    requires NoneEndsBy(needle, text, i)
    requires Aligned(needle, text, i + 1, j) && AtMost(needle, text, i + 1, j)
    ensures j == |needle| ==> j <= i + 1 && IsFirstMatch(needle, text, Some(i + 1 - j))
    ensures j < |needle| ==> NoneEndsBy(needle, text, i + 1)
  {
    if i + 1 >= |needle| {
      OccurrenceIsAligned(needle, text, i + 1 - |needle|);
    }
  }

  lemma LongestMissesNone(needle: seq<Byte>, text: seq<Byte>, i: nat, j: nat)
    requires i < |text| && LongestAligned(needle, text, i, j)
    ensures Aligned(needle, text, i, j) && NoneMissed(needle, text, i, j)
  {
  }

  lemma ScanByte(needle: seq<Byte>, text: seq<Byte>, i: nat, j: nat, j': nat)
    requires i < |text| && j < |needle| && NoneEndsBy(needle, text, i)
    requires Aligned(needle, text, i, j) && NoneMissed(needle, text, i, j)
    requires (j == 0 || needle[j] == text[i]) && j' == if needle[j] == text[i] then j + 1 else j
    ensures j' == |needle| ==> j' <= i + 1 && IsFirstMatch(needle, text, Some(i + 1 - j'))
    ensures j' < |needle| ==> NoneEndsBy(needle, text, i + 1) && LongestAligned(needle, text, i + 1, j')
  {
    ScanStep(needle, text, i, j);
    ScanVerdict(needle, text, i, j');
  }

  /** kmp_prefix_search with the fallback read as `P[j-1]`. */
  method PrefixSearch(text: seq<Byte>, needle: seq<Byte>, P: array<nat>) returns (r: Option<nat>)
    requires |needle| == P.Length > 0
    requires FailureTable(needle, P[..], |needle|)
    ensures IsFirstMatch(needle, text, r)
  {
    var j := 0;
    var i := 0;
    while i < |text|
      invariant 0 <= i <= |text|
      invariant LongestAligned(needle, text, i, j)
      invariant NoneEndsBy(needle, text, i)
    {
      LongestMissesNone(needle, text, i, j);
      while j > 0 && text[i] != needle[j]
        invariant 0 <= j < |needle|
        invariant Aligned(needle, text, i, j) && NoneMissed(needle, text, i, j)
        decreases j
      {
        assert LongestBorder(needle, j, P[..][j - 1]);
        FallbackMissesNone(needle, text, i, j, P[j - 1]);
        j := P[j - 1];
      }
      ghost var matched := j;
      if needle[j] == text[i] {
        j := j + 1;
      }
      ScanByte(needle, text, i, matched, j);
      if j == |needle| {
        return Some(i - |needle| + 1);
      }
      i := i + 1;
    }
    return None;
  }

  /** posixc_kmp_contains */
  method Contains(text: seq<Byte>, needle: seq<Byte>) returns (r: Option<nat>)
    requires |needle| >= 2
    ensures IsFirstMatch(needle, text, r)
  {
    var P := new nat[|needle|];
    Failure(needle, P);
    r := PrefixSearch(text, needle, P);
  }

  // ----- the search as written

  /** One control step of the scan: it is between bytes or between fallbacks, has an answer,
      or has read the table outside its bounds. */
  datatype Scan = Scanning(i: nat, j: nat) | Found(at: int) | Missing | OutOfBounds

  /** Lines 32-42 of the source, one loop decision at a time, with the fallback on line 34 as written. */
  function WrittenStep(needle: seq<Byte>, P: seq<nat>, text: seq<Byte>, c: Scan): Scan
    requires |P| == |needle|
  {
    if !c.Scanning? || c.j >= |needle| then c
    else if c.i >= |text| then Missing
    else if c.j > 0 && text[c.i] != needle[c.j] then
      if c.j + 1 < |P| then Scanning(c.i, P[c.j + 1]) else OutOfBounds
    else
      var j := if needle[c.j] == text[c.i] then c.j + 1 else c.j;
      if j == |needle| then Found(c.i + 1 - |needle|) else Scanning(c.i + 1, j)
  }

  function WrittenRun(needle: seq<Byte>, P: seq<nat>, text: seq<Byte>, steps: nat): Scan
    requires |P| == |needle|
  {
    if steps == 0 then Scanning(0, 0) else WrittenStep(needle, P, text, WrittenRun(needle, P, text, steps - 1))
  }

  /** While the text repeats the needle, the scan just advances. */
  lemma {:induction false} WrittenAdvances(needle: seq<Byte>, P: seq<nat>, text: seq<Byte>, from: nat, steps: nat)
    requires |P| == |needle| && from <= steps
    requires WrittenRun(needle, P, text, from) == Scanning(from, 0)
    requires steps <= |text| && steps - from < |needle|
    requires forall k :: 0 <= k < steps - from ==> text[from + k] == needle[k]
    ensures WrittenRun(needle, P, text, steps) == Scanning(steps, steps - from)
  {
    if steps > from {
      WrittenAdvances(needle, P, text, from, steps - 1);
      assert text[from + (steps - 1 - from)] == needle[steps - 1 - from];
    }
  }

  /** All of the needle but its last byte, then another byte. */
  function LastByteChanged(needle: seq<Byte>): (text: seq<Byte>)
    requires |needle| > 0
    ensures |text| == |needle| && text[|needle| - 1] != needle[|needle| - 1]
    ensures forall k :: 0 <= k < |needle| - 1 ==> text[k] == needle[k]
  {
    needle[..|needle| - 1] + [if needle[|needle| - 1] == 0 then 1 else 0]
  }

  /** Every needle the library accepts has a text on which the search as written reads its
      table one past the end. */
  lemma {:induction false} WrittenReadsOutside(needle: seq<Byte>, P: seq<nat>)
    requires |needle| == |P| >= 2
    ensures WrittenRun(needle, P, LastByteChanged(needle), |needle|) == OutOfBounds
  {
    WrittenAdvances(needle, P, LastByteChanged(needle), 0, |needle| - 1);
  }

  /** The scan reaches line 34 exactly when the first place in the text that holds the
      needle's first byte starts a match that then fails. */
  ghost predicate FirstTryFails(needle: seq<Byte>, text: seq<Byte>, a: nat, k: nat)
    requires |needle| > 0
  {
    && 0 < k < |needle| && a + k < |text|
    && (forall i :: 0 <= i < a ==> text[i] != needle[0])
    && (forall i :: 0 <= i < k ==> text[a + i] == needle[i])
    && text[a + k] != needle[k]
  }

  lemma {:induction false} WrittenSkips(needle: seq<Byte>, P: seq<nat>, text: seq<Byte>, a: nat)
    requires |P| == |needle| > 0 && a <= |text|
    requires forall i :: 0 <= i < a ==> text[i] != needle[0]
    ensures WrittenRun(needle, P, text, a) == Scanning(a, 0)
  {
    if a > 0 {
      WrittenSkips(needle, P, text, a - 1);
    }
  }

  /** The scan is about to take line 34. */
  predicate AtFallback(needle: seq<Byte>, text: seq<Byte>, c: Scan) {
    c.Scanning? && 0 < c.j < |needle| && c.i < |text| && text[c.i] != needle[c.j]
  }

  /** Until it falls back, the scan stands right behind the first place that holds the needle's
      first byte, if there is one, and has matched all it has seen since. */
  ghost predicate Straight(needle: seq<Byte>, text: seq<Byte>, c: Scan, n: nat)
    requires |needle| > 0
  {
    && c.Scanning? && c.i == n <= |text| && c.j < |needle| && c.j <= n
    && (forall i :: 0 <= i < n - c.j ==> text[i] != needle[0])
    && (forall i :: 0 <= i < c.j ==> text[n - c.j + i] == needle[i])
  }

  lemma {:induction false} StraightUntilFallback(needle: seq<Byte>, P: seq<nat>, text: seq<Byte>, n: nat)
    requires |needle| == |P| > 0
    requires forall m: nat :: m < n ==> !AtFallback(needle, text, WrittenRun(needle, P, text, m))
    ensures var c := WrittenRun(needle, P, text, n); c.Scanning? ==> Straight(needle, text, c, n)
  {
    if n > 0 {
      StraightUntilFallback(needle, P, text, n - 1);
      var c := WrittenRun(needle, P, text, n - 1);
      assert !AtFallback(needle, text, c);
      assert WrittenRun(needle, P, text, n) == WrittenStep(needle, P, text, c);
    }
  }

  ghost predicate FallsBack(needle: seq<Byte>, P: seq<nat>, text: seq<Byte>)
    requires |needle| == |P|
  {
    exists n: nat :: AtFallback(needle, text, WrittenRun(needle, P, text, n))
  }

  ghost predicate SomeFirstTryFails(needle: seq<Byte>, text: seq<Byte>)
    requires |needle| > 0
  {
    exists a: nat, k: nat :: FirstTryFails(needle, text, a, k)
  }

  lemma {:induction false} FirstFallback(needle: seq<Byte>, P: seq<nat>, text: seq<Byte>, n: nat)
    requires |needle| == |P| >= 2
    requires AtFallback(needle, text, WrittenRun(needle, P, text, n))
    ensures SomeFirstTryFails(needle, text)
    decreases n
  {
    if m: nat :| m < n && AtFallback(needle, text, WrittenRun(needle, P, text, m)) {
      FirstFallback(needle, P, text, m);
    } else {
      StraightUntilFallback(needle, P, text, n);
      var c := WrittenRun(needle, P, text, n);
      assert FirstTryFails(needle, text, n - c.j, c.j);
    }
  }

  /** The scan as written takes line 34 if and only if the first try fails. */
  lemma {:induction false} WrittenFallsBackIff(needle: seq<Byte>, P: seq<nat>, text: seq<Byte>)
    requires |needle| == |P| >= 2
    ensures FallsBack(needle, P, text) <==> SomeFirstTryFails(needle, text)
  {
    if SomeFirstTryFails(needle, text) {
      var a: nat, k: nat :| FirstTryFails(needle, text, a, k);
      WrittenFallsBack(needle, P, text, a, k);
      var n: nat := a + k;
      assert AtFallback(needle, text, WrittenRun(needle, P, text, n));
    }
    if FallsBack(needle, P, text) {
      var n: nat :| AtFallback(needle, text, WrittenRun(needle, P, text, n));
      FirstFallback(needle, P, text, n);
    }
  }

  /** If the first try does not fail, the scan as written never falls back and answers correctly. */
  lemma WrittenRightWithoutFallback(needle: seq<Byte>, P: seq<nat>, text: seq<Byte>)
    requires |needle| == |P| >= 2
    requires !SomeFirstTryFails(needle, text)
    ensures WrittenAnswers(needle, P, text)
  {
    var n, m := |text|, |needle|;
    var a := 0;
    while a < n && text[a] != needle[0]
      invariant 0 <= a <= n
      invariant forall i :: 0 <= i < a ==> text[i] != needle[0]
    {
      a := a + 1;
    }
    WrittenSkips(needle, P, text, a);
    forall b | 0 <= b < a
      ensures !OccursAt(needle, text, b)
    {
      assert needle[0] != text[b + 0];
    }
    var k := 0;
    while a + k < n && k < m && text[a + k] == needle[k]
      invariant 0 <= k <= m && a + k <= n
      invariant forall i :: 0 <= i < k ==> text[a + i] == needle[i]
    {
      k := k + 1;
    }
    if k == m {
      WrittenAdvances(needle, P, text, a, a + m - 1);
      assert WrittenRun(needle, P, text, a + m) == Answer(Some(a));
      assert IsFirstMatch(needle, text, Some(a));
    } else {
      assert !FirstTryFails(needle, text, a, k);
      assert a + k == n;
      WrittenAdvances(needle, P, text, a, n);
      assert WrittenRun(needle, P, text, n + 1) == Answer(None);
      assert IsFirstMatch(needle, text, None);
    }
  }

  /** If the first try fails, the scan as written does reach line 34. */
  lemma WrittenFallsBack(needle: seq<Byte>, P: seq<nat>, text: seq<Byte>, a: nat, k: nat)
    requires |needle| == |P| >= 2
    requires FirstTryFails(needle, text, a, k)
    ensures AtFallback(needle, text, WrittenRun(needle, P, text, a + k))
  {
    WrittenSkips(needle, P, text, a);
    WrittenAdvances(needle, P, text, a, a + k);
  }

  // ----- when the first try fails at the last byte

  /** An answer, or a read outside the table, is final. */
  lemma {:induction false} WrittenStops(needle: seq<Byte>, P: seq<nat>, text: seq<Byte>, from: nat, steps: nat)
    requires |P| == |needle| && from <= steps && !WrittenRun(needle, P, text, from).Scanning?
    ensures WrittenRun(needle, P, text, steps) == WrittenRun(needle, P, text, from)
  {
    if steps > from {
      WrittenStops(needle, P, text, from, steps - 1);
    }
  }

  /** Whatever the table holds, a text whose first try fails at the needle's last byte makes the
      search as written read past its end, however long it runs. */
  lemma LastByteFailureReadsOutside(needle: seq<Byte>, P: seq<nat>, text: seq<Byte>, a: nat, steps: nat)
    requires |needle| == |P| >= 2 && FirstTryFails(needle, text, a, |needle| - 1) && steps >= a + |needle|
    ensures WrittenRun(needle, P, text, steps) == OutOfBounds
  {
    var n := a + |needle| - 1;
    WrittenSkips(needle, P, text, a);
    WrittenAdvances(needle, P, text, a, n);
    assert WrittenRun(needle, P, text, n + 1) == OutOfBounds;
    WrittenStops(needle, P, text, n + 1, steps);
  }

  /** The search as written comes to the right answer. */
  ghost predicate WrittenAnswers(needle: seq<Byte>, P: seq<nat>, text: seq<Byte>)
    requires |P| == |needle|
  {
    exists steps: nat, r: Option<nat> ::
      IsFirstMatch(needle, text, r) && WrittenRun(needle, P, text, steps) == Answer(r)
  }

  function Answer(r: Option<nat>): Scan {
    if r.None? then Missing else Found(r.value)
  }

  // ----- two failures

  /** "aabc" occurs in "aaabc" at 1, but the search as written answers that it does not occur. */
  lemma WrittenMissesMatch(P: seq<nat>)
    requires |P| == 4 && FailureTable([97, 97, 98, 99], P, 4)
    ensures OccursAt([97, 97, 98, 99], [97, 97, 97, 98, 99], 1)
    ensures WrittenRun([97, 97, 98, 99], P, [97, 97, 97, 98, 99], 8) == Missing
  {
    var s: seq<Byte>, t: seq<Byte> := [97, 97, 98, 99], [97, 97, 97, 98, 99];
    assert LongestBorder(s, 3, P[2]);
    assert LongestBorder(s, 4, P[3]);
    BorderEnds(s, 3, P[2]);
    BorderEnds(s, 4, P[3]);
    assert WrittenRun(s, P, t, 1) == Scanning(1, 1);
    assert WrittenRun(s, P, t, 2) == Scanning(2, 2);
    assert WrittenRun(s, P, t, 3) == Scanning(2, 0);
    assert WrittenRun(s, P, t, 4) == Scanning(3, 1);
    assert WrittenRun(s, P, t, 5) == Scanning(3, 0);
    assert WrittenRun(s, P, t, 6) == Scanning(4, 0);
    assert WrittenRun(s, P, t, 7) == Scanning(5, 0);
  }

  /** On "aa", the search for "aba" as written repeats one fallback for ever. */
  lemma {:induction false} WrittenLoops(P: seq<nat>, steps: nat)
    requires |P| == 3 && FailureTable([97, 98, 97], P, 3)
    requires steps >= 1
    ensures WrittenRun([97, 98, 97], P, [97, 97], steps) == Scanning(1, 1)
  {
    var s: seq<Byte> := [97, 98, 97];
    if steps > 1 {
      WrittenLoops(P, steps - 1);
      assert LongestBorder(s, 3, P[2]);
      assert Border(s, 3, 1);
      BorderEnds(s, 3, P[2]);
    } else {
      assert WrittenRun(s, P, [97, 97], 0) == Scanning(0, 0);
    }
  }
}
