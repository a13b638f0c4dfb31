/** src/common/kmp.c with line 34 as written: for which needles the search is right on every text
    without a near miss, and only on those. */
module KmpWritten {
  import opened Matching
  import opened Kmp

  // ----- where a chain of fallbacks ends

  /** Byte `b` ends a chain of fallbacks at `x`. */
  predicate AtRest(needle: seq<Byte>, b: Byte, x: nat) {
    x < |needle| && (x == 0 || needle[x] == b)
  }

  /** Where at most `k` fallbacks of line 34 lead from `x`, unless one reads outside the table. */
  function Falls(needle: seq<Byte>, P: seq<nat>, b: Byte, x: nat, k: nat): Option<nat>
    requires |P| == |needle|
    decreases k
  {
    if k == 0 || x >= |needle| || AtRest(needle, b, x) then Some(x)
    else if x + 1 < |P| then Falls(needle, P, b, P[x + 1], k - 1)
    else None
  }

  /** The chain of fallbacks through `P[j+1]` ends at `e`. */
  ghost predicate Ends(needle: seq<Byte>, P: seq<nat>, b: Byte, x: nat, e: nat)
    requires |P| == |needle|
  {
    AtRest(needle, b, e) && exists k: nat :: Falls(needle, P, b, x, k) == Some(e)
  }

  /** The end of the chain through `P[j-1]`. */
  function IntendedEnd(needle: seq<Byte>, P: seq<nat>, b: Byte, x: nat): nat
    requires |P| == |needle|
  {
    if x == 0 || x >= |needle| || needle[x] == b || P[x - 1] >= x then x else IntendedEnd(needle, P, b, P[x - 1])
  }

  /** The end that a chain from `j` should have: the longest border of the first `j` bytes that
      byte `b` extends, or 0 if it extends none. */
  ghost predicate RightEnd(needle: seq<Byte>, j: nat, b: Byte, e: nat) {
    && Border(needle, j, e) && AtRest(needle, b, e)
    && forall l :: Border(needle, j, l) && needle[l] == b ==> l <= e
  }

  lemma RightEndIsUnique(needle: seq<Byte>, j: nat, b: Byte, e: nat, e': nat)
    requires RightEnd(needle, j, b, e) && RightEnd(needle, j, b, e')
    ensures e == e'
  {
  }

  lemma {:induction false} IntendedChainIsRight(needle: seq<Byte>, P: seq<nat>, b: Byte, j: nat, x: nat)
    requires |P| == |needle| && FailureTable(needle, P, |needle|) && j < |needle| && needle[j] != b
    requires Border(needle, j, x) && forall l :: Border(needle, j, l) && needle[l] == b ==> l <= x
    ensures RightEnd(needle, j, b, IntendedEnd(needle, P, b, x))
    decreases x
  {
    if x > 0 && needle[x] != b {
      assert LongestBorder(needle, x - 1 + 1, P[x - 1]);
      BordersNest(needle, j, x, P[x - 1]);
      forall l | Border(needle, j, l) && needle[l] == b
        ensures l <= P[x - 1]
      {
        BordersNest(needle, j, x, l);
      }
      IntendedChainIsRight(needle, P, b, j, P[x - 1]);
    }
  }

  /** The chain through `P[j-1]` always ends there. */
  lemma IntendedEndIsRight(needle: seq<Byte>, P: seq<nat>, b: Byte, j: nat)
    requires |P| == |needle| && FailureTable(needle, P, |needle|) && 0 < j < |needle| && needle[j] != b
    ensures RightEnd(needle, j, b, IntendedEnd(needle, P, b, j))
  {
    assert LongestBorder(needle, j - 1 + 1, P[j - 1]);
    IntendedChainIsRight(needle, P, b, j, P[j - 1]);
  }

  ghost predicate EndsRight(needle: seq<Byte>, P: seq<nat>, j: nat, b: Byte)
    requires |P| == |needle|
  {
    0 < j < |needle| - 1 && needle[j] != b ==> exists e: nat :: Ends(needle, P, b, j, e) && RightEnd(needle, j, b, e)
  }

  /** Below the last byte, every chain through the wrong entries ends where it should. */
  ghost predicate RightEnds(needle: seq<Byte>, P: seq<nat>)
    requires |P| == |needle|
  {
    forall j: nat, b: Byte :: EndsRight(needle, P, j, b)
  }

  ghost predicate SameEnd(needle: seq<Byte>, P: seq<nat>, j: nat, b: Byte)
    requires |P| == |needle|
  {
    0 < j < |needle| - 1 && needle[j] != b ==> Ends(needle, P, b, j, IntendedEnd(needle, P, b, j))
  }

  /** For the table that the library builds: the chains through `P[j+1]` and `P[j-1]` end in the
      same place. */
  lemma RightEndsIff(needle: seq<Byte>, P: seq<nat>)
    requires |needle| == |P| && FailureTable(needle, P, |needle|)
    ensures RightEnds(needle, P) <==> forall j: nat, b: Byte :: SameEnd(needle, P, j, b)
  {
    forall j: nat, b: Byte
      ensures EndsRight(needle, P, j, b) <==> SameEnd(needle, P, j, b)
    {
      if 0 < j < |needle| - 1 && needle[j] != b {
        IntendedEndIsRight(needle, P, b, j);
        if e: nat :| Ends(needle, P, b, j, e) && RightEnd(needle, j, b, e) {
          RightEndIsUnique(needle, j, b, e, IntendedEnd(needle, P, b, j));
        }
      }
    }
  }

  // ----- the plainest of these needles

  ghost predicate RightAt(needle: seq<Byte>, P: seq<nat>, j: nat) {
    j + 1 < |P| && LongestBorder(needle, j, P[j + 1])
  }

  /** Below the last byte, the entry that line 34 reads is the one it needs. */
  ghost predicate RightFallbacks(needle: seq<Byte>, P: seq<nat>) {
    forall j :: 0 < j < |P| - 1 ==> RightAt(needle, P, j)
  }

  predicate SameEntry(P: seq<nat>, j: nat) {
    0 < j < |P| - 1 ==> P[j + 1] == P[j - 1]
  }

  /** For the table that the library builds, this means that entries two apart are equal, as they
      are when no prefix of the needle has a border. */
  lemma RightFallbacksIff(needle: seq<Byte>, P: seq<nat>)
    requires |needle| == |P| && FailureTable(needle, P, |needle|)
    ensures RightFallbacks(needle, P) <==> forall j: nat :: SameEntry(P, j)
  {
    forall j: nat | 0 < j < |P| - 1
      ensures RightAt(needle, P, j) <==> SameEntry(P, j)
    {
      assert LongestBorder(needle, j - 1 + 1, P[j - 1]);
    }
  }

  lemma {:induction false} RightFallbacksEnd(needle: seq<Byte>, P: seq<nat>, b: Byte, j: nat, x: nat)
      returns (k: nat, e: nat)
    requires |P| == |needle| && RightFallbacks(needle, P) && j < |needle| - 1 && needle[j] != b
    requires Border(needle, j, x) && forall l :: Border(needle, j, l) && needle[l] == b ==> l <= x
    ensures Falls(needle, P, b, x, k) == Some(e) && RightEnd(needle, j, b, e)
    decreases x
  {
    if AtRest(needle, b, x) {
      k, e := 0, x;
    } else {
      assert RightAt(needle, P, x);
      BordersNest(needle, j, x, P[x + 1]);
      forall l | Border(needle, j, l) && needle[l] == b
        ensures l <= P[x + 1]
      {
        BordersNest(needle, j, x, l);
      }
      k, e := RightFallbacksEnd(needle, P, b, j, P[x + 1]);
      k := k + 1;
    }
  }

  lemma RightFallbacksEndRight(needle: seq<Byte>, P: seq<nat>)
    requires |P| == |needle| && RightFallbacks(needle, P)
    ensures RightEnds(needle, P)
  {
    forall j: nat, b: Byte
      ensures EndsRight(needle, P, j, b)
    {
      if 0 < j < |needle| - 1 && needle[j] != b {
        assert RightAt(needle, P, j);
        var k, e := RightFallbacksEnd(needle, P, b, j, P[j + 1]);
        assert Falls(needle, P, b, j, k + 1) == Some(e);
        assert Ends(needle, P, b, j, e);
      }
    }
  }

  // ----- right exactly without a near miss

  /** All of the needle but its last byte ends right before byte `i`, which then differs, and no
      occurrence has come to an end. */
  ghost predicate NearMiss(needle: seq<Byte>, text: seq<Byte>, i: nat)
    requires |needle| > 0
  {
    && i < |text| && Aligned(needle, text, i, |needle| - 1) && text[i] != needle[|needle| - 1]
    && NoneEndsBy(needle, text, i)
  }

  ghost predicate NoNearMiss(needle: seq<Byte>, text: seq<Byte>)
    requires |needle| > 0
  {
    forall i: nat :: !NearMiss(needle, text, i)
  }

  /** A scan that has missed nothing and met no near miss. */
  ghost predicate OnTrack(needle: seq<Byte>, text: seq<Byte>, c: Scan)
    requires |needle| > 0
  {
    && c.Scanning? && c.i <= |text| && c.j < |needle|
    && Aligned(needle, text, c.i, c.j) && NoneEndsBy(needle, text, c.i)
    && (c.i < |text| ==> NoneMissed(needle, text, c.i, c.j))
    && (Aligned(needle, text, c.i, |needle| - 1) ==> c.j == |needle| - 1)
    && forall i: nat :: i < c.i ==> !NearMiss(needle, text, i)
  }

  /** The scan has ended, with the right answer if there is no near miss, outside its table if there is one. */
  ghost predicate Settled(needle: seq<Byte>, text: seq<Byte>, c: Scan)
    requires |needle| > 0
  {
    if c.OutOfBounds? then exists i: nat :: NearMiss(needle, text, i)
    else
      && (forall i: nat :: !NearMiss(needle, text, i))
      && exists r: Option<nat> :: IsFirstMatch(needle, text, r) && c == Answer(r)
  }

  /** While it falls back, the scan follows the chain. */
  lemma {:induction false} FollowsChain(needle: seq<Byte>, P: seq<nat>, text: seq<Byte>, steps: nat, k: nat)
      returns (end: nat)
    requires |P| == |needle|
    requires var c := WrittenRun(needle, P, text, steps);
             c.Scanning? && c.i < |text| && Falls(needle, P, text[c.i], c.j, k).Some?
    ensures var c := WrittenRun(needle, P, text, steps);
            WrittenRun(needle, P, text, end) == Scanning(c.i, Falls(needle, P, text[c.i], c.j, k).value)
    decreases k
  {
    var c := WrittenRun(needle, P, text, steps);
    if k == 0 || c.j >= |needle| || AtRest(needle, text[c.i], c.j) {
      end := steps;
    } else {
      assert WrittenRun(needle, P, text, steps + 1) == WrittenStep(needle, P, text, c);
      end := FollowsChain(needle, P, text, steps + 1, k - 1);
    }
  }

  /** A right end misses no alignment that the byte extends. */
  lemma RightEndMissesNone(needle: seq<Byte>, text: seq<Byte>, i: nat, j: nat, e: nat)
    requires i < |text| && 0 < j < |needle| && needle[j] != text[i] && RightEnd(needle, j, text[i], e)
    requires Aligned(needle, text, i, j) && NoneMissed(needle, text, i, j)
    ensures Aligned(needle, text, i, e) && NoneMissed(needle, text, i, e)
  {
    AlignedNests(needle, text, i, j, e);
    forall b | Aligned(needle, text, i, b) && b < |needle| && needle[b] == text[i]
      ensures b <= e
    {
      if b < j {
        AlignedNests(needle, text, i, j, b);
      }
    }
  }

  lemma ChainStaysOnTrack(needle: seq<Byte>, P: seq<nat>, text: seq<Byte>, steps: nat) returns (end: nat)
    requires |needle| == |P| >= 2 && RightEnds(needle, P)
    requires var c := WrittenRun(needle, P, text, steps);
             OnTrack(needle, text, c) && AtFallback(needle, text, c) && c.j < |needle| - 1
    ensures var c, c' := WrittenRun(needle, P, text, steps), WrittenRun(needle, P, text, end);
            && OnTrack(needle, text, c') && c'.i == c.i && c'.j < |needle| - 1
            && !AtFallback(needle, text, c')
  {
    var c := WrittenRun(needle, P, text, steps);
    assert EndsRight(needle, P, c.j, text[c.i]);
    var e: nat :| Ends(needle, P, text[c.i], c.j, e) && RightEnd(needle, c.j, text[c.i], e);
    var k: nat :| Falls(needle, P, text[c.i], c.j, k) == Some(e);
    end := FollowsChain(needle, P, text, steps, k);
    RightEndMissesNone(needle, text, c.i, c.j, e);
  }

  lemma FallsOutAtNearMiss(needle: seq<Byte>, P: seq<nat>, text: seq<Byte>, c: Scan)
    requires |needle| == |P| >= 2 && OnTrack(needle, text, c) && AtFallback(needle, text, c) && c.j == |needle| - 1
    ensures Settled(needle, text, WrittenStep(needle, P, text, c))
  {
    assert NearMiss(needle, text, c.i);
  }

  lemma FindsOnTrack(needle: seq<Byte>, text: seq<Byte>, i: nat)
    requires |needle| >= 2 && OnTrack(needle, text, Scanning(i, |needle| - 1))
    requires i < |text| && text[i] == needle[|needle| - 1]
    ensures i + 1 >= |needle| && Settled(needle, text, Found(i + 1 - |needle|))
  {
    ScanStep(needle, text, i, |needle| - 1);
    ScanVerdict(needle, text, i, |needle|);
    var a := i + 1 - |needle|;
    assert IsFirstMatch(needle, text, Some(a)) && Answer(Some(a)) == Found(a);
    assert a + |needle| <= i + 1 && OccursAt(needle, text, a);
  }

  lemma LongestIsOnTrack(needle: seq<Byte>, text: seq<Byte>, n: nat, j: nat)
    requires |needle| > 0 && j < |needle| && Aligned(needle, text, n, j) && AtMost(needle, text, n, j)
    requires NoneEndsBy(needle, text, n) && forall i: nat :: i < n ==> !NearMiss(needle, text, i)
    ensures OnTrack(needle, text, Scanning(n, j))
  {
  }

  lemma NoNearMissHere(needle: seq<Byte>, text: seq<Byte>, c: Scan)
    requires |needle| >= 2 && OnTrack(needle, text, c) && c.i < |text| && !AtFallback(needle, text, c)
    ensures !NearMiss(needle, text, c.i)
  {
  }

  lemma NextByteOnTrack(needle: seq<Byte>, text: seq<Byte>, c: Scan, j: nat)
    requires |needle| >= 2 && OnTrack(needle, text, c) && c.i < |text| && !AtFallback(needle, text, c)
    requires j == (if needle[c.j] == text[c.i] then c.j + 1 else c.j) && j < |needle|
    ensures OnTrack(needle, text, Scanning(c.i + 1, j))
  {
    var n := c.i + 1;
    assert Aligned(needle, text, n, j) && AtMost(needle, text, n, j) by {
      ScanStep(needle, text, c.i, c.j);
    }
    assert NoneEndsBy(needle, text, n) by {
      ScanVerdict(needle, text, c.i, j);
    }
    assert forall i: nat :: i < n ==> !NearMiss(needle, text, i) by {
      NoNearMissHere(needle, text, c);
    }
    LongestIsOnTrack(needle, text, n, j);
  }

  lemma AdvancesOnTrack(needle: seq<Byte>, P: seq<nat>, text: seq<Byte>, c: Scan)
    requires |needle| == |P| >= 2 && OnTrack(needle, text, c) && c.i < |text| && !AtFallback(needle, text, c)
    requires text[c.i] == needle[c.j] ==> c.j < |needle| - 1
    ensures var c' := WrittenStep(needle, P, text, c); OnTrack(needle, text, c') && c'.i == c.i + 1
  {
    NextByteOnTrack(needle, text, c, if needle[c.j] == text[c.i] then c.j + 1 else c.j);
  }

  lemma EndsOnTrack(needle: seq<Byte>, text: seq<Byte>, c: Scan)
    requires |needle| > 0 && OnTrack(needle, text, c) && c.i == |text|
    ensures Settled(needle, text, Missing)
  {
    assert IsFirstMatch(needle, text, None) && Answer(None) == Missing;
  }

  /** Between chains, every step settles the scan or takes it to the next byte. */
  lemma TrackStep(needle: seq<Byte>, P: seq<nat>, text: seq<Byte>, c: Scan)
    requires |needle| == |P| >= 2 && OnTrack(needle, text, c)
    requires AtFallback(needle, text, c) ==> c.j == |needle| - 1
    ensures var c' := WrittenStep(needle, P, text, c);
            if c'.Scanning? then OnTrack(needle, text, c') && c'.i == c.i + 1 else Settled(needle, text, c')
  {
    if c.i == |text| {
      EndsOnTrack(needle, text, c);
    } else if AtFallback(needle, text, c) {
      FallsOutAtNearMiss(needle, P, text, c);
    } else if text[c.i] == needle[c.j] && c.j == |needle| - 1 {
      FindsOnTrack(needle, text, c.i);
    } else {
      AdvancesOnTrack(needle, P, text, c);
    }
  }

  /** A scan on track ends, and is settled when it does. */
  lemma {:induction false} TrackEnds(needle: seq<Byte>, P: seq<nat>, text: seq<Byte>, steps: nat) returns (end: nat)
    requires |needle| == |P| >= 2 && RightEnds(needle, P)
    requires OnTrack(needle, text, WrittenRun(needle, P, text, steps))
    ensures !WrittenRun(needle, P, text, end).Scanning? && Settled(needle, text, WrittenRun(needle, P, text, end))
    decreases |text| - WrittenRun(needle, P, text, steps).i
  {
    var c, n := WrittenRun(needle, P, text, steps), steps;
    if AtFallback(needle, text, c) && c.j < |needle| - 1 {
      n := ChainStaysOnTrack(needle, P, text, steps);
      c := WrittenRun(needle, P, text, n);
    }
    end := n + 1;
    assert WrittenRun(needle, P, text, end) == WrittenStep(needle, P, text, c);
    TrackStep(needle, P, text, c);
    if WrittenRun(needle, P, text, end).Scanning? {
      end := TrackEnds(needle, P, text, end);
    }
  }

  lemma StartsOnTrack(needle: seq<Byte>, text: seq<Byte>)
    requires |needle| >= 2
    ensures OnTrack(needle, text, Scanning(0, 0))
  {
  }

  lemma AnswersAgree(needle: seq<Byte>, P: seq<nat>, text: seq<Byte>, m: nat, n: nat)
    requires |P| == |needle|
    requires !WrittenRun(needle, P, text, m).Scanning? && !WrittenRun(needle, P, text, n).Scanning?
    ensures WrittenRun(needle, P, text, m) == WrittenRun(needle, P, text, n)
  {
    if m <= n {
      WrittenStops(needle, P, text, m, n);
    } else {
      WrittenStops(needle, P, text, n, m);
    }
  }

  /** For these needles, every two-byte needle among them, the search as written is right on exactly
      the texts without a near miss before the first occurrence; on all others it reads past its
      table. */
  lemma WrittenAnswersIff(needle: seq<Byte>, P: seq<nat>, text: seq<Byte>)
    requires |needle| == |P| >= 2 && RightEnds(needle, P)
    ensures WrittenAnswers(needle, P, text) <==> NoNearMiss(needle, text)
  {
    StartsOnTrack(needle, text);
    assert WrittenRun(needle, P, text, 0) == Scanning(0, 0);
    var end := TrackEnds(needle, P, text, 0);
    if WrittenAnswers(needle, P, text) {
      var steps: nat, r: Option<nat> :| IsFirstMatch(needle, text, r) && WrittenRun(needle, P, text, steps) == Answer(r);
      AnswersAgree(needle, P, text, steps, end);
    }
  }

  /** With two bytes, a near miss before the first occurrence is a first try that fails. */
  lemma TwoByteNearMiss(needle: seq<Byte>, text: seq<Byte>)
    requires |needle| == 2
    ensures SomeFirstTryFails(needle, text) <==> exists i: nat :: NearMiss(needle, text, i)
  {
    if a: nat, k: nat :| FirstTryFails(needle, text, a, k) {
      var i := a + 1;
      assert needle[..1] == text[i - 1..i];
      forall b: nat | b + 2 <= i
        ensures !OccursAt(needle, text, b)
      {
        assert text[b] != needle[0] == needle[0 + 0];
      }
      assert NearMiss(needle, text, i);
    }
    if i: nat :| NearMiss(needle, text, i) {
      assert needle[..1][0] == text[i - 1..i][0];
      var a := 0;
      while text[a] != needle[0]
        invariant 0 <= a < i && forall b :: 0 <= b < a ==> text[b] != needle[0]
        decreases i - a
      {
        a := a + 1;
      }
      if text[a + 1] == needle[1] {
        assert OccursAt(needle, text, a);
      }
      assert FirstTryFails(needle, text, a, 1);
    }
  }

  /** For two-byte needles that means: exactly when the first try does not fail. */
  lemma TwoByteNeedlesIff(needle: seq<Byte>, P: seq<nat>, text: seq<Byte>)
    requires |needle| == |P| == 2
    ensures WrittenAnswers(needle, P, text) <==> !SomeFirstTryFails(needle, text)
  {
    assert RightEnds(needle, P);
    WrittenAnswersIff(needle, P, text);
    TwoByteNearMiss(needle, text);
  }

  // ----- any other needle fails on a text without a near miss

  /** The first `j` bytes of the needle, a byte that does not go on with it, and more. */
  function Probe(needle: seq<Byte>, j: nat, b: Byte, tail: seq<Byte>): seq<Byte>
    requires j <= |needle|
  {
    needle[..j] + [b] + tail
  }

  lemma ProbeStarts(needle: seq<Byte>, P: seq<nat>, j: nat, b: Byte, tail: seq<Byte>)
    requires |P| == |needle| && j < |needle|
    ensures WrittenRun(needle, P, Probe(needle, j, b, tail), j) == Scanning(j, j)
    ensures Aligned(needle, Probe(needle, j, b, tail), j, j)
  {
    var text := Probe(needle, j, b, tail);
    assert WrittenRun(needle, P, text, 0) == Scanning(0, 0);
    WrittenAdvances(needle, P, text, 0, j);
  }

  /** Alignments grow by at most one with every byte. */
  lemma AlignedShrinks(needle: seq<Byte>, text: seq<Byte>, i: nat, k: nat, l: int)
    requires Aligned(needle, text, i + k, l) && k <= l
    ensures Aligned(needle, text, i, l - k)
  {
    assert needle[..l - k] == needle[..l][..l - k];
    assert text[i - (l - k)..i] == text[i + k - l..i + k][..l - k];
  }

  lemma ProbeAlignment(needle: seq<Byte>, j: nat, b: Byte, tail: seq<Byte>, e: nat)
    requires 0 < j < |needle| && needle[j] != b && RightEnd(needle, j, b, e)
    ensures var text, j0 := Probe(needle, j, b, tail), if needle[e] == b then e + 1 else e;
            Aligned(needle, text, j + 1, j0) && AtMost(needle, text, j + 1, j0)
  {
    var text := Probe(needle, j, b, tail);
    assert needle[..j] == text[j - j..j];
    RightEndMissesNone(needle, text, j, j, e);
    ScanStep(needle, text, j, e);
  }

  /** If no alignment past the odd byte is longer than `l`, the longer ones come later. */
  lemma LaterAlignments(needle: seq<Byte>, text: seq<Byte>, n: nat, l: nat, i: nat, m: nat)
    requires AtMost(needle, text, n, l) && n <= |text| && Aligned(needle, text, i, m) && n <= m
    ensures i - n >= m - l
  {
    if i - n < m - l {
      AlignedShrinks(needle, text, n, i - n, m);
    }
  }

  // ----- a chain that never ends, or ends outside the table

  ghost predicate Endless(needle: seq<Byte>, P: seq<nat>, b: Byte, x: nat)
    requires |P| == |needle|
  {
    forall e: nat :: !Ends(needle, P, b, x, e)
  }

  lemma EndsOneLater(needle: seq<Byte>, P: seq<nat>, b: Byte, x: nat, e: nat)
    requires |P| == |needle| && x + 1 < |P| && !AtRest(needle, b, x) && Ends(needle, P, b, P[x + 1], e)
    ensures Ends(needle, P, b, x, e)
  {
    var k: nat :| Falls(needle, P, b, P[x + 1], k) == Some(e);
    assert Falls(needle, P, b, x, k + 1) == Some(e);
  }

  lemma EndlessGoesOn(needle: seq<Byte>, P: seq<nat>, b: Byte, x: nat)
    requires |P| == |needle| && x < |needle| && Endless(needle, P, b, x)
    ensures !AtRest(needle, b, x) && (x + 1 < |P| ==> Endless(needle, P, b, P[x + 1]))
  {
    assert Falls(needle, P, b, x, 0) == Some(x) && !Ends(needle, P, b, x, x);
    if x + 1 < |P| {
      var p := P[x + 1];
      forall e: nat
        ensures Ends(needle, P, b, p, e) ==> Ends(needle, P, b, x, e)
      {
        if Ends(needle, P, b, p, e) {
          EndsOneLater(needle, P, b, x, e);
        }
      }
    }
  }

  /** The scan is in such a chain, or has left the table. */
  ghost predicate Falling(needle: seq<Byte>, P: seq<nat>, text: seq<Byte>, c: Scan)
    requires |P| == |needle|
  {
    c.OutOfBounds? || (c.Scanning? && c.i < |text| && c.j < |needle| && Endless(needle, P, text[c.i], c.j))
  }

  lemma FallingGoesOn(needle: seq<Byte>, P: seq<nat>, text: seq<Byte>, c: Scan)
    requires |P| == |needle| && FailureTable(needle, P, |needle|) && Falling(needle, P, text, c)
    ensures Falling(needle, P, text, WrittenStep(needle, P, text, c))
  {
    if c.Scanning? {
      EndlessGoesOn(needle, P, text[c.i], c.j);
      if c.j + 1 < |P| {
        assert LongestBorder(needle, c.j + 1 + 1, P[c.j + 1]);
      }
    }
  }

  lemma {:induction false} StaysFalling(needle: seq<Byte>, P: seq<nat>, text: seq<Byte>, from: nat, steps: nat)
    requires |P| == |needle| && FailureTable(needle, P, |needle|) && from <= steps
    requires Falling(needle, P, text, WrittenRun(needle, P, text, from))
    ensures Falling(needle, P, text, WrittenRun(needle, P, text, steps))
  {
    if steps > from {
      StaysFalling(needle, P, text, from, steps - 1);
      FallingGoesOn(needle, P, text, WrittenRun(needle, P, text, steps - 1));
    }
  }

  lemma ShortProbe(needle: seq<Byte>, j: nat, b: Byte)
    requires 0 < j < |needle| - 1
    ensures var text := Probe(needle, j, b, []); NoNearMiss(needle, text) && IsFirstMatch(needle, text, None)
  {
  }

  lemma EndlessChainFails(needle: seq<Byte>, P: seq<nat>, j: nat, b: Byte)
    requires |P| == |needle| && FailureTable(needle, P, |needle|) && 0 < j < |needle| - 1
    requires Endless(needle, P, b, j)
    ensures !WrittenAnswers(needle, P, Probe(needle, j, b, []))
  {
    var text := Probe(needle, j, b, []);
    ProbeStarts(needle, P, j, b, []);
    forall steps: nat, r: Option<nat>
      ensures WrittenRun(needle, P, text, steps) != Answer(r)
    {
      if WrittenRun(needle, P, text, steps) == Answer(r) && steps <= j {
        WrittenStops(needle, P, text, steps, j);
      } else if steps > j {
        StaysFalling(needle, P, text, j, steps);
      }
    }
  }

  // ----- a chain that ends too low

  /** The scan is at least `gap` short of a match, or is on its way up or down through the run of
      equal bytes that the needle starts with, none of which the text has here. */
  predicate Short(needle: seq<Byte>, text: seq<Byte>, c: Scan, gap: int) {
    match c
    case Scanning(i, j) =>
      && gap <= i && j < |needle|
      && (j <= i - gap || (i < |text| && text[i] != needle[0] && forall k :: 0 <= k <= j ==> needle[k] == needle[0]))
    case Found(_) => false
    case _ => true
  }

  /** A border of all but one byte is a run of one byte. */
  lemma {:induction false} LongBorderIsRun(needle: seq<Byte>, n: nat, k: nat)
    requires Border(needle, n + 1, n) && k <= n
    ensures needle[k] == needle[0]
  {
    if k > 0 {
      LongBorderIsRun(needle, n, k - 1);
      assert needle[..n][k - 1] == needle[n + 1 - n..n + 1][k - 1];
    }
  }

  lemma FallStaysShort(needle: seq<Byte>, P: seq<nat>, text: seq<Byte>, c: Scan, gap: int)
    requires |P| == |needle| && FailureTable(needle, P, |needle|)
    requires Short(needle, text, c, gap) && AtFallback(needle, text, c)
    ensures Short(needle, text, WrittenStep(needle, P, text, c), gap)
  {
    if c.j + 1 < |P| {
      var p := P[c.j + 1];
      assert LongestBorder(needle, c.j + 1 + 1, p);
      if p == c.j + 1 {
        forall k | 0 <= k <= p
          ensures needle[k] == needle[0]
        {
          LongBorderIsRun(needle, p, k);
        }
      }
    }
  }

  lemma StepStaysShort(needle: seq<Byte>, P: seq<nat>, text: seq<Byte>, c: Scan, gap: int)
    requires |P| == |needle| && FailureTable(needle, P, |needle|)
    requires Short(needle, text, c, gap) && |text| - gap < |needle|
    ensures Short(needle, text, WrittenStep(needle, P, text, c), gap)
  {
    if AtFallback(needle, text, c) {
      FallStaysShort(needle, P, text, c, gap);
    }
  }

  lemma {:induction false} StaysShort(needle: seq<Byte>, P: seq<nat>, text: seq<Byte>, from: nat, steps: nat, gap: int)
    requires |P| == |needle| && FailureTable(needle, P, |needle|) && from <= steps
    requires Short(needle, text, WrittenRun(needle, P, text, from), gap) && |text| - gap < |needle|
    ensures Short(needle, text, WrittenRun(needle, P, text, steps), gap)
  {
    if steps > from {
      StaysShort(needle, P, text, from, steps - 1, gap);
      StepStaysShort(needle, P, text, WrittenRun(needle, P, text, steps - 1), gap);
    }
  }

  /** After the odd byte the text completes the alignment that the chain should have found. */
  lemma CompletedProbeOccurs(needle: seq<Byte>, j: nat, b: Byte, e: nat)
    requires 0 < j < |needle| - 1 && needle[j] != b && RightEnd(needle, j, b, e) && needle[e] == b
    ensures OccursAt(needle, Probe(needle, j, b, needle[e + 1..]), j - e)
  {
    var text := Probe(needle, j, b, needle[e + 1..]);
    ProbeAlignment(needle, j, b, needle[e + 1..], e);
    forall k | 0 <= k < |needle|
      ensures needle[k] == text[j - e + k]
    {
      if k <= e {
        assert needle[..e + 1][k] == text[j - e..j + 1][k];
      }
    }
  }

  lemma NothingEndsEarlier(needle: seq<Byte>, text: seq<Byte>, n: nat, l: nat)
    requires AtMost(needle, text, n, l) && n <= |text| && n < |needle| && |text| == n + |needle| - l
    ensures forall a: nat :: OccursAt(needle, text, a) ==> a >= |text| - |needle|
  {
    forall a: nat | OccursAt(needle, text, a)
      ensures a >= |text| - |needle|
    {
      OccurrenceIsAligned(needle, text, a);
      LaterAlignments(needle, text, n, l, a + |needle|, |needle|);
    }
  }

  lemma NothingMissesEarlier(needle: seq<Byte>, text: seq<Byte>, n: nat, l: nat)
    requires AtMost(needle, text, n, l) && n <= |text| && n < |needle| && |text| == n + |needle| - l > 0
    requires text[|text| - 1] == needle[|needle| - 1]
    ensures NoNearMiss(needle, text)
  {
    forall i: nat
      ensures !NearMiss(needle, text, i)
    {
      if i < |text| && Aligned(needle, text, i, |needle| - 1) {
        LaterAlignments(needle, text, n, l, i, |needle| - 1);
      }
    }
  }

  lemma CompletedProbe(needle: seq<Byte>, j: nat, b: Byte, e: nat)
    requires 0 < j < |needle| - 1 && needle[j] != b && RightEnd(needle, j, b, e) && needle[e] == b
    ensures var text := Probe(needle, j, b, needle[e + 1..]);
            NoNearMiss(needle, text) && IsFirstMatch(needle, text, Some(j - e))
  {
    var text := Probe(needle, j, b, needle[e + 1..]);
    ProbeAlignment(needle, j, b, needle[e + 1..], e);
    CompletedProbeOccurs(needle, j, b, e);
    NothingMissesEarlier(needle, text, j + 1, e + 1);
    NothingEndsEarlier(needle, text, j + 1, e + 1);
  }

  /** When the chain ends at `e`, the scan goes on behind the odd byte with what it has there. */
  lemma ProbeGoesOn(needle: seq<Byte>, P: seq<nat>, j: nat, b: Byte, tail: seq<Byte>, e: nat) returns (n: nat)
    requires |P| == |needle| && 0 < j < |needle| - 1 && Ends(needle, P, b, j, e)
    ensures var l := if needle[e] == b then e + 1 else e;
            WrittenRun(needle, P, Probe(needle, j, b, tail), n)
            == if l == |needle| then Found(j + 1 - l) else Scanning(j + 1, l)
  {
    var text := Probe(needle, j, b, tail);
    ProbeStarts(needle, P, j, b, tail);
    var k: nat :| Falls(needle, P, b, j, k) == Some(e);
    var end := FollowsChain(needle, P, text, j, k);
    n := end + 1;
    assert WrittenRun(needle, P, text, n) == WrittenStep(needle, P, text, Scanning(j, e));
  }

  lemma LowEndFails(needle: seq<Byte>, P: seq<nat>, j: nat, b: Byte, low: nat, e: nat)
    requires |P| == |needle| && FailureTable(needle, P, |needle|)
    requires 0 < j < |needle| - 1 && needle[j] != b && RightEnd(needle, j, b, e)
    requires Ends(needle, P, b, j, low) && low < e
    ensures var text := Probe(needle, j, b, needle[e + 1..]);
            NoNearMiss(needle, text) && !WrittenAnswers(needle, P, text)
  {
    var text := Probe(needle, j, b, needle[e + 1..]);
    CompletedProbe(needle, j, b, e);
    var n := ProbeGoesOn(needle, P, j, b, needle[e + 1..], low);
    var gap := j + 1 - if needle[low] == b then low + 1 else low;
    forall steps: nat, r: Option<nat> | IsFirstMatch(needle, text, r)
      ensures WrittenRun(needle, P, text, steps) != Answer(r)
    {
      FirstMatchIsUnique(needle, text, r, Some(j - e));
      if WrittenRun(needle, P, text, steps) == Answer(r) && steps <= n {
        WrittenStops(needle, P, text, steps, n);
      } else if steps > n {
        StaysShort(needle, P, text, n, steps, gap);
      }
    }
  }

  // ----- a chain that ends too high

  lemma TooShortToMatch(needle: seq<Byte>, text: seq<Byte>, n: nat, l: nat)
    requires AtMost(needle, text, n, l) && n <= |text| && n < |needle| && |text| < n + |needle| - l
    ensures NoNearMiss(needle, text) && IsFirstMatch(needle, text, None)
  {
    forall i: nat
      ensures !NearMiss(needle, text, i)
    {
      if i < |text| && Aligned(needle, text, i, |needle| - 1) {
        LaterAlignments(needle, text, n, l, i, |needle| - 1);
      }
    }
    forall a: nat
      ensures !OccursAt(needle, text, a)
    {
      OccurrenceIsAligned(needle, text, a);
      if Aligned(needle, text, a + |needle|, |needle|) {
        LaterAlignments(needle, text, n, l, a + |needle|, |needle|);
      }
    }
  }

  /** After the odd byte the text completes an alignment that is not there. */
  lemma MisleadingProbe(needle: seq<Byte>, j: nat, b: Byte, e: nat, high: nat)
    requires 0 < j < |needle| - 1 && needle[j] != b && RightEnd(needle, j, b, e) && e < high < |needle|
    ensures var text := Probe(needle, j, b, needle[high + 1..]);
            NoNearMiss(needle, text) && IsFirstMatch(needle, text, None)
  {
    ProbeAlignment(needle, j, b, needle[high + 1..], e);
    TooShortToMatch(needle, Probe(needle, j, b, needle[high + 1..]), j + 1, if needle[e] == b then e + 1 else e);
  }

  lemma {:induction false} RunsToTheEnd(needle: seq<Byte>, P: seq<nat>, text: seq<Byte>, steps: nat) returns (end: nat)
    requires |P| == |needle|
    requires var c := WrittenRun(needle, P, text, steps);
             && c.Scanning? && c.j < |needle| && c.i <= |text| && text[c.i..] == needle[c.j..]
    ensures WrittenRun(needle, P, text, end).Found?
    decreases |needle| - WrittenRun(needle, P, text, steps).j
  {
    var c := WrittenRun(needle, P, text, steps);
    assert text[c.i..][0] == needle[c.j..][0];
    assert WrittenRun(needle, P, text, steps + 1) == WrittenStep(needle, P, text, c);
    if c.j + 1 == |needle| {
      end := steps + 1;
    } else {
      assert text[c.i + 1..] == text[c.i..][1..] == needle[c.j..][1..] == needle[c.j + 1..];
      end := RunsToTheEnd(needle, P, text, steps + 1);
    }
  }

  lemma HighEndFails(needle: seq<Byte>, P: seq<nat>, j: nat, b: Byte, high: nat, e: nat)
    requires |P| == |needle| && 0 < j < |needle| - 1 && needle[j] != b && RightEnd(needle, j, b, e)
    requires Ends(needle, P, b, j, high) && high > e
    ensures var text := Probe(needle, j, b, needle[high + 1..]);
            NoNearMiss(needle, text) && !WrittenAnswers(needle, P, text)
  {
    var tail := needle[high + 1..];
    var text := Probe(needle, j, b, tail);
    MisleadingProbe(needle, j, b, e, high);
    var n := ProbeGoesOn(needle, P, j, b, tail, high);
    if high + 1 < |needle| {
      assert text[j + 1..] == tail;
      n := RunsToTheEnd(needle, P, text, n);
    }
    forall steps: nat, r: Option<nat> | IsFirstMatch(needle, text, r)
      ensures WrittenRun(needle, P, text, steps) != Answer(r)
    {
      FirstMatchIsUnique(needle, text, r, None);
      if WrittenRun(needle, P, text, steps) == Answer(r) {
        AnswersAgree(needle, P, text, steps, n);
      }
    }
  }

  // ----- together

  lemma WrongEndFails(needle: seq<Byte>, P: seq<nat>, j: nat, b: Byte) returns (text: seq<Byte>)
    requires |needle| == |P| >= 2 && FailureTable(needle, P, |needle|) && !EndsRight(needle, P, j, b)
    ensures NoNearMiss(needle, text) && !WrittenAnswers(needle, P, text)
  {
    if high: nat :| Ends(needle, P, b, j, high) {
      var e := IntendedEnd(needle, P, b, j);
      IntendedEndIsRight(needle, P, b, j);
      if high < e {
        LowEndFails(needle, P, j, b, high, e);
        text := Probe(needle, j, b, needle[e + 1..]);
      } else {
        HighEndFails(needle, P, j, b, high, e);
        text := Probe(needle, j, b, needle[high + 1..]);
      }
    } else {
      ShortProbe(needle, j, b);
      EndlessChainFails(needle, P, j, b);
      text := Probe(needle, j, b, []);
    }
  }

  ghost predicate RightOnlyWithoutNearMiss(needle: seq<Byte>, P: seq<nat>)
    requires |P| == |needle| > 0
  {
    forall text :: WrittenAnswers(needle, P, text) <==> NoNearMiss(needle, text)
  }

  /** With the table that the library builds, the search as written is right on exactly the texts
      without a near miss if and only if the chains through `P[j+1]` end where those through
      `P[j-1]` do, at every place before the needle's last byte and for every byte. */
  lemma RightEndsAreExact(needle: seq<Byte>, P: seq<nat>)
    requires |needle| == |P| >= 2 && FailureTable(needle, P, |needle|)
    ensures RightOnlyWithoutNearMiss(needle, P) <==> forall j: nat, b: Byte :: SameEnd(needle, P, j, b)
  {
    RightEndsIff(needle, P);
    if RightEnds(needle, P) {
      forall text
        ensures WrittenAnswers(needle, P, text) <==> NoNearMiss(needle, text)
      {
        WrittenAnswersIff(needle, P, text);
      }
    } else {
      var j: nat, b: Byte :| !EndsRight(needle, P, j, b);
      var text := WrongEndFails(needle, P, j, b);
      assert !(WrittenAnswers(needle, P, text) <==> NoNearMiss(needle, text));
    }
  }
}
