/** src/common/boyermoore.c: Boyer-Moore search with a bad-character table and a strong
    good-suffix table, case-sensitive or case-ignored.

    `size_t` is modelled by unbounded integers. The one place where the source wraps is
    the inner loop of the search, where `pos` steps below 0 when the query matches at the
    very start of the text; there `pos` is -1 here and SIZE_MAX in C, and `pos + 1` is 0
    in both. */
module BoyerMoore {
  import opened Matching

  // ----- ASCII case folding (tolower and toupper in the C locale)

  function Lower(c: Byte): Byte {
    if 65 <= c <= 90 then c + 32 else c
  }

  function Upper(c: Byte): Byte {
    if 97 <= c <= 122 then c - 32 else c
  }

  function Fold(caseSensitive: bool, c: Byte): Byte {
    if caseSensitive then c else Lower(c)
  }

  function Folded(caseSensitive: bool, text: seq<Byte>): (r: seq<Byte>)
    ensures |r| == |text|
    ensures forall k :: 0 <= k < |text| ==> r[k] == Fold(caseSensitive, text[k])
  {
    seq(|text|, k requires 0 <= k < |text| => Fold(caseSensitive, text[k]))
  }

  // ----- and what it means

  const SMALL := "abcdefghijklmnopqrstuvwxyz"
  const CAPITALS := "ABCDEFGHIJKLMNOPQRSTUVWXYZ"

  /** Byte `a` is the small letter of capital `b`. */
  ghost predicate IsSmallOf(a: Byte, b: Byte) {
    exists k :: 0 <= k < 26 && a == SMALL[k] as int && b == CAPITALS[k] as int
  }

  /** Equal up to case. */
  ghost predicate SameLetter(a: Byte, b: Byte) {
    a == b || IsSmallOf(a, b) || IsSmallOf(b, a)
  }

  ghost predicate IsCapital(b: Byte) {
    exists k :: 0 <= k < 26 && b == CAPITALS[k] as int
  }

  /** The query has no capital letter. */
  ghost predicate NoCapitals(s: seq<Byte>) {
    forall k :: 0 <= k < |s| ==> !IsCapital(s[k])
  }

  lemma AlphabetCodes(k: int)
    requires 0 <= k < 26
    ensures SMALL[k] as int == 97 + k && CAPITALS[k] as int == 65 + k
  {
  }

  lemma CapitalCodes(b: Byte)
    ensures IsCapital(b) <==> 65 <= b <= 90
  {
    if 65 <= b <= 90 {
      AlphabetCodes(b - 65);
    }
    if k :| 0 <= k < 26 && b == CAPITALS[k] as int {
      AlphabetCodes(k);
    }
  }

  lemma SmallCodes(a: Byte, b: Byte)
    ensures IsSmallOf(a, b) <==> 65 <= b <= 90 && a == b + 32
  {
    if 65 <= b <= 90 {
      AlphabetCodes(b - 65);
    }
    if k :| 0 <= k < 26 && a == SMALL[k] as int && b == CAPITALS[k] as int {
      AlphabetCodes(k);
    }
  }

  /** Folding identifies the two forms of a letter and nothing else. */
  lemma LowerIsSameLetter(a: Byte, b: Byte)
    ensures Lower(a) == Lower(b) <==> SameLetter(a, b)
  {
    SmallCodes(a, b);
    SmallCodes(b, a);
  }

  /** It leaves no capital, and a letter stays the same letter; without capitals it changes nothing. */
  lemma LowerLeavesNoCapital(a: Byte)
    ensures !IsCapital(Lower(a)) && SameLetter(Lower(a), a) && (Lower(a) == a <==> !IsCapital(a))
  {
    CapitalCodes(a);
    CapitalCodes(Lower(a));
    SmallCodes(Lower(a), a);
  }

  lemma NoCapitalsFolds(s: seq<Byte>)
    ensures NoCapitals(s) <==> forall k :: 0 <= k < |s| ==> Lower(s[k]) == s[k]
  {
    forall k | 0 <= k < |s|
      ensures Lower(s[k]) == s[k] <==> !IsCapital(s[k])
    {
      LowerLeavesNoCapital(s[k]);
    }
  }

  /** Its two forms are all there is of a letter. */
  lemma LowerAndUpperCover(x: Byte, c: Byte)
    ensures SameLetter(x, c) <==> c == Lower(x) || c == Upper(x)
  {
    SmallCodes(x, c);
    SmallCodes(c, x);
  }

  // ----- what the tables mean

  /** Moving `q` right by `s` lays an equal byte on position `k`. */
  predicate Agrees(cs: bool, q: seq<Byte>, k: int, s: int)
    requires 0 <= k < |q| && 0 <= k - s < |q|
  {
    Fold(cs, q[k - s]) == Fold(cs, q[k])
  }

  /** The part of `q` from `p` on is a prefix of `q`: moving the query right by `p` lays equal bytes on equal bytes. */
  ghost predicate PrefixAt(cs: bool, q: seq<Byte>, p: int) {
    p >= 0 && forall k :: p <= k < |q| ==> Agrees(cs, q, k, p)
  }

  /** After `q[j+1..]` matched and `q[j]` did not, moving right by `s` is worth trying: the
      matched part meets equal bytes, and the mismatched place meets a different one. The
      source compares the leftmost byte without folding (line 52), hence the two cases. */
  ghost predicate GoodShift(cs: bool, q: seq<Byte>, j: nat, s: int)
    requires j < |q|
  {
    && s >= 1
    && (forall k :: j < k < |q| && s <= k ==> Agrees(cs, q, k, s))
    && (s <= j ==> q[j - s] != q[j])
    && (s < j ==> !Agrees(cs, q, j, s))
  }

  ghost predicate LeastGoodShift(cs: bool, q: seq<Byte>, j: nat, s: int)
    requires j < |q|
  {
    GoodShift(cs, q, j, s) && forall s' :: 1 <= s' < s ==> !GoodShift(cs, q, j, s')
  }

  /** The entry of the good-suffix table at `j` counts from the mismatched byte: it is the
      shift plus the number of bytes already matched. */
  ghost predicate FindSkipExact(cs: bool, q: seq<Byte>, sl: seq<nat>) {
    && |sl| == |q|
    && forall j :: 0 <= j < |q| ==> LeastGoodShift(cs, q, j, sl[j] - (|q| - 1 - j))
  }

  /** A text byte `c` may lie under the query byte `x`, as far as the bad-character table knows. */
  ghost predicate Covers(cs: bool, x: Byte, c: Byte) {
    if cs then c == x else SameLetter(x, c)
  }

  /** `v` is the distance from the end of `q` back to the last byte, other than the very last, that covers `c`. */
  ghost predicate AlphaEntry(cs: bool, q: seq<Byte>, upTo: nat, c: Byte, v: int)
    requires upTo < |q|
  {
    && 1 <= v <= |q|
    && (v < |q| ==> |q| - 1 - v < upTo && Covers(cs, q[|q| - 1 - v], c))
    && forall i :: 0 <= i < upTo && |q| - 1 - v < i ==> !Covers(cs, q[i], c)
  }

  ghost predicate AlphaSkipExact(cs: bool, q: seq<Byte>, alpha: seq<nat>) {
    && |q| > 0
    && |alpha| == 256
    && forall c: Byte :: AlphaEntry(cs, q, |q| - 1, c, alpha[c])
  }

  // ----- building the tables

  /** is_prefix */
  method IsPrefix(s: seq<Byte>, pos: nat, caseSensitive: bool) returns (r: bool)
    ensures r <==> PrefixAt(caseSensitive, s, pos)
  {
    var i := 0;
    while pos + i < |s|
      invariant 0 <= i
      invariant forall k :: pos <= k < pos + i && k < |s| ==> Agrees(caseSensitive, s, k, pos)
    {
      if Fold(caseSensitive, s[i]) != Fold(caseSensitive, s[i + pos]) {
        assert !Agrees(caseSensitive, s, i + pos, pos);
        return false;
      }
      i := i + 1;
    }
    return true;
  }

  /** Moving `s` right by `shift` lays equal bytes on its last `n` bytes. */
  ghost predicate RunMatches(cs: bool, s: seq<Byte>, shift: nat, n: nat)
    requires n + shift <= |s|
  {
    forall k :: |s| - n <= k < |s| ==> Agrees(cs, s, k, shift)
  }

  /** The longest run, counted from `pos` leftwards but never including position 0, that
      equals a suffix of `s`. */
  ghost predicate IsSuffixLen(cs: bool, s: seq<Byte>, pos: nat, n: nat)
    requires pos < |s|
  {
    && n <= pos
    && RunMatches(cs, s, |s| - 1 - pos, n)
    && (n < pos ==> !Agrees(cs, s, |s| - 1 - n, |s| - 1 - pos))
  }

  /** suffix_len */
  method SuffixLen(s: seq<Byte>, pos: nat, caseSensitive: bool) returns (i: nat)
    requires pos < |s|
    ensures IsSuffixLen(caseSensitive, s, pos, i)
  {
    i := 0;
    while i < pos
      invariant i <= pos
      invariant RunMatches(caseSensitive, s, |s| - 1 - pos, i)
    {
      if Fold(caseSensitive, s[pos - i]) != Fold(caseSensitive, s[|s| - i - 1]) {
        break;
      }
      i := i + 1;
    }
  }

  /** A shift that leaves the mismatched place under the query is good for exactly one
      place `j`, and `suffix_len` finds it; if its leftmost comparison also agrees, for none. */
  lemma OneMismatchPerShift(cs: bool, q: seq<Byte>, i: nat, n: nat, j: nat)
    requires i < |q| - 1 && j < |q|
    requires IsSuffixLen(cs, q, i, n)
    requires |q| - 1 - i <= j
    ensures GoodShift(cs, q, j, |q| - 1 - i) <==> j == |q| - 1 - n && q[i - n] != q[|q| - 1 - n]
  {
    var m, s := |q|, |q| - 1 - i;
    var p := m - 1 - n;
    assert p - s == i - n;
    if j > p {
      assert Agrees(cs, q, j, s);
    }
  }

  /** Where the mismatched place falls off the left, a good shift is just a border of the query. */
  lemma ShiftPastMismatch(cs: bool, q: seq<Byte>, j: nat, s: int)
    requires j < |q| && j < s
    ensures GoodShift(cs, q, j, s) <==> PrefixAt(cs, q, s)
  {
  }

  /** What the first pass leaves behind: the least shift beyond `j`. */
  ghost predicate LeastShiftPast(cs: bool, q: seq<Byte>, j: nat, s: int)
    requires j < |q|
  {
    && j < s <= |q|
    && GoodShift(cs, q, j, s)
    && forall s' :: j < s' < s ==> !GoodShift(cs, q, j, s')
  }

  /** What the table holds once the second pass has tried every shift above `low`. */
  ghost predicate LeastShiftAbove(cs: bool, q: seq<Byte>, low: int, j: nat, s: int)
    requires j < |q|
  {
    && GoodShift(cs, q, j, s)
    && s <= |q|
    && forall s' :: (low < s' < s || j < s' < s) ==> !GoodShift(cs, q, j, s')
  }

  /** One write of the first pass: `last` is the least border at or beyond `j + 1`. */
  lemma FirstPassEntry(cs: bool, q: seq<Byte>, j: nat, last: int)
    requires j < |q| && j < last <= |q|
    requires PrefixAt(cs, q, last)
    requires forall p :: j < p < last ==> !PrefixAt(cs, q, p)
    ensures LeastShiftPast(cs, q, j, last)
  {
    forall s | j < s
      ensures GoodShift(cs, q, j, s) <==> PrefixAt(cs, q, s)
    {
      ShiftPastMismatch(cs, q, j, s);
    }
  }

  /** generate_find_skip, lines 43-49 */
  method FirstPass(find: seq<Byte>, caseSensitive: bool, sl: array<nat>)
    requires sl.Length == |find|
    modifies sl
    ensures forall j :: 0 <= j < |find| ==> LeastShiftPast(caseSensitive, find, j, sl[j] - (|find| - 1 - j))
  {
    var m := |find|;
    var lastPrefix := m;
    var i := m;
    while i > 0
      invariant 0 <= i <= m
      invariant i <= lastPrefix <= m && PrefixAt(caseSensitive, find, lastPrefix)
      invariant forall p :: i < p < lastPrefix ==> !PrefixAt(caseSensitive, find, p)
      invariant forall j :: i <= j < m ==> LeastShiftPast(caseSensitive, find, j, sl[j] - (m - 1 - j))
    {
      var isPrefix := IsPrefix(find, i, caseSensitive);
      if isPrefix {
        lastPrefix := i;
      }
      FirstPassEntry(caseSensitive, find, i - 1, lastPrefix);
      sl[i - 1] := lastPrefix + (m - i);
      i := i - 1;
    }
  }

  ghost predicate EntryAbove(cs: bool, q: seq<Byte>, low: int, sl: seq<nat>, j: nat)
    requires j < |q| == |sl|
  {
    LeastShiftAbove(cs, q, low, j, sl[j] - (|q| - 1 - j))
  }

  ghost predicate TableAbove(cs: bool, q: seq<Byte>, low: int, sl: seq<nat>) {
    |sl| == |q| && forall j :: 0 <= j < |q| ==> EntryAbove(cs, q, low, sl, j)
  }

  /** One round of the second pass, seen from entry `j`: the round tries the shift
      `|q| - 1 - i`, which is below every shift tried before. */
  lemma SecondPassEntry(cs: bool, q: seq<Byte>, i: nat, n: nat, j: nat, s: int)
    requires i < |q| && j < |q|
    requires IsSuffixLen(cs, q, i, n)
    requires LeastShiftAbove(cs, q, |q| - 1 - i, j, s)
    ensures var hit := j == |q| - 1 - n && q[i - n] != q[|q| - 1 - n];
            LeastShiftAbove(cs, q, |q| - 2 - i, j, if hit then |q| - 1 - i else s)
  {
    if i < |q| - 1 && |q| - 1 - i <= j {
      OneMismatchPerShift(cs, q, i, n, j);
    }
  }

  lemma SecondPassRound(cs: bool, q: seq<Byte>, i: nat, n: nat, sl: seq<nat>) returns (sl': seq<nat>)
    requires i < |q|
    requires IsSuffixLen(cs, q, i, n)
    requires TableAbove(cs, q, |q| - 1 - i, sl)
    ensures var v: nat := |q| - 1 - i + n;
            sl' == if q[i - n] != q[|q| - 1 - n] then sl[|q| - 1 - n := v] else sl
    ensures TableAbove(cs, q, |q| - 1 - (i + 1), sl')
  {
    var v: nat := |q| - 1 - i + n;
    sl' := if q[i - n] != q[|q| - 1 - n] then sl[|q| - 1 - n := v] else sl;
    var low := |q| - 1 - (i + 1);
    forall j | 0 <= j < |q|
      ensures EntryAbove(cs, q, low, sl', j)
    {
      assert EntryAbove(cs, q, |q| - 1 - i, sl, j);
      SecondPassEntry(cs, q, i, n, j, sl[j] - (|q| - 1 - j));
    }
  }

  lemma SecondPassDone(cs: bool, q: seq<Byte>, sl: seq<nat>)
    requires TableAbove(cs, q, -1, sl)
    ensures FindSkipExact(cs, q, sl)
  {
    forall j | 0 <= j < |q|
      ensures LeastGoodShift(cs, q, j, sl[j] - (|q| - 1 - j))
    {
      assert EntryAbove(cs, q, -1, sl, j);
    }
  }

  /** generate_find_skip, lines 50-55: every shift from `|find| - 1` down to 0 is tried once. */
  method SecondPass(find: seq<Byte>, caseSensitive: bool, sl: array<nat>)
    requires TableAbove(caseSensitive, find, |find| - 1, sl[..])
    modifies sl
    ensures TableAbove(caseSensitive, find, -1, sl[..])
  {
    var m := |find|;
    var i := 0;
    while i < m
      invariant 0 <= i <= m
      invariant TableAbove(caseSensitive, find, m - 1 - i, sl[..])
    {
      var n := SuffixLen(find, i, caseSensitive);
      ghost var next := SecondPassRound(caseSensitive, find, i, n, sl[..]);
      if find[i - n] != find[m - 1 - n] {
        sl[m - 1 - n] := m - 1 - i + n;
      }
      i := i + 1;
      assert sl[..] == next;
    }
  }

  /** generate_find_skip: two passes over one table, the second overwriting the first. */
  method GenerateFindSkip(find: seq<Byte>, caseSensitive: bool) returns (sl: array<nat>)
    ensures fresh(sl)
    ensures FindSkipExact(caseSensitive, find, sl[..])
  {
    sl := new nat[|find|];
    FirstPass(find, caseSensitive, sl);
    ghost var table := sl[..];
    ghost var low := |find| - 1;
    assert forall j :: 0 <= j < |find| ==> EntryAbove(caseSensitive, find, low, table, j);
    SecondPass(find, caseSensitive, sl);
    SecondPassDone(caseSensitive, find, sl[..]);
  }

  /** generate_alpha_skip */
  method GenerateAlphaSkip(find: seq<Byte>, caseSensitive: bool, skip: array<nat>)
    requires |find| > 0 && skip.Length == 256
    modifies skip
    ensures AlphaSkipExact(caseSensitive, find, skip[..])
  {
    for i := 0 to 256
      invariant forall c :: 0 <= c < i ==> skip[c] == |find|
    {
      skip[i] := |find|;
    }
    var last := |find| - 1;
    for i := 0 to last
      invariant forall c: Byte :: AlphaEntry(caseSensitive, find, i, c, skip[c])
    {
      forall c: Byte
        ensures SameLetter(find[i], c) <==> c == Lower(find[i]) || c == Upper(find[i])
      {
        LowerAndUpperCover(find[i], c);
      }
      if caseSensitive {
        skip[find[i]] := last - i;
      } else {
        skip[Lower(find[i])] := last - i;
        skip[Upper(find[i])] := last - i;
      }
    }
  }

  // ----- why a jump is safe

  ghost predicate NoMatchBefore(q: seq<Byte>, t: seq<Byte>, n: int) {
    forall b :: 0 <= b < n ==> !OccursAt(q, t, b)
  }

  /** The window under inspection: aligned at `a`, with everything right of `i` matched and `i` mismatched. */
  ghost predicate MismatchAt(q: seq<Byte>, t: seq<Byte>, a: int, i: int) {
    && 0 <= a <= |t| - |q|
    && 0 <= i < |q|
    && (forall k :: i < k < |q| ==> q[k] == t[a + k])
    && q[i] != t[a + i]
  }

  /** A byte that folds to a lower-case query byte is covered by it, although the table is
      indexed by the raw text byte. */
  lemma FoldCovered(cs: bool, x: Byte, c: Byte)
    requires Fold(cs, c) == x
    requires Fold(cs, x) == x
    ensures Covers(cs, x, c)
  {
    LowerIsSameLetter(x, c);
  }

  lemma BadCharacterIsSafe(cs: bool, q: seq<Byte>, alpha: seq<nat>, text: seq<Byte>, a: int, i: int, b: int)
    requires AlphaSkipExact(cs, q, alpha)
    requires MismatchAt(q, Folded(cs, text), a, i)
    requires a <= b && b + |q| - 1 < a + i + alpha[text[a + i]]
    ensures !OccursAt(q, Folded(cs, text), b)
  {
    var t := Folded(cs, text);
    if OccursAt(q, t, b) {
      var k := a + i - b;
      var c := text[a + i];
      assert AlphaEntry(cs, q, |q| - 1, c, alpha[c]);
      assert q[k] == t[b + k] == Fold(cs, c);
      FoldCovered(cs, q[k], c);
    }
  }

  /** Where the query occurs in folded text it is itself folded, so folding its bytes changes nothing. */
  lemma OccurrenceIsFolded(cs: bool, q: seq<Byte>, text: seq<Byte>, b: int, k: int)
    requires OccursAt(q, Folded(cs, text), b)
    requires 0 <= k < |q|
    ensures Fold(cs, q[k]) == q[k]
  {
    assert q[k] == Folded(cs, text)[b + k];
  }

  /** An occurrence further right, seen from the mismatch, is a good shift. */
  lemma OccurrenceIsGoodShift(cs: bool, q: seq<Byte>, text: seq<Byte>, a: int, i: int, b: int)
    requires MismatchAt(q, Folded(cs, text), a, i)
    requires a < b && OccursAt(q, Folded(cs, text), b)
    ensures GoodShift(cs, q, i, b - a)
  {
    var t, s := Folded(cs, text), b - a;
    forall k | i <= k < |q| && s <= k
      ensures Agrees(cs, q, k, s) <==> i < k
    {
      OccurrenceIsFolded(cs, q, text, b, k);
      OccurrenceIsFolded(cs, q, text, b, k - s);
      assert q[k - s] == t[b + (k - s)];
    }
    assert s <= i ==> q[i - s] == t[b + (i - s)];
  }

  lemma GoodSuffixIsSafe(cs: bool, q: seq<Byte>, sl: seq<nat>, text: seq<Byte>, a: int, i: int, b: int)
    requires FindSkipExact(cs, q, sl)
    requires MismatchAt(q, Folded(cs, text), a, i)
    requires a <= b && b + |q| - 1 < a + i + sl[i]
    ensures !OccursAt(q, Folded(cs, text), b)
  {
    assert LeastGoodShift(cs, q, i, sl[i] - (|q| - 1 - i));
    if a < b && OccursAt(q, Folded(cs, text), b) {
      OccurrenceIsGoodShift(cs, q, text, a, i, b);
    }
  }

  /** The jump of the search: the window end moves strictly right (the bad-character skip
      alone may move it left), and no occurrence starts at an alignment it jumps over. */
  lemma JumpIsSafe(cs: bool, q: seq<Byte>, alpha: seq<nat>, sl: seq<nat>, text: seq<Byte>, a: int, i: int)
    requires AlphaSkipExact(cs, q, alpha) && FindSkipExact(cs, q, sl)
    requires MismatchAt(q, Folded(cs, text), a, i)
    requires NoMatchBefore(q, Folded(cs, text), a)
    ensures var next := a + i + Max(alpha[text[a + i]], sl[i]);
            && a + |q| - 1 < next
            && NoMatchBefore(q, Folded(cs, text), next - (|q| - 1))
  {
    assert LeastGoodShift(cs, q, i, sl[i] - (|q| - 1 - i));
    var next := a + i + Max(alpha[text[a + i]], sl[i]);
    forall b | a <= b < next - (|q| - 1)
      ensures !OccursAt(q, Folded(cs, text), b)
    {
      if b + |q| - 1 < a + i + sl[i] {
        GoodSuffixIsSafe(cs, q, sl, text, a, i, b);
      } else {
        BadCharacterIsSafe(cs, q, alpha, text, a, i, b);
      }
    }
  }

  function Max(a: nat, b: nat): nat {
    if a > b then a else b
  }

  // ----- the searcher

  /** posixc_boyermoore */
  class Searcher {
    var alphaSkip: array<nat>
    var findSkip: array<nat>
    var caseSensitive: bool
    var query: seq<Byte>

    ghost predicate Valid()
      reads this, alphaSkip, findSkip
    {
      && |query| > 0
      && AlphaSkipExact(caseSensitive, query, alphaSkip[..])
      && FindSkipExact(caseSensitive, query, findSkip[..])
    }

    /** posixc_boyermoore_init; an empty query makes the source read outside it (line 63). */
    constructor (query: seq<Byte>, caseSensitive: bool)
      requires |query| > 0
      ensures Valid()
      ensures this.query == query && this.caseSensitive == caseSensitive
    {
      this.query := query;
      this.caseSensitive := caseSensitive;
      var alpha := new nat[256];
      GenerateAlphaSkip(query, caseSensitive, alpha);
      var find := GenerateFindSkip(query, caseSensitive);
      alphaSkip := alpha;
      findSkip := find;
    }

    /** posixc_boyermoore_search_in */
    method SearchIn(text: seq<Byte>) returns (r: Option<nat>)
      requires Valid()
      ensures IsFirstMatch(query, Folded(caseSensitive, text), r)
    {
      ghost var t := Folded(caseSensitive, text);
      var m := |query|;
      var pos: int := m - 1;
      while pos < |text|
        invariant m - 1 <= pos
        invariant NoMatchBefore(query, t, pos - (m - 1))
        decreases |text| - pos
      {
        ghost var a := pos - (m - 1);
        var i := m - 1;
        while i >= 0 && Fold(caseSensitive, text[pos]) == query[i]
          invariant -1 <= i < m
          invariant pos == a + i
          invariant forall k :: i < k < m ==> query[k] == t[a + k]
        {
          pos := pos - 1;
          i := i - 1;
        }
        if i < 0 {
          return Some(pos + 1);
        }
        JumpIsSafe(caseSensitive, query, alphaSkip[..], findSkip[..], text, a, i);
        pos := pos + Max(alphaSkip[text[pos]], findSkip[i]);
      }
      return None;
    }
  }

  /** posixc_boyermoore_contains */
  method Contains(text: seq<Byte>, query: seq<Byte>) returns (r: Option<nat>)
    requires |query| > 0
    ensures IsFirstMatch(query, text, r)
  {
    var searcher := new Searcher(query, true);
    r := searcher.SearchIn(text);
    assert Folded(true, text) == text;
  }

  /** posixc_boyermoore_contains_case_ignored: whatever the query, the answer is that of a
      case-sensitive search of the lower-cased text. */
  method ContainsCaseIgnored(text: seq<Byte>, query: seq<Byte>) returns (r: Option<nat>)
    requires |query| > 0
    ensures IsFirstMatch(query, Folded(false, text), r)
    ensures if NoCapitals(query) then IsFirstUpToCase(query, text, r) else r == None
  {
    var searcher := new Searcher(query, false);
    r := searcher.SearchIn(text);
    if NoCapitals(query) {
      FirstFoldedIsUpToCase(query, text, r);
    } else {
      CapitalNeverOccurs(query, text);
      FirstMatchIsUnique(query, Folded(false, text), r, None);
    }
  }

  // ----- what the results mean

  /** The textbook form of the strong good-suffix rule. */
  ghost predicate StrongGoodSuffix(q: seq<Byte>, j: nat, s: int)
    requires j < |q|
  {
    && s >= 1
    && (forall k :: j < k < |q| ==> k - s < 0 || q[k - s] == q[k])
    && (j - s < 0 || q[j - s] != q[j])
  }

  /** For a case-sensitive query, and for a lower-case one in either mode, every table entry
      is the least shift that the textbook rule allows. */
  lemma TableIsTextbook(cs: bool, q: seq<Byte>, sl: seq<nat>, j: nat)
    requires FindSkipExact(cs, q, sl)
    requires cs || NoCapitals(q)
    requires j < |q|
    ensures var s := sl[j] - (|q| - 1 - j);
            StrongGoodSuffix(q, j, s) && forall s' :: 1 <= s' < s ==> !StrongGoodSuffix(q, j, s')
  {
    var s := sl[j] - (|q| - 1 - j);
    NoCapitalsFolds(q);
    assert LeastGoodShift(cs, q, j, s);
    forall s': int
      ensures GoodShift(cs, q, j, s') <==> StrongGoodSuffix(q, j, s')
    {
      assert forall k :: j <= k < |q| && 0 <= k - s' < |q| ==> (Agrees(cs, q, k, s') <==> q[k - s'] == q[k]);
    }
  }

  /** Two tables that are exact for the same query are the same table. */
  lemma FindSkipIsUnique(cs: bool, q: seq<Byte>, sl: seq<nat>, sl': seq<nat>)
    requires FindSkipExact(cs, q, sl) && FindSkipExact(cs, q, sl')
    ensures sl == sl'
  {
    forall j | 0 <= j < |q|
      ensures sl[j] == sl'[j]
    {
      var s, s' := sl[j] - (|q| - 1 - j), sl'[j] - (|q| - 1 - j);
      assert LeastGoodShift(cs, q, j, s) && LeastGoodShift(cs, q, j, s');
    }
  }

  /** Every byte of the query is, up to case, the byte of the text above it. */
  ghost predicate OccursUpToCase(query: seq<Byte>, text: seq<Byte>, a: int) {
    && 0 <= a <= |text| - |query|
    && forall k :: 0 <= k < |query| ==> SameLetter(query[k], text[a + k])
  }

  /** `r` is the first such place, and `None` exactly when there is none. */
  ghost predicate IsFirstUpToCase(query: seq<Byte>, text: seq<Byte>, r: Option<nat>) {
    match r
    case None => forall a :: !OccursUpToCase(query, text, a)
    case Some(p) => OccursUpToCase(query, text, p) && forall a :: 0 <= a < p ==> !OccursUpToCase(query, text, a)
  }

  /** Without capitals in the query, to occur in the folded text is to occur up to case. */
  lemma FoldedIsUpToCase(query: seq<Byte>, text: seq<Byte>, a: int)
    requires NoCapitals(query)
    ensures OccursAt(query, Folded(false, text), a) <==> OccursUpToCase(query, text, a)
  {
    NoCapitalsFolds(query);
    if 0 <= a <= |text| - |query| {
      forall k | 0 <= k < |query|
        ensures query[k] == Folded(false, text)[a + k] <==> SameLetter(query[k], text[a + k])
      {
        LowerIsSameLetter(query[k], text[a + k]);
      }
    }
  }

  lemma FirstFoldedIsUpToCase(query: seq<Byte>, text: seq<Byte>, r: Option<nat>)
    requires NoCapitals(query)
    ensures IsFirstMatch(query, Folded(false, text), r) <==> IsFirstUpToCase(query, text, r)
  {
    forall a
      ensures OccursAt(query, Folded(false, text), a) <==> OccursUpToCase(query, text, a)
    {
      FoldedIsUpToCase(query, text, a);
    }
  }

  /** A query with a capital occurs in no folded text. */
  lemma CapitalNeverOccurs(query: seq<Byte>, text: seq<Byte>)
    requires !NoCapitals(query)
    ensures IsFirstMatch(query, Folded(false, text), None)
  {
    var k :| 0 <= k < |query| && IsCapital(query[k]);
    var t := Folded(false, text);
    forall a
      ensures !OccursAt(query, t, a)
    {
      if 0 <= a <= |t| - |query| {
        LowerLeavesNoCapital(text[a + k]);
        assert query[k] != t[a + k];
      }
    }
  }

  /** A case-ignored search means "first occurrence up to case" on every text exactly when the
      query has no capital; the source lower-cases the text but not the query (line 86). */
  lemma CaseIgnoredMeansCaseInsensitive(query: seq<Byte>)
    ensures (forall text, r :: IsFirstMatch(query, Folded(false, text), r) ==> IsFirstUpToCase(query, text, r))
            <==> NoCapitals(query)
  {
    if NoCapitals(query) {
      forall text, r | IsFirstMatch(query, Folded(false, text), r)
        ensures IsFirstUpToCase(query, text, r)
      {
        FirstFoldedIsUpToCase(query, text, r);
      }
    } else {
      CapitalNeverOccurs(query, query);
      assert OccursUpToCase(query, query, 0);
      assert !IsFirstUpToCase(query, query, None);
    }
  }
}
