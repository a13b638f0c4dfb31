/** src/common/utils.c: decimal output into a caller's buffer, low digit first and then
    reversed in place. C's `/` and `%` truncate toward zero. */
module Decimal {
  import opened Matching

  function CDiv10(x: int): int {
    if x >= 0 then x / 10 else -((-x) / 10)
  }

  function CRem10(x: int): (r: int)
    ensures -9 <= r <= 9 && x == 10 * CDiv10(x) + r
  {
    if x >= 0 then x % 10 else -((-x) % 10)
  }

  function Abs(x: int): nat {
    if x >= 0 then x else -x
  }

  /** What the digit loop stores for `x`, lowest digit first. */
  function LowChars(x: int): seq<Byte>
    decreases Abs(x)
  {
    if x == 0 then [] else [CRem10(x) + '0' as int] + LowChars(CDiv10(x))
  }

  // ----- reading a numeral back

  /** The value of a numeral, highest digit first. */
  function Read(s: seq<Byte>): int {
    if s == [] then 0 else 10 * Read(s[..|s| - 1]) + (s[|s| - 1] - '0' as int)
  }

  /** The value of a numeral, lowest digit first. */
  function ReadLow(s: seq<Byte>): int {
    if s == [] then 0 else (s[0] - '0' as int) + 10 * ReadLow(s[1..])
  }

  predicate IsDigit(c: Byte) {
    '0' as int <= c <= '9' as int
  }

  predicate AllDigits(s: seq<Byte>) {
    forall k :: 0 <= k < |s| ==> IsDigit(s[k])
  }

  /** A decimal numeral: at least one digit, nothing but digits, no leading zero. */
  predicate Numeral(s: seq<Byte>) {
    |s| > 0 && s[0] != '0' as int && AllDigits(s)
  }

  predicate Mirrors(r: seq<Byte>, s: seq<Byte>) {
    |r| == |s| && forall k :: 0 <= k < |r| ==> r[k] == s[|s| - 1 - k]
  }

  lemma {:induction false} MirrorReadsSame(r: seq<Byte>, s: seq<Byte>)
    requires Mirrors(r, s)
    ensures Read(r) == ReadLow(s)
  {
    if s != [] {
      MirrorReadsSame(r[..|r| - 1], s[1..]);
    }
  }

  lemma {:induction false} LowCharsReadBack(x: int)
    ensures ReadLow(LowChars(x)) == x
    decreases Abs(x)
  {
    if x != 0 {
      LowCharsReadBack(CDiv10(x));
      assert LowChars(x)[1..] == LowChars(CDiv10(x));
    }
  }

  lemma {:induction false} PaddingReadsSame(s: seq<Byte>, zeros: seq<Byte>)
    requires forall k :: 0 <= k < |zeros| ==> zeros[k] == '0' as int
    ensures ReadLow(s + zeros) == ReadLow(s)
  {
    if s != [] {
      PaddingReadsSame(s[1..], zeros);
      assert (s + zeros)[1..] == s[1..] + zeros;
    } else if zeros != [] {
      PaddingReadsSame([], zeros[1..]);
      assert (s + zeros)[1..] == [] + zeros[1..];
    }
  }

  /** The stored characters are digits from the first one on exactly when `x` is not negative,
      and the highest of them is never a zero. */
  lemma {:induction false} LowCharsShape(x: int)
    ensures x > 0 ==> forall k :: 0 <= k < |LowChars(x)| ==> IsDigit(LowChars(x)[k])
    ensures x < 0 ==> forall k :: 0 <= k < |LowChars(x)| ==> LowChars(x)[k] <= '0' as int
    ensures x != 0 ==> |LowChars(x)| > 0 && LowChars(x)[|LowChars(x)| - 1] != '0' as int
    decreases Abs(x)
  {
    if x != 0 {
      var rest := LowChars(CDiv10(x));
      LowCharsShape(CDiv10(x));
      assert LowChars(x) == [CRem10(x) + '0' as int] + rest;
    }
  }

  function Pow10(n: nat): nat {
    if n == 0 then 1 else 10 * Pow10(n - 1)
  }

  /** The number of stored characters is the number of decimal digits. */
  lemma {:induction false} DigitCount(x: int, n: nat)
    ensures |LowChars(x)| <= n <==> Abs(x) < Pow10(n)
    decreases Abs(x)
  {
    if x != 0 && n > 0 {
      DigitCount(CDiv10(x), n - 1);
    } else if x == 0 {
      PowPositive(n);
    }
  }

  lemma {:induction false} PowPositive(n: nat)
    ensures Pow10(n) > 0
  {
    if n > 0 {
      PowPositive(n - 1);
    }
  }

  lemma IntHasTenDigits(x: int)
    requires -0x8000_0000 <= x < 0x8000_0000
    ensures |LowChars(x)| <= 10
  {
    DigitCount(x, 10);
    assert Pow10(10) == 100000 * Pow10(5);
  }

  /** A mirrored digit string is a numeral exactly when `x` is positive: zero gives the empty
      string, and a negative number gives characters below '0'. */
  lemma NumeralIffPositive(x: int, r: seq<Byte>)
    requires Mirrors(r, LowChars(x))
    ensures Numeral(r) <==> x > 0
  {
    LowCharsShape(x);
  }

  function Zeros(n: nat): (s: seq<Byte>)
    ensures |s| == n && forall k :: 0 <= k < n ==> s[k] == '0' as int
  {
    seq(n, _ => '0' as int)
  }

  /** Padding on the left does not change the value, and the result is all digits exactly when
      `x` is not negative. */
  lemma PaddedReadsBack(x: int, padding: nat, r: seq<Byte>)
    requires Mirrors(r, LowChars(x) + Zeros(padding))
    ensures Read(r) == x
    ensures AllDigits(r) <==> x >= 0
  {
    MirrorReadsSame(r, LowChars(x) + Zeros(padding));
    PaddingReadsSame(LowChars(x), Zeros(padding));
    LowCharsReadBack(x);
    LowCharsShape(x);
    if x < 0 {
      var top := |LowChars(x)| - 1;
      assert r[|r| - 1 - top] == LowChars(x)[top] < '0' as int;
    }
  }

  // ----- the C functions

  /** posixc_reverse */
  method Reverse(str: array<Byte>, len: nat)
    requires len <= str.Length
    modifies str
    ensures Mirrors(str[..len], old(str[..len]))
    ensures str[len..] == old(str[len..])
  {
    var i, j := 0, len - 1;
    while i < j
      invariant 0 <= i <= j + 2 && j == len - 1 - i
      invariant forall k :: 0 <= k < i || j < k < len ==> str[k] == old(str[..])[len - 1 - k]
      invariant forall k :: i <= k <= j || len <= k < str.Length ==> str[k] == old(str[k])
    {
      var temp := str[i];
      str[i] := str[j];
      str[j] := temp;
      i := i + 1;
      j := j - 1;
    }
  }

  /** The shared last two lines of both conversions (50-51 and 62-63). */
  method ReverseAndTerminate(str: array<Byte>, i: nat)
    requires i < str.Length
    modifies str
    ensures Mirrors(str[..i], old(str[..i]))
    ensures str[i] == 0 && str[i + 1..] == old(str[i + 1..])
  {
    ghost var tail := str[i..];
    Reverse(str, i);
    assert str[i + 1..] == tail[1..];
    ghost var digits := str[..i];
    str[i] := 0;
    assert str[..i] == digits;
  }

  /** The shared digit loop (lines 45-49 and 56-60). */
  method StoreDigits(x: int, str: array<Byte>) returns (i: nat)
    requires |LowChars(x)| < str.Length
    modifies str
    ensures i == |LowChars(x)| && str[..i] == LowChars(x)
    ensures str[i..] == old(str[i..])
  {
    i := 0;
    var rest := x;
    while rest != 0
      invariant i + |LowChars(rest)| == |LowChars(x)|
      invariant LowChars(x) == str[..i] + LowChars(rest)
      invariant str[i..] == old(str[i..])
      decreases Abs(rest)
    {
      ghost var before := str[..i];
      assert LowChars(rest) == [CRem10(rest) + '0' as int] + LowChars(CDiv10(rest));
      str[i] := CRem10(rest) + '0' as int;
      assert str[..i + 1] == before + [CRem10(rest) + '0' as int];
      rest := CDiv10(rest);
      i := i + 1;
    }
  }

  /** posixc_itoa. The buffer must have room for the digits and the terminator. */
  method Itoa(x: int, str: array<Byte>) returns (i: nat)
    requires |LowChars(x)| < str.Length
    modifies str
    ensures i < str.Length && Read(str[..i]) == x
    ensures Numeral(str[..i]) <==> x > 0
    ensures forall n: nat :: i <= n <==> Abs(x) < Pow10(n)
    ensures str[i] == 0 && str[i + 1..] == old(str[i + 1..])
  {
    i := StoreDigits(x, str);
    ReverseAndTerminate(str, i);
    MirrorReadsSame(str[..i], LowChars(x));
    LowCharsReadBack(x);
    NumeralIffPositive(x, str[..i]);
    forall n: nat
      ensures i <= n <==> Abs(x) < Pow10(n)
    {
      DigitCount(x, n);
    }
  }

  /** posixc_itoa_padding_zeros, line 61 */
  method PadZeros(str: array<Byte>, n: nat, d: int) returns (i: nat)
    requires n < str.Length && d < str.Length
    modifies str
    ensures i == if n < d then d else n
    ensures str[..i] == old(str[..n]) + Zeros(i - n)
    ensures str[i..] == old(str[i..])
  {
    i := n;
    while i < d
      invariant n <= i < str.Length && (i <= d || i == n)
      invariant str[..i] == old(str[..n]) + Zeros(i - n)
      invariant str[i..] == old(str[i..])
    {
      ghost var before := str[..i];
      str[i] := '0' as int;
      assert str[..i + 1] == before + ['0' as int];
      i := i + 1;
    }
  }

  /** posixc_itoa_padding_zeros */
  method ItoaPaddingZeros(x: int, str: array<Byte>, d: int) returns (i: nat)
    requires |LowChars(x)| < str.Length && d < str.Length
    modifies str
    ensures i < str.Length && Read(str[..i]) == x
    ensures AllDigits(str[..i]) <==> x >= 0
    ensures i == if |LowChars(x)| < d then d else |LowChars(x)|
    ensures str[i] == 0 && str[i + 1..] == old(str[i + 1..])
  {
    var n := StoreDigits(x, str);
    i := PadZeros(str, n, d);
    ghost var padded := str[..i];
    assert padded == LowChars(x) + Zeros(i - n);
    assert str[i + 1..] == old(str[i + 1..]) by {
      assert str[i..] == old(str[i..]);
      assert str[i..][1..] == str[i + 1..];
    }
    ReverseAndTerminate(str, i);
    PaddedReadsBack(x, i - n, str[..i]);
  }
}
