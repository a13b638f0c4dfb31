/** src/common/slice.c, posixc_slice_contains: short patterns go to one matcher, long ones to the other. */
module SliceContains {
  import opened Matching
  import BoyerMoore
  import Kmp

  /** posixc_slice_contains, with the short matcher as intended: as written, patterns of two to
      eight bytes go to the search of src/common/kmp.c:34, which module Kmp treats apart. A
      pattern of fewer than two bytes makes the short matcher write outside its table. The
      answer does not mention the length test. */
  method Contains(text: seq<Byte>, pattern: seq<Byte>) returns (found: bool)
    requires |pattern| >= 2
    ensures found <==> exists a :: OccursAt(pattern, text, a)
  {
    if |pattern| <= 8 {
      var r := Kmp.Contains(text, pattern);
      return r.Some?;
    } else {
      var r := BoyerMoore.Contains(text, pattern);
      return r.Some?;
    }
  }

  /** Both matchers, run on the same input, return the same pointer. */
  method BothMatchers(text: seq<Byte>, pattern: seq<Byte>) returns (kmp: Option<nat>, bm: Option<nat>)
    requires |pattern| >= 2
    ensures kmp == bm && IsFirstMatch(pattern, text, kmp)
  {
    kmp := Kmp.Contains(text, pattern);
    bm := BoyerMoore.Contains(text, pattern);
    FirstMatchIsUnique(pattern, text, kmp, bm);
  }
}
