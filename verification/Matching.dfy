/** What every substring matcher of the library promises: the first occurrence of a
    query in a text, or nothing when there is none. The matchers are proved against
    these definitions and never against each other's code. */
module Matching {

  /** A C `char` read as `unsigned char`. */
  type Byte = b: int | 0 <= b < 256

  /** A `const char*` result: NULL, or a pointer `index` bytes into the text. */
  datatype Option<+T> = None | Some(value: T)

  predicate OccursAt(query: seq<Byte>, text: seq<Byte>, a: int) {
    && 0 <= a <= |text| - |query|
    && forall k :: 0 <= k < |query| ==> query[k] == text[a + k]
  }

  ghost predicate OccursNowhere(query: seq<Byte>, text: seq<Byte>) {
    forall a :: !OccursAt(query, text, a)
  }

  /** `r` is the first occurrence of `query` in `text`, and `None` exactly when there is none. */
  ghost predicate IsFirstMatch(query: seq<Byte>, text: seq<Byte>, r: Option<nat>) {
    match r
    case None => OccursNowhere(query, text)
    case Some(p) => OccursAt(query, text, p) && forall a :: 0 <= a < p ==> !OccursAt(query, text, a)
  }

  /** The specification leaves no freedom, so two matchers that meet it agree. */
  lemma FirstMatchIsUnique(query: seq<Byte>, text: seq<Byte>, r: Option<nat>, r': Option<nat>)
    requires IsFirstMatch(query, text, r) && IsFirstMatch(query, text, r')
    ensures r == r'
  {
    if r.Some? && r'.Some? {
      assert OccursAt(query, text, r.value) && OccursAt(query, text, r'.value);
    }
  }
}
