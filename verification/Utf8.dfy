/** How many bytes a string takes in UTF-8. */
module Utf8 {
  import opened Counting

  function Utf8Len(s: string): nat {
    if s == "" then 0
    else (if s[0] < '\U{80}' then 1 else if s[0] < '\U{800}' then 2 else if s[0] < '\U{10000}' then 3 else 4)
         + Utf8Len(s[1..])
  }

  predicate Ascii(s: string) { forall i :: 0 <= i < |s| ==> s[i] < '\U{80}' }

  /** The places of `s` whose character is `from` or above. */
  function From(s: string, from: char): set<nat> { set i | 0 <= i < |s| && s[i] >= from }

  lemma FromOneMore(s: string, from: char)
    requires s != ""
    ensures |From(s, from)| == |From(s[1..], from)| + if s[0] >= from then 1 else 0
  {
    var later := From(s, from) - {0};
    MovedByOne(From(s[1..], from), later);
    if s[0] >= from { assert From(s, from) == later + {0}; } else { assert From(s, from) == later; }
  }

  /** A byte for each character, one more for each from U+80, from U+800 and from U+10000 on. */
  lemma {:induction false} Utf8LenIs(s: string)
    ensures Utf8Len(s) == |s| + |From(s, '\U{80}')| + |From(s, '\U{800}')| + |From(s, '\U{10000}')|
  {
    if s != "" {
      Utf8LenIs(s[1..]);
      FromOneMore(s, '\U{80}');
      FromOneMore(s, '\U{800}');
      FromOneMore(s, '\U{10000}');
    }
  }

  lemma Utf8LenBounds(s: string)
    ensures |s| <= Utf8Len(s) && (Ascii(s) ==> Utf8Len(s) == |s|)
  {
    Utf8LenIs(s);
    if Ascii(s) {
      assert From(s, '\U{80}') == {} && From(s, '\U{800}') == {} && From(s, '\U{10000}') == {};
    }
  }
}
