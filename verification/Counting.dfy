/** Counting occurrences into a map, one at a time, and counting places. */
module Counting {

  /** `counts` holds each name of `names` with its number of occurrences. */
  ghost predicate Counted(counts: map<string, nat>, names: seq<string>) {
    && counts.Keys == (set n | n in names)
    && forall n :: n in counts ==> counts[n] == multiset(names)[n]
  }

  function Incremented(counts: map<string, nat>, n: string): map<string, nat> {
    counts[n := (if n in counts then counts[n] else 0) + 1]
  }

  lemma CountedOneMore(counts: map<string, nat>, names: seq<string>, n: string)
    requires Counted(counts, names)
    ensures Counted(Incremented(counts, n), names + [n])
  {
    assert n !in counts ==> multiset(names)[n] == 0;
  }

  /** Moving every index up by one keeps their number. */
  lemma {:induction false} MovedByOne(x: set<nat>, y: set<nat>)
    requires forall i :: i in y <==> i > 0 && i - 1 in x
    ensures |y| == |x|
    decreases |x|
  {
    if x == {} {
      assert y == {};
    } else {
      var i :| i in x;
      assert i + 1 in y;
      MovedByOne(x - {i}, y - {i + 1});
    }
  }
}
