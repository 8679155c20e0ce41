/** Total orders, lexicographic order and the one sorted arrangement of a sequence. */
module Ordering {

  ghost predicate TotalOrder<T(!new)>(le: (T, T) -> bool) {
    && (forall x, y :: le(x, y) || le(y, x))
    && (forall x, y :: le(x, y) && le(y, x) ==> x == y)
    && (forall x, y, z :: le(x, y) && le(y, z) ==> le(x, z))
  }

  ghost predicate Sorted<T>(le: (T, T) -> bool, s: seq<T>) {
    forall i, j :: 0 <= i < j < |s| ==> le(s[i], s[j])
  }

  function Insert<T>(le: (T, T) -> bool, x: T, s: seq<T>): seq<T> {
    if s == [] || le(x, s[0]) then [x] + s else [s[0]] + Insert(le, x, s[1..])
  }

  /** The library's stable sort, as a function. */
  function Sort<T>(le: (T, T) -> bool, s: seq<T>): seq<T> {
    if s == [] then [] else Insert(le, s[0], Sort(le, s[1..]))
  }

  lemma FirstAndRest<T>(s: seq<T>)
    requires s != []
    ensures s == [s[0]] + s[1..] && multiset(s) == multiset{s[0]} + multiset(s[1..])
  {
    assert s == [s[0]] + s[1..];
  }

  lemma {:induction false} InsertKeeps<T>(le: (T, T) -> bool, x: T, s: seq<T>)
    ensures multiset(Insert(le, x, s)) == multiset{x} + multiset(s)
  {
    if s != [] && !le(x, s[0]) {
      InsertKeeps(le, x, s[1..]);
      FirstAndRest(s);
    }
  }

  lemma FirstBelowRest<T(!new)>(le: (T, T) -> bool, first: T, rest: seq<T>)
    requires Sorted(le, rest) && forall y :: y in multiset(rest) ==> le(first, y)
    ensures Sorted(le, [first] + rest)
  {
    assert forall j :: 0 <= j < |rest| ==> rest[j] in multiset(rest);
  }

  lemma FirstIsLeast<T(!new)>(le: (T, T) -> bool, s: seq<T>, y: T)
    requires TotalOrder(le) && Sorted(le, s) && y in multiset(s)
    ensures s != [] && le(s[0], y)
  {
    assert y in s;
    var k :| 0 <= k < |s| && s[k] == y;
  }

  lemma {:induction false} InsertSorts<T(!new)>(le: (T, T) -> bool, x: T, s: seq<T>)
    requires TotalOrder(le) && Sorted(le, s)
    ensures Sorted(le, Insert(le, x, s)) && multiset(Insert(le, x, s)) == multiset{x} + multiset(s)
  {
    InsertKeeps(le, x, s);
    if s == [] {
    } else if le(x, s[0]) {
      forall y | y in multiset(s) ensures le(x, y) { FirstIsLeast(le, s, y); }
      FirstBelowRest(le, x, s);
    } else {
      InsertSorts(le, x, s[1..]);
      FirstAndRest(s);
      forall y | y in multiset(Insert(le, x, s[1..])) ensures le(s[0], y) {
        if y != x { FirstIsLeast(le, s, y); }
      }
      FirstBelowRest(le, s[0], Insert(le, x, s[1..]));
    }
  }

  lemma {:induction false} SortSorts<T(!new)>(le: (T, T) -> bool, s: seq<T>)
    requires TotalOrder(le)
    ensures Sorted(le, Sort(le, s)) && multiset(Sort(le, s)) == multiset(s)
  {
    if s != [] {
      SortSorts(le, s[1..]);
      InsertSorts(le, s[0], Sort(le, s[1..]));
      FirstAndRest(s);
    }
  }

  lemma SortedTail<T>(le: (T, T) -> bool, s: seq<T>)
    requires s != [] && Sorted(le, s)
    ensures Sorted(le, s[1..])
  {
  }

  /** Two sorted arrangements of the same elements start alike. */
  lemma SameFirst<T(!new)>(le: (T, T) -> bool, s: seq<T>, t: seq<T>)
    requires TotalOrder(le) && Sorted(le, s) && Sorted(le, t) && multiset(s) == multiset(t) && s != []
    ensures t != [] && s[0] == t[0]
  {
    assert s[0] in multiset(s);
    FirstIsLeast(le, t, s[0]);
    assert t[0] in multiset(t);
    FirstIsLeast(le, s, t[0]);
  }

  lemma SameRest<T>(x: T, m: multiset<T>, n: multiset<T>)
    requires multiset{x} + m == multiset{x} + n
    ensures m == n
  {
    assert m == multiset{x} + m - multiset{x};
    assert n == multiset{x} + n - multiset{x};
  }

  /** Two sorted arrangements of the same elements are the same sequence. */
  lemma {:induction false} SortedIsUnique<T(!new)>(le: (T, T) -> bool, s: seq<T>, t: seq<T>)
    requires TotalOrder(le) && Sorted(le, s) && Sorted(le, t) && multiset(s) == multiset(t)
    ensures s == t
  {
    if s == [] {
      assert |multiset(t)| == 0;
    } else {
      SameFirst(le, s, t);
      FirstAndRest(s);
      FirstAndRest(t);
      SortedTail(le, s);
      SortedTail(le, t);
      SameRest(s[0], multiset(s[1..]), multiset(t[1..]));
      SortedIsUnique(le, s[1..], t[1..]);
    }
  }

  ghost predicate Least<T(!new)>(le: (T, T) -> bool, s: set<T>, x: T) {
    x in s && forall y :: y in s ==> le(x, y)
  }

  lemma {:induction false} LeastExists<T(!new)>(le: (T, T) -> bool, s: set<T>) returns (least: T)
    requires TotalOrder(le) && s != {}
    ensures Least(le, s, least)
    decreases |s|
  {
    var x :| x in s;
    var rest := s - {x};
    assert le(x, x) && s == rest + {x};
    if rest == {} {
      least := x;
    } else {
      var y := LeastExists(le, rest);
      least := if le(x, y) then x else y;
      assert forall z :: z in s ==> z == x || z in rest;
    }
  }

  /** The members of `s`, each once, in order: what iterating a tree map's keys yields. */
  ghost predicate Arranges<T(!new)>(le: (T, T) -> bool, s: set<T>, out: seq<T>) {
    Sorted(le, out) && multiset(out) == multiset(s)
  }

  lemma TwiceInSequence<T>(s: seq<T>, i: nat, j: nat)
    requires i < j < |s| && s[i] == s[j]
    ensures multiset(s)[s[i]] >= 2
  {
    assert s == s[..j] + [s[j]] + s[j + 1..];
    assert s[i] == s[..j][i] && s[i] in s[..j];
    assert multiset(s) == multiset(s[..j]) + multiset{s[j]} + multiset(s[j + 1..]);
  }

  /** A duplicate-free listing of a set holds each member once. */
  lemma {:induction false} DistinctIsSet<T>(s: seq<T>, t: set<T>)
    requires (forall x :: x in s <==> x in t) && forall i, j :: 0 <= i < j < |s| ==> s[i] != s[j]
    ensures multiset(s) == multiset(t)
  {
    if s != [] {
      assert s == [s[0]] + s[1..];
      assert s[0] !in s[1..];
      DistinctIsSet(s[1..], t - {s[0]});
    }
  }

  /** An arrangement lists every member of the set once. */
  lemma ArrangedOnce<T(!new)>(le: (T, T) -> bool, s: set<T>, out: seq<T>)
    requires Arranges(le, s, out)
    ensures (forall x :: x in out <==> x in s) && |out| == |s|
    ensures forall i, j :: 0 <= i < j < |out| ==> out[i] != out[j]
  {
    assert forall x :: x in out <==> x in multiset(out);
    assert |multiset(out)| == |out| && |multiset(s)| == |s|;
    forall i, j | 0 <= i < j < |out| ensures out[i] != out[j] {
      if out[i] == out[j] { TwiceInSequence(out, i, j); }
    }
  }

  /** The one ascending arrangement of a set. */
  ghost function InOrder<T(!new)>(le: (T, T) -> bool, s: set<T>): seq<T> {
    if exists out :: Arranges(le, s, out) then
      var out :| Arranges(le, s, out);
      out
    else []
  }

  lemma LeastFirst<T(!new)>(le: (T, T) -> bool, s: set<T>, x: T, rest: seq<T>)
    requires Least(le, s, x) && Arranges(le, s - {x}, rest)
    ensures Arranges(le, s, [x] + rest)
  {
    assert s == s - {x} + {x};
    assert forall j :: 0 <= j < |rest| ==> rest[j] in multiset(rest);
  }

  lemma {:induction false} InOrderArranges<T(!new)>(le: (T, T) -> bool, s: set<T>)
    requires TotalOrder(le)
    ensures Arranges(le, s, InOrder(le, s))
    decreases |s|
  {
    if s == {} {
      assert Arranges(le, s, []);
    } else {
      var x := LeastExists(le, s);
      InOrderArranges(le, s - {x});
      LeastFirst(le, s, x, InOrder(le, s - {x}));
    }
  }

  /** Sorting any listing of a set gives its ascending arrangement. */
  lemma SortGivesInOrder<T(!new)>(le: (T, T) -> bool, listing: seq<T>, s: set<T>)
    requires TotalOrder(le) && multiset(listing) == multiset(s)
    ensures Sort(le, listing) == InOrder(le, s)
    ensures multiset(InOrder(le, s)) == multiset(s)
  {
    SortSorts(le, listing);
    InOrderArranges(le, s);
    SortedIsUnique(le, Sort(le, listing), InOrder(le, s));
  }

  ghost predicate AllBelow<T(!new)>(le: (T, T) -> bool, out: seq<T>, rest: set<T>) {
    forall i, y :: 0 <= i < |out| && y in rest ==> le(out[i], y)
  }

  lemma TakeLeast<T(!new)>(le: (T, T) -> bool, s: set<T>, rest: set<T>, out: seq<T>, x: T)
    requires TotalOrder(le) && rest <= s && Least(le, rest, x)
    requires Arranges(le, s - rest, out) && AllBelow(le, out, rest)
    ensures Arranges(le, s - (rest - {x}), out + [x]) && AllBelow(le, out + [x], rest - {x})
  {
    assert s - (rest - {x}) == s - rest + {x};
  }

  method SortedElements<T(==,!new)>(le: (T, T) -> bool, s: set<T>) returns (out: seq<T>)
    requires TotalOrder(le)
    ensures Arranges(le, s, out)
  {
    out := [];
    var rest := s;
    assert s - rest == {};
    while rest != {}
      invariant rest <= s && Arranges(le, s - rest, out) && AllBelow(le, out, rest)
      decreases rest
    {
      ghost var least := LeastExists(le, rest);
      var x :| x in rest && forall y :: y in rest ==> le(x, y);
      TakeLeast(le, s, rest, out, x);
      out := out + [x];
      rest := rest - {x};
    }
    assert s - rest == s;
  }

  // ----- lexicographic order -----

  predicate LexLe<T(==)>(le: (T, T) -> bool, s: seq<T>, t: seq<T>) {
    if s == [] then true
    else if t == [] then false
    else if s[0] == t[0] then LexLe(le, s[1..], t[1..])
    else le(s[0], t[0])
  }

  function Lex<T(==)>(le: (T, T) -> bool): (seq<T>, seq<T>) -> bool {
    (s: seq<T>, t: seq<T>) => LexLe(le, s, t)
  }

  lemma {:induction false} LexTotal<T(!new)>(le: (T, T) -> bool, s: seq<T>, t: seq<T>)
    requires TotalOrder(le)
    ensures LexLe(le, s, t) || LexLe(le, t, s)
    ensures LexLe(le, s, t) && LexLe(le, t, s) ==> s == t
  {
    if s != [] && t != [] && s[0] == t[0] {
      LexTotal(le, s[1..], t[1..]);
      assert s == [s[0]] + s[1..] && t == [t[0]] + t[1..];
    }
  }

  lemma {:induction false} LexTransitive<T(!new)>(le: (T, T) -> bool, s: seq<T>, t: seq<T>, u: seq<T>)
    requires TotalOrder(le) && LexLe(le, s, t) && LexLe(le, t, u)
    ensures LexLe(le, s, u)
  {
    if s != [] && s[0] == t[0] == u[0] {
      LexTransitive(le, s[1..], t[1..], u[1..]);
    }
  }

  lemma LexIsTotalOrder<T(!new)>(le: (T, T) -> bool)
    requires TotalOrder(le)
    ensures TotalOrder(Lex(le))
  {
    forall s, t ensures Lex(le)(s, t) || Lex(le)(t, s) { LexTotal(le, s, t); }
    forall s, t | Lex(le)(s, t) && Lex(le)(t, s) ensures s == t { LexTotal(le, s, t); }
    forall s, t, u | Lex(le)(s, t) && Lex(le)(t, u) ensures Lex(le)(s, u) { LexTransitive(le, s, t, u); }
  }

  const CHAR_LE: (char, char) -> bool := (c: char, d: char) => c <= d

  /** Strings by their scalar values, which is also the order of their UTF-8 bytes. */
  const STRING_LE: (string, string) -> bool := Lex(CHAR_LE)

  lemma StringsAreOrdered()
    ensures TotalOrder(STRING_LE)
  {
    LexIsTotalOrder(CHAR_LE);
  }
}
