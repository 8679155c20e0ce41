/** Token-overlap F1 between a gold and a candidate answer, over exact reals. */
module TokenF1 {
  import opened Counting

  // ----- tokens -----

  datatype Classes = Classes(alnum: char -> bool, space: char -> bool)

  /** A blank separates words and letters are no blanks. */
  ghost predicate Sane(cc: Classes) {
    && cc.space(' ') && !cc.alnum(' ')
    && forall c :: cc.alnum(c) ==> !cc.space(c)
  }

  function Blanked(cc: Classes, s: string): string {
    seq(|s|, i requires 0 <= i < |s| => if cc.alnum(s[i]) then s[i] else ' ')
  }

  /** The length of the leading run of non-blanks. */
  function WordLength(cc: Classes, s: string): (n: nat)
    ensures n <= |s| && (n < |s| ==> cc.space(s[n])) && forall i :: 0 <= i < n ==> !cc.space(s[i])
  {
    if s == "" || cc.space(s[0]) then 0 else 1 + WordLength(cc, s[1..])
  }

  function Words(cc: Classes, s: string): seq<string>
    decreases |s|
  {
    if s == "" then []
    else if cc.space(s[0]) then Words(cc, s[1..])
    else [s[..WordLength(cc, s)]] + Words(cc, s[WordLength(cc, s)..])
  }

  /** The tokens of an already lower-cased answer. */
  function Tokens(cc: Classes, lowered: string): seq<string> { Words(cc, Blanked(cc, lowered)) }

  lemma {:induction false} WordLengthIs(cc: Classes, s: string, n: nat)
    requires n < |s| && cc.space(s[n]) && forall i :: 0 <= i < n ==> !cc.space(s[i])
    ensures WordLength(cc, s) == n
  {
  }

  lemma {:induction false} WordsSplit(cc: Classes, a: string, p: char, b: string)
    requires cc.space(p)
    ensures Words(cc, a + [p] + b) == Words(cc, a) + Words(cc, b)
    decreases |a|
  {
    var s := a + [p] + b;
    if a == "" {
      assert s[1..] == b;
    } else if cc.space(a[0]) {
      assert s[1..] == a[1..] + [p] + b;
      WordsSplit(cc, a[1..], p, b);
    } else {
      var n := WordLength(cc, a);
      WordLengthIs(cc, s, n);
      assert s[..n] == a[..n] && s[n..] == a[n..] + [p] + b;
      WordsSplit(cc, a[n..], p, b);
    }
  }

  /** Any character that is no letter or digit separates tokens, whatever it is. */
  lemma PunctuationSeparates(cc: Classes, a: string, p: char, b: string)
    requires Sane(cc) && !cc.alnum(p)
    ensures Tokens(cc, a + [p] + b) == Tokens(cc, a) + Tokens(cc, b)
  {
    assert Blanked(cc, a + [p] + b) == Blanked(cc, a) + [' '] + Blanked(cc, b);
    WordsSplit(cc, Blanked(cc, a), ' ', Blanked(cc, b));
  }

  /** A run of letters and digits is one token. */
  lemma RunIsOneToken(cc: Classes, a: string)
    requires Sane(cc) && a != "" && forall i :: 0 <= i < |a| ==> cc.alnum(a[i])
    ensures Tokens(cc, a) == [a]
  {
    assert Blanked(cc, a) == a;
    var n := WordLength(cc, a);
    assert forall i :: 0 <= i < |a| ==> !cc.space(a[i]);
    assert a[..n] == a && Words(cc, a[n..]) == [];
  }

  lemma {:induction false} WordsAreRuns(cc: Classes, s: string)
    requires Sane(cc) && forall i :: 0 <= i < |s| ==> cc.alnum(s[i]) || s[i] == ' '
    ensures forall t :: t in Words(cc, s) ==> t != "" && forall i :: 0 <= i < |t| ==> cc.alnum(t[i])
    decreases |s|
  {
    if s != "" { WordsAreRuns(cc, if cc.space(s[0]) then s[1..] else s[WordLength(cc, s)..]); }
  }

  /** Every token is a non-empty run of letters and digits. */
  lemma {:induction false} TokensAreRuns(cc: Classes, lowered: string)
    requires Sane(cc)
    ensures forall t :: t in Tokens(cc, lowered) ==> t != "" && forall i :: 0 <= i < |t| ==> cc.alnum(t[i])
    ensures lowered == "" ==> Tokens(cc, lowered) == []
  {
    WordsAreRuns(cc, Blanked(cc, lowered));
  }

  // ----- the score -----

  function Overlap(gold: seq<string>, cand: seq<string>): nat { |multiset(gold) * multiset(cand)| }

  /** Twice the shared tokens over all tokens; two empty answers agree. */
  function Score(gold: seq<string>, cand: seq<string>): real {
    if |gold| + |cand| == 0 then 1.0 else 2.0 * Overlap(gold, cand) as real / (|gold| + |cand|) as real
  }

  lemma SharedAtMost<T>(a: multiset<T>, b: multiset<T>)
    ensures |a * b| <= |a| && (|a * b| == |a| ==> a <= b)
  {
    assert a == a * b + (a - b);
    if |a * b| == |a| {
      assert |a - b| == 0;
      assert forall x :: x in a ==> a[x] <= b[x];
    }
  }

  lemma SignKept(a: real, b: real)
    requires b > 0.0 && a * b >= 0.0
    ensures a >= 0.0
  {
    assert a < 0.0 ==> a * b < 0.0;
  }

  lemma FractionOfWhole(k: nat, n: nat)
    requires 0 < n && k <= n
    ensures 0.0 <= k as real / n as real <= 1.0
    ensures k as real / n as real == 1.0 <==> k == n
    ensures k as real / n as real == 0.0 <==> k == 0
  {
    var x := k as real / n as real;
    assert x * n as real == k as real;
    assert (1.0 - x) * n as real == n as real - k as real;
    SignKept(x, n as real);
    SignKept(1.0 - x, n as real);
  }

  /**
   * Symmetric, between 0 and 1, 1 exactly for equal token multisets
   * and 0 exactly when nothing is shared and something is there.
   */
  lemma ScoreLaws(gold: seq<string>, cand: seq<string>)
    ensures Score(gold, cand) == Score(cand, gold)
    ensures 0.0 <= Score(gold, cand) <= 1.0
    ensures Score(gold, cand) == 1.0 <==> multiset(gold) == multiset(cand)
    ensures Score(gold, cand) == 0.0 <==> |gold| + |cand| > 0 && multiset(gold) !! multiset(cand)
  {
    var g, c := multiset(gold), multiset(cand);
    assert g * c == c * g;
    SharedAtMost(g, c);
    SharedAtMost(c, g);
    assert |g * c| == 0 <==> g !! c by {
      assert forall t :: t in g * c <==> t in g && t in c;
    }
    if |gold| + |cand| > 0 {
      assert 2.0 * Overlap(gold, cand) as real == (2 * Overlap(gold, cand)) as real;
      FractionOfWhole(2 * Overlap(gold, cand), |gold| + |cand|);
      if g == c { assert g * c == g; }
    } else {
      assert gold == [] && cand == [];
    }
  }

  lemma Cancel(a: real, b: real, c: real)
    requires c > 0.0 && a * c == b * c
    ensures a == b
  {
    assert (a - b) * c == 0.0;
  }

  lemma Quotient(a: real, b: real, x: real)
    requires b > 0.0 && x * b == a
    ensures a / b == x
  {
    assert (a / b) * b == a;
    Cancel(a / b, x, b);
  }

  /** The harmonic mean of precision and recall is twice the overlap over both lengths. */
  lemma HarmonicMean(o: real, n: real, m: real)
    requires o > 0.0 && n > 0.0 && m > 0.0
    ensures o / n + o / m > 0.0
    ensures 2.0 * (o / n) * (o / m) / (o / n + o / m) == 2.0 * o / (n + m)
  {
    var p, r, x := o / n, o / m, 2.0 * o / (n + m);
    assert p * n == o && r * m == o && x * (n + m) == 2.0 * o;
    assert p > 0.0 && r > 0.0;
    assert x * (p + r) == 2.0 * p * r by {
      assert (p + r) * n * m == o * (n + m);
      assert x * (p + r) * (n * m) == x * (o * (n + m)) == o * (2.0 * o);
      assert 2.0 * p * r * (n * m) == 2.0 * (p * n) * (r * m) == 2.0 * o * o;
      assert n * m > 0.0;
      Cancel(x * (p + r), 2.0 * p * r, n * m);
    }
    Quotient(2.0 * p * r, p + r, x);
  }

  /** The harmonic mean of precision and recall, as computed. */
  function F1(overlap: nat, golds: nat, cands: nat): (score: real)
    requires overlap > 0 && golds > 0 && cands > 0
    ensures score == 2.0 * overlap as real / (golds + cands) as real
  {
    HarmonicMean(overlap as real, cands as real, golds as real);
    var precision, recall := overlap as real / cands as real, overlap as real / golds as real;
    2.0 * precision * recall / (precision + recall)
  }

  lemma NothingShared(gold: seq<string>, cand: seq<string>)
    requires |gold| + |cand| > 0 && Overlap(gold, cand) == 0
    ensures Score(gold, cand) == 0.0
  {
    FractionOfWhole(0, |gold| + |cand|);
  }

  // ----- the loops -----

  method CountTokens(toks: seq<string>) returns (counts: map<string, nat>)
    ensures Counted(counts, toks)
  {
    counts := map[];
    for i := 0 to |toks|
      invariant Counted(counts, toks[..i])
    {
      assert toks[..i + 1] == toks[..i] + [toks[i]];
      CountedOneMore(counts, toks[..i], toks[i]);
      counts := Incremented(counts, toks[i]);
    }
    assert toks[..|toks|] == toks;
  }

  lemma Without<T>(m: multiset<T>, t: T)
    ensures |m[t := 0]| + m[t] == |m|
  {
    assert m == m[t := 0] + multiset{}[t := m[t]];
  }

  /** Sums the smaller counts, visiting the candidate's tokens in any order. */
  method SharedCount(gold: map<string, nat>, cand: map<string, nat>, ghost g: seq<string>, ghost c: seq<string>)
    returns (overlap: nat)
    requires Counted(gold, g) && Counted(cand, c)
    ensures overlap == Overlap(g, c)
  {
    overlap := 0;
    var rest := cand.Keys;
    ghost var left := multiset(g) * multiset(c);
    while rest != {}
      invariant rest <= cand.Keys && overlap + |left| == Overlap(g, c)
      invariant forall t :: left[t] == if t in rest then (multiset(g) * multiset(c))[t] else 0
      decreases rest
    {
      var t :| t in rest;
      Without(left, t);
      left := left[t := 0];
      if t in gold {
        overlap := overlap + if gold[t] <= cand[t] then gold[t] else cand[t];
      } else {
        assert t !in g;
      }
      rest := rest - {t};
    }
    assert left == multiset{};
  }

  method Rate(cc: Classes, goldText: string, candText: string) returns (score: real)
    ensures score == Score(Tokens(cc, goldText), Tokens(cc, candText))
  {
    var gold, cand := Tokens(cc, goldText), Tokens(cc, candText);
    if gold == [] || cand == [] {
      if gold == [] && cand == [] { return 1.0; }
      assert multiset(gold) * multiset(cand) == multiset{};
      NothingShared(gold, cand);
      return 0.0;
    }
    var goldCounts := CountTokens(gold);
    var candCounts := CountTokens(cand);
    var overlap := SharedCount(goldCounts, candCounts, gold, cand);
    if overlap == 0 {
      NothingShared(gold, cand);
      return 0.0;
    }
    score := F1(overlap, |gold|, |cand|);
  }
}
