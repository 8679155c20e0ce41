/** Splitting text on a separator, joining it again, and line iteration. */
module Lines {
  import opened Wrappers

  /** A path by its components. */
  type Path = seq<string>

  lemma Assoc<T>(a: seq<T>, b: seq<T>, c: seq<T>)
    ensures a + b + c == a + (b + c)
  {
  }

  function Split(s: string, sep: char): (r: seq<string>)
    ensures |r| > 0
  {
    if s == "" then [""]
    else
      var rest := Split(s[1..], sep);
      if s[0] == sep then [""] + rest else [[s[0]] + rest[0]] + rest[1..]
  }

  function Join(parts: seq<string>, sep: char): string
    requires |parts| > 0
  {
    if |parts| == 1 then parts[0] else parts[0] + [sep] + Join(parts[1..], sep)
  }

  ghost predicate Free(parts: seq<string>, sep: char) { forall i :: 0 <= i < |parts| ==> sep !in parts[i] }

  /** A separator-free piece in front of a text is its first piece. */
  lemma {:induction false} SplitFirst(a: string, s: string, sep: char)
    requires sep !in a
    ensures Split(a + s, sep) == [a + Split(s, sep)[0]] + Split(s, sep)[1..]
  {
    if a == "" {
      assert a + s == s && a + Split(s, sep)[0] == Split(s, sep)[0];
    } else {
      assert (a + s)[0] == a[0] && (a + s)[1..] == a[1..] + s;
      SplitFirst(a[1..], s, sep);
      assert a == [a[0]] + a[1..];
      assert [a[0]] + (a[1..] + Split(s, sep)[0]) == a + Split(s, sep)[0];
    }
  }

  lemma {:induction false} SplitJoin(parts: seq<string>, sep: char)
    requires |parts| > 0 && Free(parts, sep)
    ensures Split(Join(parts, sep), sep) == parts
  {
    if |parts| == 1 {
      SplitFirst(parts[0], "", sep);
      assert parts[0] + "" == parts[0];
    } else {
      var rest := Join(parts[1..], sep);
      SplitJoin(parts[1..], sep);
      assert parts[0] + [sep] + rest == parts[0] + ([sep] + rest);
      assert ([sep] + rest)[1..] == rest;
      SplitFirst(parts[0], [sep] + rest, sep);
      assert parts[0] + "" == parts[0];
    }
  }

  lemma {:induction false} SplitIsFree(s: string, sep: char)
    ensures Free(Split(s, sep), sep) && Join(Split(s, sep), sep) == s
  {
    if s != "" {
      SplitIsFree(s[1..], sep);
      var rest, all := Split(s[1..], sep), Split(s, sep);
      if s[0] == sep {
        assert all[1..] == rest;
      } else if |rest| > 1 {
        assert all[1..] == rest[1..];
        assert Join(all, sep) == [s[0]] + rest[0] + [sep] + Join(rest[1..], sep) == [s[0]] + s[1..];
      }
    }
  }

  lemma {:induction false} OnePiece(s: string, sep: char)
    requires sep !in s
    ensures Split(s, sep) == [s]
  {
    SplitFirst(s, "", sep);
    assert s + "" == s;
  }

  lemma {:induction false} JoinConcat(xs: seq<string>, ys: seq<string>, sep: char)
    requires |xs| > 0 && |ys| > 0
    ensures Join(xs + ys, sep) == Join(xs, sep) + [sep] + Join(ys, sep)
  {
    assert (xs + ys)[0] == xs[0] && (xs + ys)[1..] == xs[1..] + ys;
    if |xs| == 1 {
      assert xs[1..] + ys == ys;
    } else {
      JoinConcat(xs[1..], ys, sep);
      Assoc(xs[0] + [sep], Join(xs[1..], sep), [sep] + Join(ys, sep));
      Assoc(Join(xs[1..], sep), [sep], Join(ys, sep));
      Assoc(xs[0] + [sep] + Join(xs[1..], sep), [sep], Join(ys, sep));
    }
  }

  /** Splitting at one separator splits both sides of it. */
  lemma {:induction false} SplitConcat(x: string, y: string, sep: char)
    ensures Split(x + [sep] + y, sep) == Split(x, sep) + Split(y, sep)
  {
    SplitIsFree(x, sep);
    SplitIsFree(y, sep);
    JoinConcat(Split(x, sep), Split(y, sep), sep);
    SplitJoin(Split(x, sep) + Split(y, sep), sep);
  }

  // ----- `str::lines` -----

  function WithoutCr(line: string): string {
    if line != "" && line[|line| - 1] == '\r' then line[..|line| - 1] else line
  }

  /** A line loses one carriage return at its end, and nothing else. */
  lemma WithoutCrMeans(line: string)
    ensures WithoutCr(line + "\r") == line
    ensures !(exists x :: line == x + "\r") ==> WithoutCr(line) == line
  {
    assert (line + "\r")[..|line|] == line;
    if line != "" && line[|line| - 1] == '\r' { assert line == line[..|line| - 1] + "\r"; }
  }

  function LinesOf(ps: seq<string>): seq<string>
    requires |ps| > 0
  {
    var n := |ps| - 1;
    seq(n, i requires 0 <= i < n => WithoutCr(ps[i])) + (if ps[n] == "" then [] else [ps[n]])
  }

  /** Newline-terminated lines lose a trailing carriage return; an unterminated last line keeps it. */
  function TextLines(s: string): seq<string> { LinesOf(Split(s, '\n')) }

  /** Every line followed by a newline. */
  function Terminated(ls: seq<string>): string {
    if ls == [] then "" else ls[0] + ['\n'] + Terminated(ls[1..])
  }

  lemma {:induction false} TerminatedIsJoin(ls: seq<string>)
    ensures Terminated(ls) == Join(ls + [""], '\n')
  {
    if ls != [] {
      TerminatedIsJoin(ls[1..]);
      assert (ls + [""])[1..] == ls[1..] + [""];
    }
  }

  lemma LinesOfPieces(ls: seq<string>, last: string)
    requires forall i :: 0 <= i < |ls| ==> WithoutCr(ls[i]) == ls[i]
    ensures LinesOf(ls + [last]) == ls + (if last == "" then [] else [last])
  {
    var ps := ls + [last];
    assert ps[|ls|] == last;
    assert forall i :: 0 <= i < |ls| ==> WithoutCr(ps[i]) == ls[i];
    assert seq(|ls|, i requires 0 <= i < |ls| => WithoutCr(ps[i])) == ls;
  }

  /** Writing lines and reading them back. */
  lemma {:induction false} LinesRoundTrip(ls: seq<string>)
    requires Free(ls, '\n') && forall i :: 0 <= i < |ls| ==> WithoutCr(ls[i]) == ls[i]
    ensures TextLines(Terminated(ls)) == ls
  {
    TerminatedIsJoin(ls);
    assert Free(ls + [""], '\n');
    SplitJoin(ls + [""], '\n');
    LinesOfPieces(ls, "");
  }

  lemma {:induction false} TerminatedConcat(x: seq<string>, y: seq<string>)
    ensures Terminated(x + y) == Terminated(x) + Terminated(y)
  {
    if x == [] {
      assert x + y == y;
    } else {
      TerminatedConcat(x[1..], y);
      assert (x + y)[0] == x[0] && (x + y)[1..] == x[1..] + y;
      Assoc(x[0] + ['\n'], Terminated(x[1..]), Terminated(y));
    }
  }

  // ----- trimming -----

  function TrimStart(space: char -> bool, s: string): string {
    if s != "" && space(s[0]) then TrimStart(space, s[1..]) else s
  }

  function TrimEnd(space: char -> bool, s: string): string {
    if s != "" && space(s[|s| - 1]) then TrimEnd(space, s[..|s| - 1]) else s
  }

  function Trim(space: char -> bool, s: string): string { TrimEnd(space, TrimStart(space, s)) }

  predicate EndsWith(s: string, suffix: string) {
    |suffix| <= |s| && s[|s| - |suffix|..] == suffix
  }

  lemma {:induction false} TrimEndLaws(space: char -> bool, s: string)
    ensures TrimEnd(space, s) <= s
    ensures TrimEnd(space, s) != "" ==> !space(TrimEnd(space, s)[|TrimEnd(space, s)| - 1])
    ensures TrimEnd(space, s) != s ==> space(s[|s| - 1])
    ensures forall i :: 0 <= i < |s| && !space(s[i]) ==> i < |TrimEnd(space, s)|
  {
    if s != "" && space(s[|s| - 1]) { TrimEndLaws(space, s[..|s| - 1]); }
  }

  lemma {:induction false} TrimEndOfConcat(space: char -> bool, a: string, v: string)
    ensures TrimEnd(space, a + v) == if TrimEnd(space, v) == "" then TrimEnd(space, a) else a + TrimEnd(space, v)
  {
    if v == "" {
      assert a + v == a;
    } else if space(v[|v| - 1]) {
      assert (a + v)[..|a + v| - 1] == a + v[..|v| - 1];
      TrimEndOfConcat(space, a, v[..|v| - 1]);
    }
  }

  lemma {:induction false} TrimStartStopsAt(space: char -> bool, p: string, c: char, y: string) returns (q: string)
    requires !space(c)
    ensures TrimStart(space, p + [c] + y) == q + [c] + y
  {
    if p != "" && space(p[0]) {
      assert (p + [c] + y)[1..] == p[1..] + [c] + y;
      q := TrimStartStopsAt(space, p[1..], c, y);
    } else {
      q := p;
      assert p == "" ==> (p + [c] + y)[0] == c;
    }
  }

  // ----- finding -----

  /** Index of the first occurrence of `pat`. */
  function Find(s: string, pat: string): Option<nat> {
    if pat <= s then Some(0)
    else if s == "" then None
    else match Find(s[1..], pat)
      case Some(i) => Some(i + 1)
      case None => None
  }

  lemma {:induction false} FindIsFirst(s: string, pat: string)
    ensures Find(s, pat).Some? ==> Find(s, pat).value <= |s| && pat <= s[Find(s, pat).value..]
  {
    if !(pat <= s) && s != "" { FindIsFirst(s[1..], pat); }
  }
}
