/** The paths a `git status --porcelain` listing names: two parsers that split a rename at different arrows. */
module DirtyPaths {
  import opened Wrappers
  import opened Lines

  const ARROW: string := " -> "

  const QUOTE: char -> bool := (c: char) => c == '"'

  function Unquote(s: string): string { Trim(QUOTE, s) }

  /** What follows the last arrow; the whole text when there is none. */
  function AfterLast(s: string): string {
    if s == "" then ""
    else if Find(s[1..], ARROW).Some? then AfterLast(s[1..])
    else if ARROW <= s then s[|ARROW|..] else s
  }

  /** What follows the first arrow; the whole text when there is none. */
  function AfterFirst(s: string): string {
    FindIsFirst(s, ARROW);
    match Find(s, ARROW)
    case Some(i) => s[i + |ARROW|..]
    case None => s
  }

  // ----- the two readings of one line -----

  /** Behind the status columns: after the last arrow, trimmed, unquoted; nothing when that is empty. */
  function ByLastArrow(space: char -> bool, line: string): Option<string> {
    if |line| < 4 then None
    else
      var path := Unquote(Trim(space, AfterLast(line[3..])));
      if path == "" then None else Some(path)
  }

  function Behind(line: string): string { if |line| >= 3 then line[3..] else "" }

  /** Trimmed first, then after the first arrow; nothing only when that is empty before unquoting. */
  function ByFirstArrow(space: char -> bool, line: string): Option<string> {
    var p := AfterFirst(Trim(space, Behind(line)));
    if p == "" then None else Some(Unquote(Trim(space, p)))
  }

  function PathsOf(read: string -> Option<string>, lines: seq<string>): set<string> {
    set i | 0 <= i < |lines| && read(lines[i]).Some? :: read(lines[i]).value
  }

  lemma PathsOneMore(read: string -> Option<string>, lines: seq<string>, i: nat)
    requires i < |lines|
    ensures PathsOf(read, lines[..i + 1])
            == PathsOf(read, lines[..i]) + (if read(lines[i]).Some? then {read(lines[i]).value} else {})
  {
    var now := lines[..i + 1];
    assert now[i] == lines[i] && forall j :: 0 <= j < i ==> now[j] == lines[..i][j];
  }

  /** The loop over the listing. */
  method ParseDirty(space: char -> bool, lines: seq<string>) returns (paths: set<string>)
    ensures paths == PathsOf(line => ByFirstArrow(space, line), lines)
  {
    paths := {};
    for i := 0 to |lines|
      invariant paths == PathsOf(line => ByFirstArrow(space, line), lines[..i])
    {
      PathsOneMore(line => ByFirstArrow(space, line), lines, i);
      var p := Trim(space, Behind(lines[i]));
      if Find(p, ARROW).Some? { p := AfterFirst(p); }
      if p != "" { paths := paths + {Unquote(Trim(space, p))}; }
    }
    assert lines[..|lines|] == lines;
  }

  // ----- where the arrows are -----

  lemma {:induction false} ArrowIsFound(p: string, t: string)
    requires Find(t, ARROW).Some?
    ensures Find(p + t, ARROW).Some?
  {
    if p == "" {
      assert p + t == t;
    } else {
      assert (p + t)[1..] == p[1..] + t;
      ArrowIsFound(p[1..], t);
    }
  }

  /** The last arrow of a text whose end holds one is in that end. */
  lemma {:induction false} LastArrowInTail(p: string, t: string)
    requires Find(t, ARROW).Some?
    ensures AfterLast(p + t) == AfterLast(t)
  {
    if p == "" {
      assert p + t == t;
    } else {
      assert (p + t)[1..] == p[1..] + t;
      ArrowIsFound(p[1..], t);
      LastArrowInTail(p[1..], t);
    }
  }

  lemma ArrowAhead(y: string)
    ensures Find(ARROW + y, ARROW) == Some(0)
    ensures Find(ARROW[1..] + y, ARROW).Some? <==> Find(" " + y, ARROW).Some?
  {
    assert ARROW <= ARROW + y;
    var s := ARROW[1..] + y;
    assert s[0] == '-' && s[1] == '>' && s[1..][1..] == " " + y && s[1..][0] == '>';
  }

  /** An arrow that no other follows, or overlaps, is the last. */
  lemma ArrowIsLast(x: string, y: string)
    requires Find(" " + y, ARROW).None?
    ensures AfterLast(x + ARROW + y) == y
  {
    ArrowAhead(y);
    assert x + ARROW + y == x + (ARROW + y);
    LastArrowInTail(x, ARROW + y);
    assert (ARROW + y)[1..] == ARROW[1..] + y;
    assert ARROW <= ARROW + y && (ARROW + y)[|ARROW|..] == y;
  }

  lemma LaterArrowIsLast(x: string, y: string)
    requires Find(" " + y, ARROW).Some?
    ensures AfterLast(x + ARROW + y) == AfterLast(" " + y)
  {
    var p := x + " ->";
    assert x + ARROW + y == p + (" " + y);
    LastArrowInTail(p, " " + y);
  }

  /** What follows the last arrow is the end of the text, right behind it. */
  lemma {:induction false} LastArrowSplits(s: string) returns (w: string)
    requires Find(s, ARROW).Some?
    ensures s == w + ARROW + AfterLast(s)
  {
    if Find(s[1..], ARROW).Some? {
      w := LastArrowSplits(s[1..]);
      w := [s[0]] + w;
      assert s == [s[0]] + s[1..];
    } else {
      w := "";
    }
  }

  lemma ArrowAtFront(x: string, y: string)
    requires x != "" && x[|x| - 1] != ' '
    ensures ARROW <= x + ARROW + y <==> ARROW <= x + " "
  {
    var all := x + ARROW + y;
    assert all[0] == x[0];
    assert |x| == 2 ==> all[2] == ' ';
    assert |x| >= 3 ==> all[..4] == (x + " ")[..4];
    assert |x| == 2 ==> (x + " ")[2] == ' ';
  }

  /** An arrow that none comes before, or overlaps, is the first; otherwise an earlier one is. */
  lemma {:induction false} FirstArrowIs(x: string, y: string)
    requires x != "" ==> x[|x| - 1] != ' '
    ensures Find(x + ARROW + y, ARROW) == if Find(x + " ", ARROW).None? then Some(|x|) else Find(x + " ", ARROW)
  {
    var all := x + ARROW + y;
    if x == "" {
      assert all == ARROW + y;
      ArrowAhead(y);
      assert "" + " " == " " && Find(" ", ARROW) == None;
    } else {
      assert all[1..] == x[1..] + ARROW + y && (x + " ")[1..] == x[1..] + " ";
      ArrowAtFront(x, y);
      FirstArrowIs(x[1..], y);
    }
  }

  // ----- trimming and unquoting -----

  /** Nothing to trim at either end. */
  predicate Solid(space: char -> bool, s: string) { s != "" && !space(s[0]) && !space(s[|s| - 1]) }

  lemma SolidStays(space: char -> bool, s: string)
    requires Solid(space, s)
    ensures Trim(space, s) == s
  {
  }

  lemma {:induction false} TrimStartIsSuffix(space: char -> bool, v: string) returns (b: string)
    ensures v == b + TrimStart(space, v) && forall c :: c in b ==> space(c)
  {
    if v != "" && space(v[0]) {
      var rest := TrimStartIsSuffix(space, v[1..]);
      b := [v[0]] + rest;
      assert v == [v[0]] + v[1..];
      Assoc([v[0]], rest, TrimStart(space, v[1..]));
    } else {
      b := "";
    }
  }

  /** More text in front, ending in a character that stays, leaves more after trimming. */
  lemma TrimOfLonger(space: char -> bool, p: string, c: char, v: string)
    requires !space(c)
    ensures |Trim(space, p + [c] + v)| > |Trim(space, v)|
  {
    var q := TrimStartStopsAt(space, p, c, v);
    TrimEndOfConcat(space, q + [c], v);
    var b := TrimStartIsSuffix(space, v);
    TrimEndOfConcat(space, b, TrimStart(space, v));
    TrimEndLaws(space, q + [c]);
  }

  ghost predicate Usual(space: char -> bool) { space(' ') && !space('>') && forall c :: space(c) ==> !QUOTE(c) }

  /** A solid text's end, trimmed, keeps its last character. */
  lemma TrimOfEnd(space: char -> bool, a: string, v: string) returns (b: string)
    requires v != "" && !space(v[|v| - 1])
    ensures v == b + Trim(space, v) && forall c :: c in b ==> space(c)
  {
    b := TrimStartIsSuffix(space, v);
    assert TrimStart(space, v) != "" by { assert v[|v| - 1] !in b || TrimStart(space, v) != ""; }
  }

  // ----- exactly when the two name the same path -----

  /** No arrow overlaps or follows the separating one. */
  predicate LastOne(y: string) { Find(" " + y, ARROW).None? }

  /** No arrow overlaps or precedes it. */
  predicate FirstOne(x: string) { Find(x + " ", ARROW).None? }

  lemma EndOfSolid(space: char -> bool, y: string, w: string, v: string)
    requires Usual(space) && Solid(space, y) && " " + y == w + ARROW + v
    ensures v != "" && v[|v| - 1] == y[|y| - 1]
  {
    assert (" " + y)[|y|] == y[|y| - 1];
    assert (w + ARROW + v)[|w| + 3] == ' ';
  }

  lemma BlankBefore(space: char -> bool, y: string, w: string, b: string, t: string)
    requires Usual(space) && " " + y == w + ARROW + (b + t) && forall c :: c in b ==> space(c)
    ensures |Unquote(t)| < |Unquote(y)|
  {
    var front := w + ARROW + b;
    var c := front[|front| - 1];
    assert (w + ARROW)[|w| + 3] == ' ';
    assert b == "" ==> front == w + ARROW;
    Assoc(w + ARROW, b, t);
    assert (" " + y)[1..] == y && (front + t)[1..] == front[1..] + t;
    assert front[1..] == front[1..|front| - 1] + [c];
    TrimOfLonger(QUOTE, front[1..|front| - 1], c, t);
  }

  /** The reading by the last arrow names the new path, or less than it. */
  lemma LastReading(space: char -> bool, x: string, y: string)
    requires Usual(space) && Solid(space, y)
    ensures LastOne(y) ==> Trim(space, AfterLast(x + ARROW + y)) == y
    ensures !LastOne(y) ==> |Unquote(Trim(space, AfterLast(x + ARROW + y)))| < |Unquote(y)|
  {
    if LastOne(y) {
      ArrowIsLast(x, y);
      SolidStays(space, y);
    } else {
      LaterArrowIsLast(x, y);
      var v := AfterLast(" " + y);
      var w := LastArrowSplits(" " + y);
      EndOfSolid(space, y, w, v);
      var b := TrimOfEnd(space, w, v);
      BlankBefore(space, y, w, b, Trim(space, v));
    }
  }

  lemma LongerReading(space: char -> bool, p: string, y: string)
    requires Usual(space) && Solid(space, y)
    ensures |Unquote(Trim(space, p + ['>'] + (" " + y)))| > |Unquote(y)|
  {
    var q := TrimStartStopsAt(space, p, '>', " " + y);
    var r := q + ['>'] + (" " + y);
    assert r[|r| - 1] == y[|y| - 1];
    assert Trim(space, p + ['>'] + (" " + y)) == r;
    assert r == (q + ['>']) + [' '] + y;
    TrimOfLonger(QUOTE, q + ['>'], ' ', y);
  }

  lemma TailOfConcat(a: string, b: string, k: nat)
    requires k <= |a|
    ensures (a + b)[k..] == a[k..] + b
  {
  }

  lemma OtherGrouping(x: string, z: string, y: string)
    ensures x + ARROW + y == (x + " ") + ("-> " + y)
    ensures z + ("-> " + y) == (z + "-") + ['>'] + (" " + y)
  {
  }

  /** An earlier arrow leaves the separating one in the text behind it. */
  lemma EarlierArrow(x: string, y: string) returns (p: string)
    requires Find(x + " ", ARROW).Some? && (x != "" ==> x[|x| - 1] != ' ')
    ensures AfterFirst(x + ARROW + y) == p + ['>'] + (" " + y)
  {
    FirstArrowIs(x, y);
    var i := Find(x + " ", ARROW).value;
    FindIsFirst(x + " ", ARROW);
    var z := (x + " ")[i + |ARROW|..];
    OtherGrouping(x, z, y);
    TailOfConcat(x + " ", "-> " + y, i + |ARROW|);
    p := z + "-";
  }

  lemma RenameIsSolid(space: char -> bool, x: string, y: string)
    requires Solid(space, x) && Solid(space, y)
    ensures Solid(space, x + ARROW + y)
  {
    var all := x + ARROW + y;
    assert all[0] == x[0] && all[|all| - 1] == y[|y| - 1];
  }

  /** The reading by the first arrow names the new path, or more than it. */
  lemma FirstReading(space: char -> bool, x: string, y: string)
    requires Usual(space) && Solid(space, x) && Solid(space, y)
    ensures FirstOne(x) ==> AfterFirst(x + ARROW + y) == y
    ensures !FirstOne(x) ==> AfterFirst(x + ARROW + y) != ""
                             && |Unquote(Trim(space, AfterFirst(x + ARROW + y)))| > |Unquote(y)|
  {
    if FirstOne(x) {
      FirstArrowIs(x, y);
      assert (x + ARROW + y)[|x| + |ARROW|..] == y;
    } else {
      var p := EarlierArrow(x, y);
      LongerReading(space, p, y);
    }
  }

  /**
   * For a rename `x -> y` the two parsers name the same path exactly when no other arrow stands in,
   * or overlaps, either path's side of the separating one and the new path is not all quotes.
   */
  lemma RenamesAgreeIff(space: char -> bool, line: string, x: string, y: string)
    requires Usual(space) && Solid(space, x) && Solid(space, y)
    requires |line| >= 3 && line[3..] == x + ARROW + y
    ensures ByLastArrow(space, line) == ByFirstArrow(space, line) <==> FirstOne(x) && LastOne(y) && Unquote(y) != ""
  {
    LastReading(space, x, y);
    FirstReading(space, x, y);
    RenameIsSolid(space, x, y);
    SolidStays(space, x + ARROW + y);
    SolidStays(space, y);
    assert |line| >= 4;
  }

  lemma {:induction false} NoArrowIsWhole(s: string)
    requires Find(s, ARROW).None?
    ensures AfterLast(s) == s && AfterFirst(s) == s
  {
  }

  lemma {:induction false} FindInMore(t: string, b: string)
    requires Find(t, ARROW).Some?
    ensures Find(t + b, ARROW).Some?
  {
    if ARROW <= t {
      assert ARROW <= t + b;
    } else {
      assert (t + b)[1..] == t[1..] + b;
      FindInMore(t[1..], b);
    }
  }

  lemma {:induction false} PartsHoldNoArrow(a: string, t: string, b: string)
    requires Find(a + t + b, ARROW).None?
    ensures Find(t, ARROW).None?
  {
    if Find(t, ARROW).Some? {
      FindInMore(t, b);
      assert a + t + b == a + (t + b);
      ArrowIsFound(a, t + b);
    }
  }

  lemma {:induction false} StartStays(space: char -> bool, s: string)
    ensures TrimStart(space, s) != "" ==> !space(TrimStart(space, s)[0])
  {
    if s != "" && space(s[0]) { StartStays(space, s[1..]); }
  }

  lemma TrimTwice(space: char -> bool, s: string)
    ensures Trim(space, Trim(space, s)) == Trim(space, s)
  {
    var t := TrimStart(space, s);
    TrimEndLaws(space, t);
    StartStays(space, s);
  }

  lemma TrimmedHoldsNoArrow(space: char -> bool, s: string)
    requires Find(s, ARROW).None?
    ensures Find(Trim(space, s), ARROW).None?
  {
    var t := Trim(space, s);
    var a := TrimStartIsSuffix(space, s);
    TrimEndLaws(space, TrimStart(space, s));
    var b := TrimStart(space, s)[|t|..];
    assert TrimStart(space, s) == t + b;
    Assoc(a, t, b);
    PartsHoldNoArrow(a, t, b);
  }

  /** Without an arrow they agree exactly when the path is blank or not all quotes. */
  lemma PlainLinesAgreeIff(space: char -> bool, line: string)
    requires Find(Behind(line), ARROW).None?
    ensures ByLastArrow(space, line) == ByFirstArrow(space, line)
      <==> Trim(space, Behind(line)) == "" || Unquote(Trim(space, Behind(line))) != ""
  {
    var rest := Behind(line);
    NoArrowIsWhole(rest);
    TrimmedHoldsNoArrow(space, rest);
    NoArrowIsWhole(Trim(space, rest));
    TrimTwice(space, rest);
  }

  // ----- what a line is read as -----

  /** A quoted path loses its quotes and a path without outer quotes is left alone. */
  lemma UnquoteMeans(s: string)
    requires s != "" ==> s[0] != '\"' && s[|s| - 1] != '\"'
    ensures Unquote(s) == s && Unquote("\"" + s + "\"") == s
  {
    var open := s + "\"";
    assert ("\"" + s + "\"")[1..] == open && open[..|s|] == s;
    assert TrimStart(QUOTE, "\"" + s + "\"") == TrimStart(QUOTE, open);
    assert TrimStart(QUOTE, open) == if s == "" then "" else open;
    assert TrimEnd(QUOTE, open) == TrimEnd(QUOTE, s) == s;
  }

  /** Behind two status columns and a blank, a plain path, quoted or not, is read by both as itself. */
  lemma PlainLineReads(space: char -> bool, x: char, y: char, path: string)
    requires Usual(space) && Solid(space, path) && path[0] != '\"' && path[|path| - 1] != '\"' && Find(path, " -> ").None?
    ensures ByLastArrow(space, [x, y, ' '] + path) == Some(path) && ByFirstArrow(space, [x, y, ' '] + path) == Some(path)
  {
    var line := [x, y, ' '] + path;
    assert line[3..] == path;
    UnquoteMeans(path);
    NoArrowIsWhole(path);
    SolidStays(space, path);
  }

  /** A renamed one is read by both as its new path. */
  lemma RenameReads(space: char -> bool, x: char, y: char, from: string, path: string)
    requires Usual(space) && Solid(space, from) && Solid(space, path) && path[0] != '\"' && path[|path| - 1] != '\"'
    requires Find(from + " ", " -> ").None? && Find(" " + path, " -> ").None?
    ensures var line := [x, y, ' '] + (from + " -> " + path);
            ByLastArrow(space, line) == Some(path) && ByFirstArrow(space, line) == Some(path)
  {
    var line := [x, y, ' '] + (from + " -> " + path);
    assert line[3..] == from + ARROW + path;
    UnquoteMeans(path);
    LastReading(space, from, path);
    FirstReading(space, from, path);
    RenameIsSolid(space, from, path);
    SolidStays(space, from + ARROW + path);
    SolidStays(space, path);
  }

  /** A line of three characters or fewer names nothing. */
  lemma ShortLineReads(space: char -> bool, line: string)
    requires |line| <= 3
    ensures ByLastArrow(space, line) == None && ByFirstArrow(space, line) == None
  {
  }
}
