/** Dropping excluded file sections from a diff: the streaming filter, its block-splitting twin, and when they agree. */
module DiffSections {
  import opened Wrappers
  import opened Lines

  const HEADER := "diff --git "

  predicate IsHeader(line: string) { HEADER <= line }

  // ----- which file a header names -----

  /** The part after the last space; the whole text when there is none. */
  function LastToken(s: string): string {
    if s == "" then ""
    else if ' ' in s[1..] then LastToken(s[1..])
    else if s[0] == ' ' then s[1..] else s
  }

  /** The streaming filter's target: the last token, without its `b/`. */
  function LastTokenTarget(line: string): Option<string> {
    if !IsHeader(line) then None
    else
      var token := LastToken(line[|HEADER|..]);
      if "b/" <= token then Some(token[2..]) else None
  }

  const A_SIDE := "diff --git a/"

  /** The block splitter's target: everything after the first ` b/`, trimmed. */
  function FirstSideTarget(space: char -> bool, line: string): Option<string> {
    if !(A_SIDE <= line) then None
    else
      FindIsFirst(line[|A_SIDE|..], " b/");
      match Find(line[|A_SIDE|..], " b/")
      case Some(i) => Some(Trim(space, line[|A_SIDE|..][i + 3..]))
      case None => None
  }

  // ----- the filter as a function -----

  type Target = string -> Option<string>

  predicate Kept(target: Target, header: string, exclude: set<string>) {
    target(header).None? || target(header).value !in exclude
  }

  /** Lines that survive, reading with `keep` as the fate of the current section. */
  function StripFrom(target: Target, lines: seq<string>, exclude: set<string>, keep: bool): seq<string> {
    if lines == [] then []
    else
      var now := if IsHeader(lines[0]) then Kept(target, lines[0], exclude) else keep;
      (if now then [lines[0]] else []) + StripFrom(target, lines[1..], exclude, now)
  }

  function StripSections(target: Target, lines: seq<string>, exclude: set<string>): seq<string> {
    StripFrom(target, lines, exclude, true)
  }

  lemma {:induction false} PlainLinesStay(target: Target, lines: seq<string>, exclude: set<string>)
    requires forall i :: 0 <= i < |lines| ==> !IsHeader(lines[i])
    ensures StripFrom(target, lines, exclude, true) == lines
  {
    if lines != [] {
      PlainLinesStay(target, lines[1..], exclude);
      assert lines == [lines[0]] + lines[1..];
    }
  }

  /** The section of a header that names no file survives every exclusion. */
  lemma NamelessSectionStays(target: Target, rest: string, body: seq<string>, exclude: set<string>)
    requires target("diff --git " + rest) == None && forall i :: 0 <= i < |body| ==> !("diff --git " <= body[i])
    ensures StripSections(target, ["diff --git " + rest] + body, exclude) == ["diff --git " + rest] + body
  {
    var lines := ["diff --git " + rest] + body;
    assert IsHeader(lines[0]) && lines[1..] == body;
    PlainLinesStay(target, body, exclude);
  }

  // ----- the streaming loop -----

  /** One more line, with the fate it gives its section. */
  lemma StripUnfolds(target: Target, lines: seq<string>, exclude: set<string>, keep: bool, i: nat, out: seq<string>)
    requires i < |lines|
    ensures var now := if IsHeader(lines[i]) then Kept(target, lines[i], exclude) else keep;
            out + StripFrom(target, lines[i..], exclude, keep)
            == (if now then out + [lines[i]] else out) + StripFrom(target, lines[i + 1..], exclude, now)
  {
    assert lines[i..][1..] == lines[i + 1..];
    var now := if IsHeader(lines[i]) then Kept(target, lines[i], exclude) else keep;
    Assoc(out, if now then [lines[i]] else [], StripFrom(target, lines[i + 1..], exclude, now));
    assert out + [] == out;
  }

  lemma {:induction false} ExcludeNothing(target: Target, lines: seq<string>)
    ensures StripSections(target, lines, {}) == lines
  {
    if lines != [] {
      ExcludeNothing(target, lines[1..]);
      assert lines == [lines[0]] + lines[1..];
    }
  }

  method StripStreaming(lines: seq<string>, exclude: set<string>) returns (out: seq<string>)
    ensures out == StripSections(LastTokenTarget, lines, exclude)
  {
    if exclude == {} {
      ExcludeNothing(LastTokenTarget, lines);
      return lines;
    }
    out := [];
    var keep := true;
    for i := 0 to |lines|
      invariant out + StripFrom(LastTokenTarget, lines[i..], exclude, keep) == StripSections(LastTokenTarget, lines, exclude)
    {
      StripUnfolds(LastTokenTarget, lines, exclude, keep, i, out);
      if IsHeader(lines[i]) {
        keep := match LastTokenTarget(lines[i])
          case Some(path) => path !in exclude
          case None => true;
      }
      if keep { out := out + [lines[i]]; }
    }
  }

  // ----- the block splitter -----

  function Flat(blocks: seq<seq<string>>): seq<string> {
    if blocks == [] then [] else blocks[0] + Flat(blocks[1..])
  }

  /** A section: a first line, then lines that are no headers. */
  predicate Section(block: seq<string>) {
    block != [] && forall i :: 1 <= i < |block| ==> !IsHeader(block[i])
  }

  /** Sections whose first line is not an excluded header, flattened. */
  function KeptBlocks(target: Target, blocks: seq<seq<string>>, exclude: set<string>): seq<string>
    requires forall i :: 0 <= i < |blocks| ==> blocks[i] != []
  {
    if blocks == [] then []
    else (if !IsHeader(blocks[0][0]) || Kept(target, blocks[0][0], exclude) then blocks[0] else [])
         + KeptBlocks(target, blocks[1..], exclude)
  }

  /** The sections of a diff: each header opens one; lines before the first header form one of their own. */
  ghost predicate SectionsOf(lines: seq<string>, blocks: seq<seq<string>>) {
    && Flat(blocks) == lines
    && (forall i :: 0 <= i < |blocks| ==> Section(blocks[i]))
    && (forall i :: 1 <= i < |blocks| ==> IsHeader(blocks[i][0]))
  }

  lemma {:induction false} FlatConcat(x: seq<seq<string>>, y: seq<seq<string>>)
    ensures Flat(x + y) == Flat(x) + Flat(y)
  {
    if x == [] {
      assert x + y == y;
    } else {
      FlatConcat(x[1..], y);
      assert (x + y)[1..] == x[1..] + y;
      Assoc(x[0], Flat(x[1..]), Flat(y));
    }
  }

  lemma FlatOneMore(blocks: seq<seq<string>>, block: seq<string>)
    ensures Flat(blocks + [block]) == Flat(blocks) + block
  {
    FlatConcat(blocks, [block]);
    assert [block][1..] == [] && Flat([block]) == block + [] == block;
  }

  method SplitSections(lines: seq<string>) returns (blocks: seq<seq<string>>)
    ensures SectionsOf(lines, blocks)
  {
    blocks := [];
    var cur: seq<string> := [];
    for i := 0 to |lines|
      invariant Flat(blocks) + cur == lines[..i]
      invariant cur == [] ==> blocks == []
      invariant cur != [] ==> Section(cur)
      invariant forall j :: 0 <= j < |blocks| ==> Section(blocks[j])
      invariant forall j :: 1 <= j < |blocks| ==> IsHeader(blocks[j][0])
      invariant blocks != [] ==> IsHeader(cur[0])
    {
      assert lines[..i + 1] == lines[..i] + [lines[i]];
      if IsHeader(lines[i]) {
        if cur != [] {
          FlatOneMore(blocks, cur);
          blocks := blocks + [cur];
        }
        cur := [lines[i]];
      } else {
        Assoc(Flat(blocks), cur, [lines[i]]);
        cur := cur + [lines[i]];
      }
    }
    assert lines[..|lines|] == lines;
    if cur != [] {
      FlatOneMore(blocks, cur);
      blocks := blocks + [cur];
    }
  }

  method KeepBlocks(target: Target, blocks: seq<seq<string>>, exclude: set<string>) returns (out: seq<string>)
    requires forall i :: 0 <= i < |blocks| ==> blocks[i] != [] && (target(blocks[i][0]).Some? ==> IsHeader(blocks[i][0]))
    ensures out == KeptBlocks(target, blocks, exclude)
  {
    out := [];
    for i := 0 to |blocks|
      invariant out + KeptBlocks(target, blocks[i..], exclude) == KeptBlocks(target, blocks, exclude)
    {
      var blk := blocks[i];
      assert blocks[i..][1..] == blocks[i + 1..];
      var path := target(blk[0]);
      if !(path.Some? && path.value in exclude) {
        Assoc(out, blk, KeptBlocks(target, blocks[i + 1..], exclude));
        out := out + blk;
      }
    }
  }

  lemma ASideIsHeader(line: string)
    requires A_SIDE <= line
    ensures IsHeader(line)
  {
    assert HEADER == A_SIDE[..|HEADER|] && line[..|A_SIDE|] == A_SIDE;
    assert line[..|HEADER|] == line[..|A_SIDE|][..|HEADER|];
  }

  lemma {:induction false} StripOneSection(target: Target, body: seq<string>, rest: seq<string>, exclude: set<string>, keep: bool)
    requires forall i :: 0 <= i < |body| ==> !IsHeader(body[i])
    ensures StripFrom(target, body + rest, exclude, keep) == (if keep then body else []) + StripFrom(target, rest, exclude, keep)
  {
    if body == [] {
      assert body + rest == rest;
    } else {
      assert (body + rest)[0] == body[0] && (body + rest)[1..] == body[1..] + rest;
      StripOneSection(target, body[1..], rest, exclude, keep);
      assert body == [body[0]] + body[1..];
      Assoc([body[0]], body[1..], StripFrom(target, rest, exclude, keep));
    }
  }

  /** The fate of the section before a header does not reach past it. */
  lemma HeaderResets(target: Target, lines: seq<string>, exclude: set<string>, k: bool, k': bool)
    requires lines == [] || IsHeader(lines[0])
    ensures StripFrom(target, lines, exclude, k) == StripFrom(target, lines, exclude, k')
  {
  }

  /** The keep-flag loop outputs exactly the sections whose target is not excluded. */
  lemma {:induction false} BlocksEqualStream(target: Target, blocks: seq<seq<string>>, exclude: set<string>)
    requires SectionsOf(Flat(blocks), blocks)
    ensures KeptBlocks(target, blocks, exclude) == StripSections(target, Flat(blocks), exclude)
    decreases |blocks|
  {
    if blocks != [] {
      var first, rest := blocks[0], Flat(blocks[1..]);
      BlocksEqualStream(target, blocks[1..], exclude);
      assert |blocks| > 1 ==> rest[0] == blocks[1][0] && blocks[1..][0] == blocks[1];
      var kept := !IsHeader(first[0]) || Kept(target, first[0], exclude);
      assert first == [first[0]] + first[1..];
      assert (first + rest)[0] == first[0] && (first + rest)[1..] == first[1..] + rest;
      StripOneSection(target, first[1..], rest, exclude, kept);
      HeaderResets(target, rest, exclude, kept, true);
      Assoc([first[0]], first[1..], StripFrom(target, rest, exclude, true));
    }
  }

  function FirstSide(space: char -> bool): Target { line => FirstSideTarget(space, line) }

  method StripBlocks(space: char -> bool, lines: seq<string>, exclude: set<string>) returns (out: seq<string>)
    ensures out == StripSections(FirstSide(space), lines, exclude)
  {
    ghost var target := FirstSide(space);
    if exclude == {} {
      ExcludeNothing(target, lines);
      return lines;
    }
    var blocks := SplitSections(lines);
    forall i | 0 <= i < |blocks| && FirstSideTarget(space, blocks[i][0]).Some? ensures IsHeader(blocks[i][0]) {
      ASideIsHeader(blocks[i][0]);
    }
    out := KeepBlocks(FirstSide(space), blocks, exclude);
    BlocksEqualStream(target, blocks, exclude);
  }

  // ----- laws -----

  /** Stripping twice is stripping the union. */
  lemma {:induction false} StripTwice(target: Target, lines: seq<string>, a: set<string>, b: set<string>, ka: bool, kb: bool)
    ensures StripFrom(target, StripFrom(target, lines, a, ka), b, kb) == StripFrom(target, lines, a + b, ka && kb)
  {
    if lines != [] {
      var line := lines[0];
      var now := if IsHeader(line) then Kept(target, line, a) else ka;
      var rest := StripFrom(target, lines[1..], a, now);
      if now {
        StripTwice(target, lines[1..], a, b, now, if IsHeader(line) then Kept(target, line, b) else kb);
        assert ([line] + rest)[1..] == rest;
      } else {
        StripTwice(target, lines[1..], a, b, false, kb);
        assert [] + rest == rest;
      }
    }
  }

  lemma StripComposes(target: Target, lines: seq<string>, a: set<string>, b: set<string>)
    ensures StripSections(target, StripSections(target, lines, a), b) == StripSections(target, lines, a + b)
    ensures StripSections(target, StripSections(target, lines, a), a) == StripSections(target, lines, a)
  {
    StripTwice(target, lines, a, b, true, true);
    StripTwice(target, lines, a, a, true, true);
    assert a + a == a;
  }

  /** A header line survives exactly when its target is not excluded. */
  lemma {:induction false} HeaderSurvives(target: Target, lines: seq<string>, exclude: set<string>, keep: bool, h: string)
    requires IsHeader(h)
    ensures h in StripFrom(target, lines, exclude, keep) <==> h in lines && Kept(target, h, exclude)
  {
    if lines != [] {
      var now := if IsHeader(lines[0]) then Kept(target, lines[0], exclude) else keep;
      HeaderSurvives(target, lines[1..], exclude, now, h);
      assert lines == [lines[0]] + lines[1..];
    }
  }

  lemma {:induction false} SameTargetsSameStrip(t: Target, u: Target, lines: seq<string>, exclude: set<string>, keep: bool)
    requires forall h :: h in lines && IsHeader(h) ==> t(h) == u(h)
    ensures StripFrom(t, lines, exclude, keep) == StripFrom(u, lines, exclude, keep)
  {
    if lines != [] {
      assert lines[0] in lines;
      var now := if IsHeader(lines[0]) then Kept(t, lines[0], exclude) else keep;
      SameTargetsSameStrip(t, u, lines[1..], exclude, now);
    }
  }

  ghost predicate AgreeOn(t: Target, u: Target, lines: seq<string>) {
    forall exclude :: StripSections(t, lines, exclude) == StripSections(u, lines, exclude)
  }

  /** The two filters agree on a diff, whatever is excluded, exactly when they name the same file for each of its headers. */
  lemma FiltersAgreeIff(t: Target, u: Target, lines: seq<string>)
    ensures AgreeOn(t, u, lines) <==> forall h :: h in lines && IsHeader(h) ==> t(h) == u(h)
  {
    if AgreeOn(t, u, lines) {
      forall h | h in lines && IsHeader(h) ensures t(h) == u(h) {
        var x := if t(h).Some? then t(h).value else if u(h).Some? then u(h).value else "";
        assert StripSections(t, lines, {x}) == StripSections(u, lines, {x});
        HeaderSurvives(t, lines, {x}, true, h);
        HeaderSurvives(u, lines, {x}, true, h);
      }
    }
    if forall h :: h in lines && IsHeader(h) ==> t(h) == u(h) {
      forall exclude ensures StripSections(t, lines, exclude) == StripSections(u, lines, exclude) {
        SameTargetsSameStrip(t, u, lines, exclude, true);
      }
    }
  }

  function GitHeader(x: string, y: string): string { A_SIDE + x + " b/" + y }

  /** The last token holds no space, and is the whole text or stands behind one. */
  lemma {:induction false} LastTokenIsThere(s: string)
    ensures ' ' !in LastToken(s) && (s == LastToken(s) || exists p :: s == p + " " + LastToken(s))
  {
    if s != "" {
      LastTokenIsThere(s[1..]);
      assert s == [s[0]] + s[1..];
      if ' ' in s[1..] {
        if p :| s[1..] == p + " " + LastToken(s) { assert s == ([s[0]] + p) + " " + LastToken(s); }
      } else if s[0] == ' ' {
        assert s == "" + " " + s[1..];
      }
    }
  }

  lemma {:induction false} LastTokenAfter(s: string, t: string)
    requires ' ' !in t
    ensures LastToken(s + [' '] + t) == t
  {
    var all := s + [' '] + t;
    if s == "" {
      assert all[1..] == t;
    } else {
      assert all[1..] == s[1..] + [' '] + t;
      assert (s[1..] + [' '] + t)[|s| - 1] == ' ';
      LastTokenAfter(s[1..], t);
    }
  }

  const B_SIDE := " b/"

  lemma NoOverlap(x: string, y: string)
    requires x != "" && !(B_SIDE <= x)
    ensures !(B_SIDE <= x + B_SIDE + y)
  {
    var all := x + B_SIDE + y;
    assert |x| == 1 ==> all[1] == ' ';
    assert |x| == 2 ==> all[2] == ' ';
    assert |x| >= 3 ==> x[..3] == all[..3];
  }

  /** The separator is found behind a text that does not hold it, and inside one that does. */
  lemma {:induction false} FindBSide(x: string, y: string)
    ensures Find(x + B_SIDE + y, B_SIDE) == if Find(x, B_SIDE).None? then Some(|x|) else Find(x, B_SIDE)
  {
    var all := x + B_SIDE + y;
    if x == "" {
      assert all == B_SIDE + y;
    } else if B_SIDE <= x {
      assert all[..3] == x[..3] == B_SIDE;
    } else {
      assert all[0] == x[0] && all[1..] == x[1..] + B_SIDE + y;
      NoOverlap(x, y);
      FindBSide(x[1..], y);
    }
  }

  lemma {:induction false} SpacelessHasNoBSide(x: string)
    requires ' ' !in x
    ensures Find(x, B_SIDE).None?
  {
    if x != "" {
      assert x[0] in x;
      SpacelessHasNoBSide(x[1..]);
    }
  }

  /** A text that goes on before `y` with a character that is no blank never trims down to `y`. */
  lemma NeverTrimsToTail(space: char -> bool, p: string, c: char, y: string)
    requires !space(c)
    ensures Trim(space, p + [c] + y) != y
  {
    var q := TrimStartStopsAt(space, p, c, y);
    var s := q + [c] + y;
    TrimEndLaws(space, s);
    var r := TrimEnd(space, s);
    assert s[|q|] == c && |q| < |r|;
    assert y != "" ==> s[|s| - 1] == y[|y| - 1];
  }

  // ----- exactly when each filter names the new path -----

  lemma {:induction false} AtLastSpace(y: string) returns (u: string, v: string)
    requires ' ' in y
    ensures y == u + [' '] + v && ' ' !in v
  {
    if ' ' in y[1..] {
      u, v := AtLastSpace(y[1..]);
      u := [y[0]] + u;
      assert y == [y[0]] + y[1..];
    } else {
      u, v := "", y[1..];
    }
  }

  /** A header's text behind its first word and behind the old side's mark. */
  lemma HeaderParts(x: string, y: string)
    ensures IsHeader(GitHeader(x, y)) && A_SIDE <= GitHeader(x, y)
    ensures GitHeader(x, y)[|A_SIDE|..] == x + B_SIDE + y
    ensures GitHeader(x, y)[|HEADER|..] == "a/" + x + B_SIDE + y
  {
    var h := GitHeader(x, y);
    assert h == A_SIDE + (x + B_SIDE + y);
    ASideIsHeader(h);
    assert A_SIDE[|HEADER|..] == "a/";
  }

  lemma LastTokenOfHeader(x: string, u: string, v: string)
    requires ' ' !in v
    ensures LastTokenTarget(GitHeader(x, u + [' '] + v)) == if "b/" <= v then Some(v[2..]) else None
  {
    var before := "a/" + x + B_SIDE + u;
    HeaderParts(x, u + [' '] + v);
    assert "a/" + x + B_SIDE + (u + [' '] + v) == before + [' '] + v;
    LastTokenAfter(before, v);
  }

  lemma LastTokenOfSpaceless(x: string, y: string)
    requires ' ' !in y
    ensures LastTokenTarget(GitHeader(x, y)) == Some(y)
  {
    var before, token := "a/" + x, "b/" + y;
    HeaderParts(x, y);
    assert "a/" + x + B_SIDE + y == before + [' '] + token;
    LastTokenAfter(before, token);
  }

  /** The streaming filter names the new path exactly when that path holds no space. */
  lemma LastTokenNamesPathIff(x: string, y: string)
    ensures IsHeader(GitHeader(x, y))
    ensures LastTokenTarget(GitHeader(x, y)) == Some(y) <==> ' ' !in y
  {
    HeaderParts(x, y);
    if ' ' in y {
      var u, v := AtLastSpace(y);
      LastTokenOfHeader(x, u, v);
    } else {
      LastTokenOfSpaceless(x, y);
    }
  }

  /** "Kept if and only if its path is not excluded" holds of the streaming filter exactly for paths without spaces. */
  lemma KeptAsPromisedIff(x: string, y: string)
    ensures (forall exclude: set<string> :: Kept(LastTokenTarget, GitHeader(x, y), exclude) <==> y !in exclude) <==> ' ' !in y
  {
    LastTokenNamesPathIff(x, y);
    if forall exclude: set<string> :: Kept(LastTokenTarget, GitHeader(x, y), exclude) <==> y !in exclude {
      assert !Kept(LastTokenTarget, GitHeader(x, y), {y});
    }
  }

  lemma BehindBSide(x: string, y: string) returns (p: string)
    requires Find(x, B_SIDE).Some?
    ensures Find(x, B_SIDE).value + 3 <= |x|
    ensures (x + B_SIDE + y)[Find(x, B_SIDE).value + 3..] == p + ['/'] + y
  {
    var i := Find(x, B_SIDE).value;
    FindIsFirst(x, B_SIDE);
    p := x[i + 3..] + " b";
  }

  /** Where the block splitter's target starts: behind the first separator, which may lie in the old path. */
  lemma FirstSideOfHeader(space: char -> bool, x: string, y: string)
    ensures Find(x, B_SIDE).None? ==> FirstSideTarget(space, GitHeader(x, y)) == Some(Trim(space, y))
    ensures Find(x, B_SIDE).Some? ==> exists p :: FirstSideTarget(space, GitHeader(x, y)) == Some(Trim(space, p + ['/'] + y))
  {
    HeaderParts(x, y);
    FindBSide(x, y);
    var side := x + B_SIDE + y;
    if Find(x, B_SIDE).None? {
      assert side[|x| + 3..] == y;
    } else {
      var p := BehindBSide(x, y);
      assert FirstSideTarget(space, GitHeader(x, y)) == Some(Trim(space, p + ['/'] + y));
    }
  }

  /** The block splitter names the new path exactly when the old one holds no separator and the new one trims to itself. */
  lemma FirstSideNamesPathIff(space: char -> bool, x: string, y: string)
    requires !space('/')
    ensures FirstSideTarget(space, GitHeader(x, y)) == Some(y) <==> Find(x, B_SIDE).None? && Trim(space, y) == y
  {
    FirstSideOfHeader(space, x, y);
    if Find(x, B_SIDE).Some? {
      var p :| FirstSideTarget(space, GitHeader(x, y)) == Some(Trim(space, p + ['/'] + y));
      NeverTrimsToTail(space, p, '/', y);
    }
  }

  /** Both filters name the new path. */
  predicate PlainPaths(space: char -> bool, x: string, y: string) {
    ' ' !in y && Find(x, B_SIDE).None? && Trim(space, y) == y
  }

  lemma Regroup(p: string, u: string, w: string)
    ensures p + (u + [' '] + ("b/" + w)) == (p + u + " b") + ['/'] + w
  {
  }

  /** The block splitter's target is never just what follows a later `b/` of the new path. */
  lemma NeverJustTheTail(space: char -> bool, x: string, u: string, w: string)
    requires !space('/')
    ensures FirstSideTarget(space, GitHeader(x, u + [' '] + ("b/" + w))) != Some(w)
  {
    var y := u + [' '] + ("b/" + w);
    FirstSideOfHeader(space, x, y);
    if Find(x, B_SIDE).None? {
      Regroup("", u, w);
      assert "" + y == y;
      NeverTrimsToTail(space, "" + u + " b", '/', w);
    } else {
      var p :| FirstSideTarget(space, GitHeader(x, y)) == Some(Trim(space, p + ['/'] + y));
      Regroup(p + ['/'], u, w);
      NeverTrimsToTail(space, p + ['/'] + u + " b", '/', w);
    }
  }

  /** When the streaming filter names another file, the block splitter does not name that one. */
  lemma MisnamedDiffers(space: char -> bool, x: string, y: string)
    requires !space('/') && ' ' in y
    ensures LastTokenTarget(GitHeader(x, y)) != FirstSideTarget(space, GitHeader(x, y))
  {
    var u, v := AtLastSpace(y);
    LastTokenOfHeader(x, u, v);
    FirstSideOfHeader(space, x, y);
    if "b/" <= v {
      assert v == "b/" + v[2..];
      NeverJustTheTail(space, x, u, v[2..]);
    }
  }

  /** The two filters name the same file for a header exactly when both name its new path. */
  lemma TargetsAgreeIff(space: char -> bool, x: string, y: string)
    requires !space('/')
    ensures LastTokenTarget(GitHeader(x, y)) == FirstSideTarget(space, GitHeader(x, y)) <==> PlainPaths(space, x, y)
  {
    LastTokenNamesPathIff(x, y);
    FirstSideNamesPathIff(space, x, y);
    if ' ' in y { MisnamedDiffers(space, x, y); }
  }

  /**
   * On a diff whose headers are git's, `paths` giving each its two paths, the two filters output
   * the same whatever is excluded exactly when both paths of every header are plain.
   */
  lemma GitDiffFiltersAgreeIff(space: char -> bool, lines: seq<string>, paths: string -> (string, string))
    requires !space('/')
    requires forall h :: h in lines && IsHeader(h) ==> h == GitHeader(paths(h).0, paths(h).1)
    ensures AgreeOn(LastTokenTarget, FirstSide(space), lines)
      <==> forall h :: h in lines && IsHeader(h) ==> PlainPaths(space, paths(h).0, paths(h).1)
  {
    FiltersAgreeIff(LastTokenTarget, FirstSide(space), lines);
    forall h | h in lines && IsHeader(h)
      ensures LastTokenTarget(h) == FirstSide(space)(h) <==> PlainPaths(space, paths(h).0, paths(h).1)
    {
      TargetsAgreeIff(space, paths(h).0, paths(h).1);
    }
  }

  ghost predicate BlankFree(space: char -> bool, s: string) { forall i :: 0 <= i < |s| ==> !space(s[i]) }

  lemma TrimNothing(space: char -> bool, s: string)
    requires BlankFree(space, s)
    ensures Trim(space, s) == s
  {
  }

  /** On a diff whose paths hold no blank the streaming loop and the block splitter output the same lines. */
  lemma BlankFreeDiffsAgree(space: char -> bool, lines: seq<string>, paths: string -> (string, string), exclude: set<string>)
    requires space(' ') && !space('/')
    requires forall h :: h in lines && IsHeader(h) ==>
               h == GitHeader(paths(h).0, paths(h).1) && BlankFree(space, paths(h).0) && BlankFree(space, paths(h).1)
    ensures StripSections(LastTokenTarget, lines, exclude) == StripSections(FirstSide(space), lines, exclude)
  {
    forall h | h in lines && IsHeader(h) ensures PlainPaths(space, paths(h).0, paths(h).1) {
      SpacelessHasNoBSide(paths(h).0);
      TrimNothing(space, paths(h).1);
    }
    GitDiffFiltersAgreeIff(space, lines, paths);
  }
}
