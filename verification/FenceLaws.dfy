/** The line shapes of the Markdown reader and the length of a printed fence, said over their characters. */
module FenceLaws {
  import opened Wrappers
  import opened Lines
  import opened Fences

  // ----- the shapes of a line -----

  lemma LeadingSplits(s: string, c: char)
    ensures Leading(s, c) <= |s| && s == s[..Leading(s, c)] + s[Leading(s, c)..]
    ensures Drop(s, Leading(s, c)) == s[Leading(s, c)..]
    ensures forall i :: 0 <= i < Leading(s, c) ==> s[i] == c
  {
    LeadingBound(s, c);
  }

  lemma {:induction false} LeadingInBound(s: string, among: char -> bool)
    ensures LeadingIn(s, among) <= |s| && AllIn(s[..LeadingIn(s, among)], among)
    ensures LeadingIn(s, among) < |s| ==> !among(s[LeadingIn(s, among)])
  {
    if s != "" && among(s[0]) { LeadingInBound(s[1..], among); }
  }

  lemma {:induction false} LeadingInOf(x: string, y: string, among: char -> bool)
    requires AllIn(x, among) && (y == "" || !among(y[0]))
    ensures LeadingIn(x + y, among) == |x| && Drop(x + y, |x|) == y
  {
    if x == "" {
      assert x + y == y;
    } else {
      assert (x + y)[1..] == x[1..] + y;
      LeadingInOf(x[1..], y, among);
    }
  }

  lemma OpenFenceOf(cc: Classes, n: nat, tag: string, blanks: string)
    requires Usual(cc) && n >= 3 && AllIn(tag, cc.word) && AllIn(blanks, cc.space)
    ensures OpenFence(cc, Ticks(n) + tag + blanks) == Some((n, tag))
  {
    Assoc(Ticks(n), tag, blanks);
    LeadingOfTicks(n, tag + blanks);
    LeadingInOf(tag, blanks, cc.word);
    assert (tag + blanks)[..|tag|] == tag;
  }

  lemma OpenFenceIsOf(cc: Classes, line: string, n: nat, tag: string) returns (blanks: string)
    requires OpenFence(cc, line) == Some((n, tag))
    ensures n >= 3 && AllIn(tag, cc.word) && AllIn(blanks, cc.space) && line == Ticks(n) + tag + blanks
  {
    LeadingSplits(line, TICK);
    var rest := Drop(line, n);
    LeadingInBound(rest, cc.word);
    blanks := Drop(rest, |tag|);
    assert line[..n] == Ticks(n) && rest == tag + blanks;
    Assoc(Ticks(n), tag, blanks);
  }

  /** A line opens a fence exactly when it is three or more backticks, a word and blanks. */
  lemma OpenFenceIff(cc: Classes, line: string, n: nat, tag: string)
    requires Usual(cc)
    ensures OpenFence(cc, line) == Some((n, tag)) <==>
              n >= 3 && AllIn(tag, cc.word) && exists blanks :: AllIn(blanks, cc.space) && line == Ticks(n) + tag + blanks
  {
    if OpenFence(cc, line) == Some((n, tag)) { var blanks := OpenFenceIsOf(cc, line, n, tag); }
    if n >= 3 && AllIn(tag, cc.word) {
      forall blanks | AllIn(blanks, cc.space) && line == Ticks(n) + tag + blanks ensures OpenFence(cc, line) == Some((n, tag)) {
        OpenFenceOf(cc, n, tag, blanks);
      }
    }
  }

  /** It closes one of `n` backticks exactly when it is that many or more, and blanks. */
  lemma ClosesFenceIff(cc: Classes, line: string, n: nat)
    requires Usual(cc)
    ensures ClosesFence(cc, line, n) <==>
              exists k: nat, blanks :: k >= n && AllIn(blanks, cc.space) && line == Ticks(k) + blanks
  {
    if ClosesFence(cc, line, n) {
      LeadingSplits(line, TICK);
      var k := Leading(line, TICK);
      assert line[..k] == Ticks(k) && line == Ticks(k) + Drop(line, k);
    }
    forall k: nat, blanks | k >= n && AllIn(blanks, cc.space) && line == Ticks(k) + blanks ensures ClosesFence(cc, line, n) {
      LeadingOfTicks(k, blanks);
    }
  }

  /** It is a heading exactly when it is one to four hashes, blanks, and a text that begins with none. */
  lemma HeadingIff(cc: Classes, line: string, n: nat, text: string)
    requires Usual(cc)
    ensures HeadingLine(cc, line) == Some((n, text)) <==>
              && 1 <= n <= 4 && (text == "" || !cc.space(text[0]))
              && exists blanks :: blanks != "" && AllIn(blanks, cc.space) && line == Hashes(n) + blanks + text
  {
    if HeadingLine(cc, line) == Some((n, text)) {
      LeadingSplits(line, '#');
      var rest := Drop(line, n);
      LeadingInBound(rest, cc.space);
      var blanks := rest[..LeadingIn(rest, cc.space)];
      assert line[..n] == Hashes(n) && rest == blanks + text;
      Assoc(Hashes(n), blanks, text);
    }
    if 1 <= n <= 4 && (text == "" || !cc.space(text[0])) {
      forall blanks | blanks != "" && AllIn(blanks, cc.space) && line == Hashes(n) + blanks + text
        ensures HeadingLine(cc, line) == Some((n, text))
      {
        Assoc(Hashes(n), blanks, text);
        LeadingOfHashes(n, blanks + text);
        LeadingInOf(blanks, text, cc.space);
      }
    }
  }

  // ----- quotes and paragraphs -----

  lemma {:induction false} QuoteLengthIs(quoted: seq<string>, rest: seq<string>)
    requires forall i :: 0 <= i < |quoted| ==> quoted[i] != "" && quoted[i][0] == '>'
    requires rest != [] ==> rest[0] == "" || rest[0][0] != '>'
    ensures QuoteLength(quoted + rest) == |quoted|
  {
    if quoted == [] {
      assert quoted + rest == rest;
    } else {
      assert (quoted + rest)[1..] == quoted[1..] + rest;
      QuoteLengthIs(quoted[1..], rest);
    }
  }

  /** Lines that begin with `>` are one quote, up to the first that does not. */
  lemma QuoteReads(cc: Classes, quoted: seq<string>, rest: seq<string>)
    requires Usual(cc) && quoted != [] && forall i :: 0 <= i < |quoted| ==> quoted[i] != "" && quoted[i][0] == '>'
    requires rest != [] ==> rest[0] == "" || rest[0][0] != '>'
    ensures Read(Markdown(cc), quoted + rest) == [Quote(quoted)] + Read(Markdown(cc), rest)
  {
    QuoteLengthIs(quoted, rest);
    var lines := quoted + rest;
    assert lines[..|quoted|] == quoted && lines[|quoted|..] == rest;
    assert OpenFence(cc, lines[0]).None? && HeadingLine(cc, lines[0]).None?;
  }

  /** A line with something on it, none of the marks in front. */
  predicate PlainLine(cc: Classes, line: string) {
    line != "" && line[0] !in "`#>" && exists i :: 0 <= i < |line| && !cc.space(line[i])
  }

  lemma PlainLineStep(cc: Classes, line: string, rest: seq<string>)
    requires Usual(cc) && PlainLine(cc, line)
    ensures Read(Markdown(cc), [line] + rest) == Prepend([line], Read(Markdown(cc), rest))
  {
    var lines := [line] + rest;
    assert lines[1..] == rest;
    assert OpenFence(cc, line).None? && HeadingLine(cc, line).None?;
  }

  /** A run of such lines is one paragraph. */
  lemma {:induction false} ParagraphReads(cc: Classes, para: seq<string>)
    requires Usual(cc) && para != [] && forall i :: 0 <= i < |para| ==> PlainLine(cc, para[i])
    ensures Read(Markdown(cc), para) == [Para(para)]
  {
    assert para == [para[0]] + para[1..];
    PlainLineStep(cc, para[0], para[1..]);
    if |para| > 1 {
      ParagraphReads(cc, para[1..]);
      assert [Para(para[1..])][0].lines == para[1..] && [Para(para[1..])][1..] == [];
    } else {
      assert para[1..] == [] && [para[0]] == para;
    }
  }

  // ----- the length of a printed fence -----

  lemma {:induction false} RunAhead(n: nat, b: string)
    ensures Leading(Ticks(n) + b, TICK) >= n
  {
    if n > 0 {
      assert (Ticks(n) + b)[1..] == Ticks(n - 1) + b;
      RunAhead(n - 1, b);
    }
  }

  lemma {:induction false} RunsAreShorter(a: string, n: nat, b: string)
    ensures n <= LongestRun(a + Ticks(n) + b)
  {
    if a == "" {
      assert a + Ticks(n) + b == Ticks(n) + b;
      RunAhead(n, b);
    } else {
      assert (a + Ticks(n) + b)[1..] == a[1..] + Ticks(n) + b;
      RunsAreShorter(a[1..], n, b);
    }
  }

  lemma {:induction false} LongestRunIsThere(s: string) returns (a: string, b: string)
    ensures s == a + Ticks(LongestRun(s)) + b
  {
    if s == "" {
      a, b := "", "";
    } else if Leading(s, TICK) == LongestRun(s) {
      LeadingSplits(s, TICK);
      a, b := "", s[Leading(s, TICK)..];
      assert s[..Leading(s, TICK)] == Ticks(LongestRun(s));
    } else {
      a, b := LongestRunIsThere(s[1..]);
      a := [s[0]] + a;
      assert s == [s[0]] + s[1..];
    }
  }

  /** The body holds that many backticks in a row exactly up to its longest run. */
  lemma RunsOfBody(s: string, n: nat)
    ensures n <= LongestRun(s) <==> exists a, b :: s == a + Ticks(n) + b
  {
    forall a, b | s == a + Ticks(n) + b ensures n <= LongestRun(s) { RunsAreShorter(a, n, b); }
    if n <= LongestRun(s) {
      var a, b := LongestRunIsThere(s);
      var more := Ticks(LongestRun(s) - n);
      assert Ticks(LongestRun(s)) == Ticks(n) + more;
      assert s == a + Ticks(n) + (more + b);
    }
  }

  /** The printed fence is the shortest of three or more backticks that the body does not hold. */
  lemma FenceIsShortest(body: string, n: nat)
    ensures FenceLength(body) >= 3 && !(exists a, b :: body == a + Ticks(FenceLength(body)) + b)
    ensures n >= 3 && !(exists a, b :: body == a + Ticks(n) + b) ==> FenceLength(body) <= n
  {
    RunsOfBody(body, FenceLength(body));
    RunsOfBody(body, n);
  }
}
