/** The code-fence printer of the trajectory export and the Markdown reader that shows it. */
module Fences {
  import opened Wrappers
  import opened Lines

  /** The regular expressions' word and whitespace classes, which never hold Markdown's own marks. */
  datatype Classes = Classes(word: char -> bool, space: char -> bool)

  ghost predicate Usual(cc: Classes) {
    && (forall c :: cc.word(c) ==> !cc.space(c))
    && (forall c :: c in "`#>" ==> !cc.word(c) && !cc.space(c))
    && cc.space(' ')
  }

  const TICK := '`'

  // ----- line shapes -----

  function Leading(s: string, c: char): nat {
    if s != "" && s[0] == c then 1 + Leading(s[1..], c) else 0
  }

  function LeadingIn(s: string, among: char -> bool): nat {
    if s != "" && among(s[0]) then 1 + LeadingIn(s[1..], among) else 0
  }

  lemma {:induction false} LeadingBound(s: string, c: char)
    ensures Leading(s, c) <= |s| && forall i :: 0 <= i < Leading(s, c) ==> s[i] == c
    ensures Leading(s, c) < |s| ==> s[Leading(s, c)] != c
  {
    if s != "" && s[0] == c { LeadingBound(s[1..], c); }
  }

  predicate AllIn(s: string, among: char -> bool) { forall i :: 0 <= i < |s| ==> among(s[i]) }

  function Drop(s: string, n: nat): string { if n <= |s| then s[n..] else "" }

  /** Three or more backticks, a word, trailing blanks: the fence length and the language tag. */
  function OpenFence(cc: Classes, line: string): Option<(nat, string)> {
    var n := Leading(line, TICK);
    var rest := Drop(line, n);
    var w := LeadingIn(rest, cc.word);
    if n >= 3 && AllIn(Drop(rest, w), cc.space) then Some((n, rest[..if w <= |rest| then w else |rest|])) else None
  }

  /** At least as many backticks as opened the block, then only blanks. */
  predicate ClosesFence(cc: Classes, line: string, n: nat) {
    Leading(line, TICK) >= n && AllIn(Drop(line, Leading(line, TICK)), cc.space)
  }

  function LStrip(cc: Classes, s: string): string { Drop(s, LeadingIn(s, cc.space)) }

  /** One to four hashes and at least one blank: the level and the text after the blanks. */
  function HeadingLine(cc: Classes, line: string): Option<(nat, string)> {
    var n := Leading(line, '#');
    var rest := Drop(line, n);
    if 1 <= n <= 4 && LeadingIn(rest, cc.space) >= 1 then Some((n, LStrip(cc, rest))) else None
  }

  predicate QuoteLine(line: string) { line != "" && line[0] == '>' }

  /** The line shapes the reader tells apart. */
  datatype Shapes = Shapes(open: string -> Option<(nat, string)>,
                           closes: (string, nat) -> bool,
                           heading: string -> Option<(nat, string)>,
                           blank: string -> bool)

  function Markdown(cc: Classes): Shapes {
    Shapes(line => OpenFence(cc, line),
           (line: string, n: nat) => ClosesFence(cc, line, n),
           line => HeadingLine(cc, line),
           line => AllIn(line, cc.space))
  }

  // ----- blocks -----

  datatype Block =
    | Code(opening: string, lang: string, body: seq<string>, closing: Option<string>)
    | Heading(line: string, level: nat, text: string)
    | Quote(quoted: seq<string>)
    | Blank(line: string)
    | Para(lines: seq<string>)

  /** The input lines a block stands for. */
  function SourceLines(b: Block): seq<string> {
    match b
    case Code(opening, _, body, closing) => [opening] + body + (if closing.Some? then [closing.value] else [])
    case Heading(line, _, _) => [line]
    case Quote(quoted) => quoted
    case Blank(line) => [line]
    case Para(lines) => lines
  }

  function AllLines(bs: seq<Block>): seq<string> {
    if bs == [] then [] else SourceLines(bs[0]) + AllLines(bs[1..])
  }

  /** Lines before the first that closes the fence, or all of them. */
  function BodyLength(g: Shapes, lines: seq<string>, n: nat): (k: nat)
    ensures k <= |lines|
  {
    if lines == [] || g.closes(lines[0], n) then 0 else 1 + BodyLength(g, lines[1..], n)
  }

  function QuoteLength(lines: seq<string>): (k: nat)
    ensures k <= |lines|
  {
    if lines == [] || !QuoteLine(lines[0]) then 0 else 1 + QuoteLength(lines[1..])
  }

  /** Pending paragraph lines in front of the blocks that follow. */
  function Prepend(para: seq<string>, bs: seq<Block>): seq<Block> {
    if para == [] then bs
    else if bs != [] && bs[0].Para? then [Para(para + bs[0].lines)] + bs[1..]
    else [Para(para)] + bs
  }

  /** The block the first line starts and the number of lines it takes; a paragraph line is taken alone. */
  function Step(g: Shapes, lines: seq<string>): (r: (Block, nat))
    requires lines != []
    ensures 1 <= r.1 <= |lines| && SourceLines(r.0) == lines[..r.1]
  {
    var line, rest := lines[0], lines[1..];
    match g.open(line)
    case Some((n, lang)) =>
      var k := BodyLength(g, rest, n);
      if k < |rest| then (Code(line, lang, rest[..k], Some(rest[k])), k + 2)
      else (Code(line, lang, rest, None), k + 1)
    case None =>
      match g.heading(line)
      case Some((level, text)) => (Heading(line, level, text), 1)
      case None =>
        if QuoteLine(line) then (Quote(lines[..QuoteLength(lines)]), QuoteLength(lines))
        else if g.blank(line) then (Blank(line), 1)
        else (Para([line]), 1)
  }

  /** A block in front of the blocks that follow; a paragraph line joins the paragraph it starts. */
  function Front(b: Block, bs: seq<Block>): seq<Block> {
    if b.Para? then Prepend(b.lines, bs) else [b] + bs
  }

  /** The reader: what a sequence of lines means. */
  function Read(g: Shapes, lines: seq<string>): seq<Block>
    decreases |lines|
  {
    if lines == [] then []
    else
      var (b, n) := Step(g, lines);
      Front(b, Read(g, lines[n..]))
  }

  // ----- the reading loop -----

  lemma ReadUnfolds(g: Shapes, lines: seq<string>, b: Block, n: nat, rest: seq<string>)
    requires lines != [] && (b, n) == Step(g, lines) && rest == lines[n..]
    ensures Read(g, lines) == Front(b, Read(g, rest))
  {
  }

  lemma DropDrop(lines: seq<string>, i: nat, k: nat)
    requires i + k <= |lines|
    ensures lines[i..][k..] == lines[i + k..]
  {
  }

  method ReadCode(g: Shapes, lines: seq<string>, i: nat) returns (block: Block, next: nat)
    requires i < |lines| && g.open(lines[i]).Some?
    ensures i < next <= |lines| && (block, next - i) == Step(g, lines[i..])
  {
    var (n, lang) := g.open(lines[i]).value;
    ghost var rest := lines[i..][1..];
    assert rest == lines[i + 1..];
    var k := i + 1;
    while k < |lines| && !g.closes(lines[k], n)
      invariant i + 1 <= k <= |lines|
      invariant k - i - 1 + BodyLength(g, lines[k..], n) == BodyLength(g, rest, n)
    {
      assert lines[k..][1..] == lines[k + 1..];
      k := k + 1;
    }
    assert rest[..k - i - 1] == lines[i + 1..k];
    if k == |lines| { assert lines[k..] == [] && rest[..k - i - 1] == rest; }
    if k < |lines| {
      block, next := Code(lines[i], lang, lines[i + 1..k], Some(lines[k])), k + 1;
    } else {
      block, next := Code(lines[i], lang, lines[i + 1..k], None), k;
    }
  }

  method ReadQuote(g: Shapes, lines: seq<string>, i: nat) returns (block: Block, next: nat)
    requires i < |lines| && g.open(lines[i]).None? && g.heading(lines[i]).None? && QuoteLine(lines[i])
    ensures i < next <= |lines| && (block, next - i) == Step(g, lines[i..])
  {
    next := i;
    while next < |lines| && QuoteLine(lines[next])
      invariant i <= next <= |lines|
      invariant next - i + QuoteLength(lines[next..]) == QuoteLength(lines[i..])
    {
      assert lines[next..][1..] == lines[next + 1..];
      next := next + 1;
    }
    assert lines[i..][..next - i] == lines[i..next];
    block := Quote(lines[i..next]);
  }

  /** The reader's dispatch on the current line. */
  method ReadBlock(g: Shapes, lines: seq<string>, i: nat) returns (block: Block, next: nat)
    requires i < |lines|
    ensures i < next <= |lines| && (block.Para? ==> |block.lines| == 1)
    ensures (block, next - i) == Step(g, lines[i..])
  {
    var line := lines[i];
    if g.open(line).Some? {
      block, next := ReadCode(g, lines, i);
    } else if g.heading(line).Some? {
      block, next := Heading(line, g.heading(line).value.0, g.heading(line).value.1), i + 1;
    } else if QuoteLine(line) {
      block, next := ReadQuote(g, lines, i);
    } else if g.blank(line) {
      block, next := Blank(line), i + 1;
    } else {
      block, next := Para([line]), i + 1;
    }
  }

  method ReadNext(g: Shapes, lines: seq<string>, i: nat) returns (block: Block, next: nat)
    requires i < |lines|
    ensures i < next <= |lines| && (block.Para? ==> |block.lines| == 1)
    ensures Read(g, lines[i..]) == Front(block, Read(g, lines[next..]))
  {
    block, next := ReadBlock(g, lines, i);
    DropDrop(lines, i, next - i);
    ReadUnfolds(g, lines[i..], block, next - i, lines[next..]);
  }

  function Flush(out: seq<Block>, para: seq<string>): seq<Block> {
    if para == [] then out else out + [Para(para)]
  }

  /** A block that is no paragraph ends the pending one. */
  lemma FlushBefore(out: seq<Block>, para: seq<string>, b: Block, rest: seq<Block>)
    requires !b.Para?
    ensures out + Prepend(para, [b] + rest) == Flush(out, para) + [b] + Prepend([], rest)
  {
    assert ([b] + rest)[0] == b;
    Assoc(out, [b], rest);
    Assoc(out + [Para(para)], [b], rest);
    Assoc(out, [Para(para)], [b] + rest);
  }

  lemma PrependTwice(para: seq<string>, line: string, bs: seq<Block>)
    ensures Prepend(para, Prepend([line], bs)) == Prepend(para + [line], bs)
  {
    assert [] + [line] == [line];
    if bs != [] && bs[0].Para? {
      Assoc(para, [line], bs[0].lines);
      assert ([Para([line] + bs[0].lines)] + bs[1..])[1..] == bs[1..];
    } else {
      assert ([Para([line])] + bs)[1..] == bs;
    }
  }

  /** What taking one block does to the blocks written so far and the pending paragraph. */
  lemma {:induction false} FrontOf(out: seq<Block>, para: seq<string>, b: Block, rest: seq<Block>)
    requires b.Para? ==> |b.lines| == 1
    ensures b.Para? ==> out + Prepend(para, Front(b, rest)) == out + Prepend(para + b.lines, rest)
    ensures !b.Para? ==> out + Prepend(para, Front(b, rest)) == Flush(out, para) + [b] + Prepend([], rest)
  {
    if b.Para? {
      PrependTwice(para, b.lines[0], rest);
      assert b.lines == [b.lines[0]];
    } else {
      FlushBefore(out, para, b, rest);
    }
  }

  method ReadMarkdown(g: Shapes, md: string) returns (out: seq<Block>)
    ensures out == Read(g, Split(md, '\n'))
  {
    var lines := Split(md, '\n');
    out := [];
    var para: seq<string> := [];
    var i := 0;
    assert lines[0..] == lines;
    while i < |lines|
      invariant i <= |lines|
      invariant out + Prepend(para, Read(g, lines[i..])) == Read(g, lines)
      decreases |lines| - i
    {
      var block, next := ReadNext(g, lines, i);
      FrontOf(out, para, block, Read(g, lines[next..]));
      if block.Para? {
        para := para + block.lines;
      } else {
        out := Flush(out, para) + [block];
        para := [];
      }
      i := next;
    }
    assert lines[i..] == [];
    out := Flush(out, para);
  }

  // ----- every line belongs to exactly one block -----

  lemma {:induction false} PrependLines(para: seq<string>, bs: seq<Block>)
    ensures AllLines(Prepend(para, bs)) == para + AllLines(bs)
  {
    if para != [] {
      if bs != [] && bs[0].Para? {
        assert Prepend(para, bs)[1..] == bs[1..];
        Assoc(para, bs[0].lines, AllLines(bs[1..]));
      } else {
        assert Prepend(para, bs)[1..] == bs;
      }
    }
  }

  lemma FrontLines(b: Block, bs: seq<Block>)
    ensures AllLines(Front(b, bs)) == SourceLines(b) + AllLines(bs)
  {
    if b.Para? {
      PrependLines(b.lines, bs);
    } else {
      assert ([b] + bs)[1..] == bs;
    }
  }

  /** On every input, malformed or not, the blocks' lines are the input's lines, in order. */
  lemma {:induction false} ReadCoversInput(g: Shapes, lines: seq<string>)
    ensures AllLines(Read(g, lines)) == lines
    decreases |lines|
  {
    if lines != [] {
      var (b, n) := Step(g, lines);
      ReadCoversInput(g, lines[n..]);
      assert lines == lines[..n] + lines[n..];
      FrontLines(b, Read(g, lines[n..]));
    }
  }

  // ----- printing -----

  function Max(x: nat, y: nat): nat { if x > y then x else y }

  function LongestRun(s: string): nat {
    if s == "" then 0 else Max(Leading(s, TICK), LongestRun(s[1..]))
  }

  function Ticks(n: nat): string { seq(n, _ => TICK) }

  function FenceLength(body: string): nat { Max(3, LongestRun(body) + 1) }

  function Fence(body: string, lang: string): string {
    Ticks(FenceLength(body)) + lang + "\n" + body + "\n" + Ticks(FenceLength(body))
  }

  lemma {:induction false} LeadingOfPrefix(p: string, s: string)
    requires p <= s
    ensures Leading(p, TICK) <= Leading(s, TICK)
  {
    if p != "" && p[0] == TICK { LeadingOfPrefix(p[1..], s[1..]); }
  }

  lemma {:induction false} FirstPieceIsPrefix(s: string, sep: char)
    ensures Split(s, sep)[0] <= s
  {
    if s != "" && s[0] != sep { FirstPieceIsPrefix(s[1..], sep); }
  }

  /** No line of a text has a longer run of backticks than the text. */
  lemma {:induction false} PiecesHaveShorterRuns(s: string)
    ensures forall i :: 0 <= i < |Split(s, '\n')| ==> LongestRun(Split(s, '\n')[i]) <= LongestRun(s)
  {
    if s != "" {
      PiecesHaveShorterRuns(s[1..]);
      if s[0] != '\n' {
        FirstPieceIsPrefix(s[1..], '\n');
        var first := Split(s, '\n')[0];
        assert first[1..] == Split(s[1..], '\n')[0];
        FirstPieceIsPrefix(s, '\n');
        LeadingOfPrefix(first, s);
      }
    }
  }

  lemma {:induction false} LeadingOfTicks(n: nat, tail: string)
    requires tail == "" || tail[0] != TICK
    ensures Leading(Ticks(n) + tail, TICK) == n && Drop(Ticks(n) + tail, n) == tail
  {
    if n == 0 {
      assert Ticks(0) + tail == tail;
    } else {
      LeadingOfTicks(n - 1, tail);
      assert (Ticks(n) + tail)[1..] == Ticks(n - 1) + tail;
    }
  }

  lemma {:induction false} LeadingWord(cc: Classes, w: string)
    requires AllIn(w, cc.word)
    ensures LeadingIn(w, cc.word) == |w|
  {
    if w != "" { LeadingWord(cc, w[1..]); }
  }

  // ----- documents the export writes -----

  datatype Part = FencePart(body: string, lang: string) | HeadingPart(level: nat, text: string) | BlankPart

  ghost predicate Legal(cc: Classes, p: Part) {
    match p
    case FencePart(_, lang) => AllIn(lang, cc.word) && '\n' !in lang
    case HeadingPart(level, text) => 1 <= level <= 4 && '\n' !in text
    case BlankPart => true
  }

  function Hashes(n: nat): string { seq(n, _ => '#') }

  function Printed(p: Part): string {
    match p
    case FencePart(body, lang) => Fence(body, lang)
    case HeadingPart(level, text) => Hashes(level) + " " + text
    case BlankPart => ""
  }

  function PrintedLines(p: Part): seq<string> {
    match p
    case FencePart(body, lang) =>
      [Ticks(FenceLength(body)) + lang] + Split(body, '\n') + [Ticks(FenceLength(body))]
    case HeadingPart(level, text) => [Hashes(level) + " " + text]
    case BlankPart => [""]
  }

  /** The block a part must read back as. */
  function Expected(cc: Classes, p: Part): Block {
    match p
    case FencePart(body, lang) =>
      Code(Ticks(FenceLength(body)) + lang, lang, Split(body, '\n'), Some(Ticks(FenceLength(body))))
    case HeadingPart(level, text) => Heading(Hashes(level) + " " + text, level, LStrip(cc, " " + text))
    case BlankPart => Blank("")
  }

  function DocumentLines(ps: seq<Part>): seq<string> {
    if ps == [] then [] else PrintedLines(ps[0]) + DocumentLines(ps[1..])
  }

  function ExpectedBlocks(cc: Classes, ps: seq<Part>): seq<Block> {
    seq(|ps|, i requires 0 <= i < |ps| => Expected(cc, ps[i]))
  }

  function Texts(ps: seq<Part>): seq<string> { seq(|ps|, i requires 0 <= i < |ps| => Printed(ps[i])) }

  /** The whole document: its parts joined by newlines. */
  function Document(ps: seq<Part>): string
    requires ps != []
  {
    Join(Texts(ps), '\n')
  }

  lemma PartSplits(cc: Classes, p: Part)
    requires Legal(cc, p)
    ensures Split(Printed(p), '\n') == PrintedLines(p)
  {
    match p
    case FencePart(body, lang) =>
      var bt := Ticks(FenceLength(body));
      assert Fence(body, lang) == (bt + lang) + ['\n'] + (body + ['\n'] + bt);
      SplitConcat(bt + lang, body + ['\n'] + bt, '\n');
      SplitConcat(body, bt, '\n');
      OnePiece(bt + lang, '\n');
      OnePiece(bt, '\n');
      Assoc([bt + lang], Split(body, '\n'), [bt]);
    case HeadingPart(level, text) => OnePiece(Hashes(level) + " " + text, '\n');
    case BlankPart =>
  }

  lemma {:induction false} DocumentSplits(cc: Classes, ps: seq<Part>)
    requires ps != [] && forall i :: 0 <= i < |ps| ==> Legal(cc, ps[i])
    ensures Split(Document(ps), '\n') == DocumentLines(ps)
  {
    PartSplits(cc, ps[0]);
    if |ps| == 1 {
      assert DocumentLines(ps[1..]) == [];
    } else {
      assert Texts(ps)[1..] == Texts(ps[1..]);
      DocumentSplits(cc, ps[1..]);
      SplitConcat(Printed(ps[0]), Document(ps[1..]), '\n');
    }
  }

  lemma {:induction false} BodyEndsAtClose(g: Shapes, body: seq<string>, n: nat, close: string, rest: seq<string>)
    requires g.closes(close, n) && forall i :: 0 <= i < |body| ==> !g.closes(body[i], n)
    ensures BodyLength(g, body + [close] + rest, n) == |body|
  {
    if body == [] {
      assert body + [close] + rest == [close] + rest;
    } else {
      assert (body + [close] + rest)[1..] == body[1..] + [close] + rest;
      BodyEndsAtClose(g, body[1..], n, close, rest);
    }
  }

  /** A fenced block whose body never closes it reads as one block. */
  lemma FencedReads(g: Shapes, opening: string, lang: string, n: nat, body: seq<string>, close: string, rest: seq<string>)
    requires g.open(opening) == Some((n, lang)) && g.closes(close, n)
    requires forall i :: 0 <= i < |body| ==> !g.closes(body[i], n)
    ensures Read(g, [opening] + body + [close] + rest) == [Code(opening, lang, body, Some(close))] + Read(g, rest)
  {
    var lines := [opening] + body + [close] + rest;
    assert lines[1..] == body + [close] + rest;
    BodyEndsAtClose(g, body, n, close, rest);
    assert lines[1..][..|body|] == body && lines[|body| + 2..] == rest;
  }

  lemma FenceMarks(cc: Classes, n: nat, lang: string)
    requires Usual(cc) && AllIn(lang, cc.word) && n >= 3
    ensures OpenFence(cc, Ticks(n) + lang) == Some((n, lang))
    ensures ClosesFence(cc, Ticks(n), n)
  {
    LeadingOfTicks(n, lang);
    LeadingWord(cc, lang);
    assert Drop(lang, |lang|) == "" && lang[..|lang|] == lang;
    LeadingOfTicks(n, "");
    assert Ticks(n) + "" == Ticks(n);
  }

  lemma FenceReads(cc: Classes, body: string, lang: string, rest: seq<string>)
    requires Usual(cc) && Legal(cc, FencePart(body, lang))
    ensures Read(Markdown(cc), PrintedLines(FencePart(body, lang)) + rest)
            == [Expected(cc, FencePart(body, lang))] + Read(Markdown(cc), rest)
  {
    var n, inner := FenceLength(body), Split(body, '\n');
    FenceMarks(cc, n, lang);
    PiecesHaveShorterRuns(body);
    forall i | 0 <= i < |inner| ensures !ClosesFence(cc, inner[i], n) {
      assert Leading(inner[i], TICK) <= LongestRun(inner[i]) < n;
    }
    FencedReads(Markdown(cc), Ticks(n) + lang, lang, n, inner, Ticks(n), rest);
  }

  lemma {:induction false} LeadingOfHashes(n: nat, tail: string)
    requires tail == "" || tail[0] != '#'
    ensures Leading(Hashes(n) + tail, '#') == n && Drop(Hashes(n) + tail, n) == tail
  {
    if n == 0 {
      assert Hashes(0) + tail == tail;
    } else {
      LeadingOfHashes(n - 1, tail);
      assert (Hashes(n) + tail)[1..] == Hashes(n - 1) + tail;
    }
  }

  lemma HeadingReads(cc: Classes, level: nat, text: string, rest: seq<string>)
    requires Usual(cc) && Legal(cc, HeadingPart(level, text))
    ensures Read(Markdown(cc), PrintedLines(HeadingPart(level, text)) + rest)
            == [Expected(cc, HeadingPart(level, text))] + Read(Markdown(cc), rest)
  {
    var line := Hashes(level) + " " + text;
    LeadingOfHashes(level, " " + text);
    assert line == Hashes(level) + (" " + text);
    assert Hashes(level)[0] == '#' && line[0] == '#';
    assert ([line] + rest)[1..] == rest;
  }

  lemma ExpectedCons(cc: Classes, ps: seq<Part>)
    requires ps != []
    ensures ExpectedBlocks(cc, ps) == [Expected(cc, ps[0])] + ExpectedBlocks(cc, ps[1..])
  {
  }

  lemma PartReads(cc: Classes, p: Part, rest: seq<string>)
    requires Usual(cc) && Legal(cc, p)
    ensures Read(Markdown(cc), PrintedLines(p) + rest) == [Expected(cc, p)] + Read(Markdown(cc), rest)
  {
    match p
    case FencePart(body, lang) => FenceReads(cc, body, lang, rest);
    case HeadingPart(level, text) => HeadingReads(cc, level, text, rest);
    case BlankPart => assert ([""] + rest)[1..] == rest;
  }

  lemma {:induction false} PartsRead(cc: Classes, ps: seq<Part>)
    requires Usual(cc) && forall i :: 0 <= i < |ps| ==> Legal(cc, ps[i])
    ensures Read(Markdown(cc), DocumentLines(ps)) == ExpectedBlocks(cc, ps)
  {
    if ps != [] {
      PartsRead(cc, ps[1..]);
      PartReads(cc, ps[0], DocumentLines(ps[1..]));
      ExpectedCons(cc, ps);
    }
  }

  /**
   * The fence round trip: a document of fences, headings and blank lines reads back as one
   * block per part, and the text of each fenced block is exactly the body that went in,
   * whatever backticks, fences or newlines the body holds.
   */
  lemma FenceRoundTrip(cc: Classes, ps: seq<Part>)
    requires Usual(cc) && ps != [] && forall i :: 0 <= i < |ps| ==> Legal(cc, ps[i])
    ensures Read(Markdown(cc), Split(Document(ps), '\n')) == ExpectedBlocks(cc, ps)
    ensures forall i :: 0 <= i < |ps| && ps[i].FencePart? ==>
              var b := Read(Markdown(cc), Split(Document(ps), '\n'))[i];
              b.Code? && b.lang == ps[i].lang && b.body != [] && Join(b.body, '\n') == ps[i].body
  {
    DocumentSplits(cc, ps);
    PartsRead(cc, ps);
    forall i | 0 <= i < |ps| && ps[i].FencePart? ensures Join(Split(ps[i].body, '\n'), '\n') == ps[i].body {
      SplitIsFree(ps[i].body, '\n');
    }
  }
}
