/** Which log lines are reported, and as what, said over their characters. */
module ErrorLineLaws {
  import opened Wrappers
  import opened Lines
  import opened ErrorLines

  // ----- control sequences -----

  lemma {:induction false} SequenceEnds(p: string, f: char, b: string)
    requires (forall i :: 0 <= i < |p| ==> !('@' <= p[i] <= '~')) && '@' <= f <= '~'
    ensures AfterFinal(p + [f] + b) == b
  {
    if p == "" {
      assert (p + [f] + b)[1..] == b;
    } else {
      assert (p + [f] + b)[1..] == p[1..] + [f] + b;
      SequenceEnds(p[1..], f, b);
    }
  }

  lemma {:induction false} SequenceNeverEnds(p: string)
    requires forall i :: 0 <= i < |p| ==> !('@' <= p[i] <= '~')
    ensures AfterFinal(p) == ""
  {
    if p != "" { SequenceNeverEnds(p[1..]); }
  }

  lemma {:induction false} PlainAhead(a: string, s: string)
    requires '\U{1B}' !in a
    ensures WithoutAnsi(a + s) == a + WithoutAnsi(s)
  {
    if a == "" {
      assert a + s == s;
    } else {
      assert (a + s)[1..] == a[1..] + s;
      PlainAhead(a[1..], s);
      assert a == [a[0]] + a[1..];
    }
  }

  /** A control sequence is dropped whole: escape, bracket, parameters and one final character from `@` to `~`. */
  lemma SequenceIsDropped(a: string, p: string, f: char, b: string)
    requires '\U{1B}' !in a && (forall i :: 0 <= i < |p| ==> !('@' <= p[i] <= '~')) && '@' <= f <= '~'
    ensures WithoutAnsi(a + ['\U{1B}', '['] + p + [f] + b) == a + WithoutAnsi(b)
  {
    var s := ['\U{1B}', '['] + (p + [f] + b);
    assert a + ['\U{1B}', '['] + p + [f] + b == a + s;
    PlainAhead(a, s);
    assert s[2..] == p + [f] + b;
    SequenceEnds(p, f, b);
  }

  /** One that never ends takes the rest of the text with it. */
  lemma OpenSequenceIsDropped(a: string, p: string)
    requires '\U{1B}' !in a && forall i :: 0 <= i < |p| ==> !('@' <= p[i] <= '~')
    ensures WithoutAnsi(a + ['\U{1B}', '['] + p) == a
  {
    var s := ['\U{1B}', '['] + p;
    assert a + ['\U{1B}', '['] + p == a + s && s[2..] == p;
    PlainAhead(a, s);
    SequenceNeverEnds(p);
    assert a + "" == a;
  }

  /** Any other escape is dropped alone. */
  lemma LoneEscapeIsDropped(a: string, b: string)
    requires '\U{1B}' !in a && (b != "" ==> b[0] != '[')
    ensures WithoutAnsi(a + ['\U{1B}'] + b) == a + WithoutAnsi(b)
  {
    var s := ['\U{1B}'] + b;
    assert a + ['\U{1B}'] + b == a + s && s[1..] == b;
    PlainAhead(a, s);
  }

  // ----- one line -----

  /** What ends the leading token of a line. */
  predicate Breaks(cc: Classes, c: char) { c == ':' || c == '(' || cc.space(c) }

  /** A token of letters, digits, underscores and dots with one of the three endings. */
  ghost predicate NamesException(cc: Classes, token: string) {
    && (forall i :: 0 <= i < |token| ==> cc.alnum(token[i]) || token[i] == '_' || token[i] == '.')
    && exists p :: token == p + "Error" || token == p + "Exception" || token == p + "Failed"
  }

  /** A text and what follows its leading token. */
  predicate TokenThenRest(cc: Classes, token: string, rest: string) {
    && (forall i :: 0 <= i < |token| ==> !Breaks(cc, token[i]))
    && (rest != "" ==> Breaks(cc, rest[0]))
  }

  lemma {:induction false} TokenIsFirst(cc: Classes, token: string, rest: string)
    requires TokenThenRest(cc, token, rest)
    ensures FirstToken(cc, token + rest) == token
  {
    if token == "" {
      assert token + rest == rest;
    } else {
      assert (token + rest)[1..] == token[1..] + rest;
      TokenIsFirst(cc, token[1..], rest);
      assert token == [token[0]] + token[1..];
    }
  }

  lemma Ending(token: string, suffix: string)
    ensures EndsWith(token, suffix) <==> exists p :: token == p + suffix
  {
    if EndsWith(token, suffix) { assert token == token[..|token| - |suffix|] + suffix; }
    if p :| token == p + suffix { assert token[|token| - |suffix|..] == suffix; }
  }

  lemma LooksWhenNamed(cc: Classes, token: string, rest: string)
    requires TokenThenRest(cc, token, rest)
    ensures LooksLikeException(cc, token + rest) <==> NamesException(cc, token)
  {
    TokenIsFirst(cc, token, rest);
    Ending(token, "Error");
    Ending(token, "Exception");
    Ending(token, "Failed");
  }

  /** A text as it is reported: trimmed, and cut after 200 characters with an ellipsis. */
  function Reported(cc: Classes, text: string): string {
    var t := Trim(cc.space, text);
    if |t| <= 200 then t else t[..200] + ['\U{2026}']
  }

  lemma RestTrimmed(cc: Classes, token: string, rest: string)
    requires TokenThenRest(cc, token, rest)
    ensures TokenThenRest(cc, token, TrimEnd(cc.space, rest))
    ensures token != "" || TrimEnd(cc.space, rest) != "" ==> TrimEnd(cc.space, token + rest) == token + TrimEnd(cc.space, rest)
  {
    TrimEndLaws(cc.space, rest);
    TrimEndOfConcat(cc.space, token, rest);
    if token != "" { assert Breaks(cc, token[|token| - 1]) || TrimEnd(cc.space, token) == token; }
    assert token + "" == token;
  }

  function ContentOf(cc: Classes, raw: string): string {
    if Classify(cc, raw).Some? then Classify(cc, raw).value.1 else ""
  }

  lemma TextsOfOne(cc: Classes, raw: string, kind: Kind)
    ensures Texts(cc, [raw], kind)
            == if Contributes(cc, raw, kind, Capped(cc, ContentOf(cc, raw))) then [Capped(cc, ContentOf(cc, raw))] else []
  {
    assert [raw][..0] == [];
  }

  /** A text with no blank in front is only trimmed at its end, once. */
  lemma NoBlankInFront(cc: Classes, x: string)
    requires x != "" && !cc.space(x[0])
    ensures TrimEnd(cc.space, x) != "" && TrimEnd(cc.space, x)[0] == x[0]
    ensures Trim(cc.space, x) == TrimEnd(cc.space, x) == Trim(cc.space, TrimEnd(cc.space, x))
  {
    TrimEndLaws(cc.space, x);
  }

  lemma ReportedIs(cc: Classes, x: string)
    requires x != "" && !cc.space(x[0])
    ensures Capped(cc, TrimEnd(cc.space, x)) == Reported(cc, x) != ""
  {
    NoBlankInFront(cc, x);
  }

  /** The line holds something, and no blank stands in front of it. */
  predicate AtMargin(cc: Classes, token: string, rest: string) { token != "" || (rest != "" && !cc.space(rest[0])) }

  /** A lone `E` with more text behind blanks is a marker, not a token. */
  predicate IsMarked(cc: Classes, token: string, rest: string) {
    token == "E" && rest != "" && cc.space(rest[0]) && TrimEnd(cc.space, rest) != ""
  }

  lemma AtMarginClass(cc: Classes, token: string, rest: string)
    requires TokenThenRest(cc, token, rest) && AtMargin(cc, token, rest) && !IsMarked(cc, token, rest)
    ensures Classify(cc, token + rest)
            == if token != "" && NamesException(cc, token) then Some((TypedError, TrimEnd(cc.space, token + rest))) else None
  {
    var x, end := token + rest, TrimEnd(cc.space, rest);
    assert x[0] == if token != "" then token[0] else rest[0];
    NoBlankInFront(cc, x);
    TrimEndLaws(cc.space, rest);
    RestTrimmed(cc, token, rest);
    if token == "" { NoBlankInFront(cc, rest); }
    var line := token + end;
    assert TrimEnd(cc.space, x) == line;
    assert |token| > 1 ==> line[1] == token[1];
    assert |token| == 1 && end != "" ==> line[1] == end[0] == rest[0];
    assert PytestMarker(cc, line).None?;
    LooksWhenNamed(cc, token, end);
  }

  /** A line at the margin is reported as typed exactly when its leading token names an exception, and never as untyped. */
  lemma LineAtMargin(cc: Classes, token: string, rest: string)
    requires TokenThenRest(cc, token, rest) && AtMargin(cc, token, rest) && !IsMarked(cc, token, rest)
    ensures Texts(cc, [token + rest], TypedError)
            == if token != "" && NamesException(cc, token) then [Reported(cc, token + rest)] else []
    ensures Texts(cc, [token + rest], UntypedError) == []
  {
    AtMarginClass(cc, token, rest);
    assert (token + rest)[0] == if token != "" then token[0] else rest[0];
    ReportedIs(cc, token + rest);
    TextsOfOne(cc, token + rest, TypedError);
    TextsOfOne(cc, token + rest, UntypedError);
  }

  lemma {:induction false} BlanksTrimmed(space: char -> bool, blanks: string, x: string)
    requires (forall i :: 0 <= i < |blanks| ==> space(blanks[i])) && x != "" && !space(x[0])
    ensures TrimStart(space, blanks + x) == x
  {
    if blanks == "" {
      assert blanks + x == x;
    } else {
      assert (blanks + x)[1..] == blanks[1..] + x;
      BlanksTrimmed(space, blanks[1..], x);
    }
  }

  lemma MarkerFound(cc: Classes, blanks: string, content: string)
    requires blanks != "" && forall i :: 0 <= i < |blanks| ==> cc.space(blanks[i])
    requires content != "" && !cc.space(content[0])
    ensures PytestMarker(cc, "E" + blanks + content) == Some(content)
  {
    var line := "E" + blanks + content;
    assert line[1] == blanks[0] && line[1..] == blanks + content;
    BlanksTrimmed(cc.space, blanks, content);
  }

  lemma MarkedClass(cc: Classes, blanks: string, token: string, rest: string)
    requires TokenThenRest(cc, token, rest) && AtMargin(cc, token, rest)
    requires blanks != "" && forall i :: 0 <= i < |blanks| ==> cc.space(blanks[i])
    ensures Classify(cc, "E" + blanks + (token + rest))
            == Some((if token != "" && NamesException(cc, token) then TypedError else UntypedError, TrimEnd(cc.space, token + rest)))
  {
    var x, end := token + rest, TrimEnd(cc.space, rest);
    assert x[0] == if token != "" then token[0] else rest[0];
    NoBlankInFront(cc, x);
    RestTrimmed(cc, token, rest);
    if token == "" { NoBlankInFront(cc, rest); }
    TrimEndOfConcat(cc.space, "E" + blanks, x);
    assert TrimEnd(cc.space, "E" + blanks + x) == "E" + blanks + (token + end);
    MarkerFound(cc, blanks, token + end);
    LooksWhenNamed(cc, token, end);
  }

  /** Behind a marker every text is reported: as typed exactly when its leading token names an exception. */
  lemma LineBehindMarker(cc: Classes, blanks: string, token: string, rest: string)
    requires TokenThenRest(cc, token, rest) && AtMargin(cc, token, rest)
    requires blanks != "" && forall i :: 0 <= i < |blanks| ==> cc.space(blanks[i])
    ensures var typed := token != "" && NamesException(cc, token);
            && Texts(cc, ["E" + blanks + (token + rest)], TypedError) == (if typed then [Reported(cc, token + rest)] else [])
            && Texts(cc, ["E" + blanks + (token + rest)], UntypedError) == (if typed then [] else [Reported(cc, token + rest)])
  {
    MarkedClass(cc, blanks, token, rest);
    assert (token + rest)[0] == if token != "" then token[0] else rest[0];
    ReportedIs(cc, token + rest);
    TextsOfOne(cc, "E" + blanks + (token + rest), TypedError);
    TextsOfOne(cc, "E" + blanks + (token + rest), UntypedError);
  }

  /** A line that begins with a blank, or holds nothing, reports nothing. */
  lemma IndentedLine(cc: Classes, raw: string, kind: Kind)
    requires !cc.space('E') && (raw == "" || cc.space(raw[0]))
    ensures Texts(cc, [raw], kind) == []
  {
    TrimEndLaws(cc.space, raw);
    var line := TrimEnd(cc.space, raw);
    assert line != "" ==> line[0] == raw[0];
    assert line == "" ==> FirstToken(cc, line) == "";
    TextsOfOne(cc, raw, kind);
  }

  /** Of the typed texts, or else of the untyped ones, the first five different ones are the answer. */
  lemma FiveAreReported(cc: Classes, lines: seq<string>)
    ensures var typed, untyped := Distinct(Texts(cc, lines, TypedError)), Distinct(Texts(cc, lines, UntypedError));
            var all := if typed == [] then untyped else typed;
            ErrorLinesOf(cc, lines) <= all && |ErrorLinesOf(cc, lines)| == if |all| < 5 then |all| else 5
  {
  }
}
