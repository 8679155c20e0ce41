/** Pulling the concrete exception lines out of a test log, escape sequences removed first. */
module ErrorLines {
  import opened Wrappers
  import opened Lines

  const MAX_ERROR_LINES := 5

  const MAX_ERROR_LINE_LEN := 200

  const ESC: char := '\U{1B}'

  const ELLIPSIS: char := '\U{2026}'

  // ----- control sequences -----

  predicate FinalByte(c: char) { '@' <= c <= '~' }

  /** What follows a control sequence's final byte; nothing when it never ends. */
  function AfterFinal(s: string): (r: string)
    ensures |r| <= |s|
  {
    if s == "" then "" else if FinalByte(s[0]) then s[1..] else AfterFinal(s[1..])
  }

  /** Text without control sequences; an escape that introduces none is dropped alone. */
  function WithoutAnsi(s: string): string
    decreases |s|
  {
    if s == "" then ""
    else if s[0] != ESC then [s[0]] + WithoutAnsi(s[1..])
    else if |s| > 1 && s[1] == '[' then WithoutAnsi(AfterFinal(s[2..]))
    else WithoutAnsi(s[1..])
  }

  method StripAnsi(s: string) returns (out: string)
    ensures out == WithoutAnsi(s)
  {
    out := "";
    var i := 0;
    while i < |s|
      invariant i <= |s|
      invariant out + WithoutAnsi(s[i..]) == WithoutAnsi(s)
      decreases |s| - i
    {
      assert s[i..][1..] == s[i + 1..];
      if s[i] != ESC {
        Assoc(out, [s[i]], WithoutAnsi(s[i + 1..]));
        out := out + [s[i]];
        i := i + 1;
      } else if i + 1 < |s| && s[i + 1] == '[' {
        assert s[i..][2..] == s[i + 2..];
        var k := i + 2;
        while k < |s| && !FinalByte(s[k])
          invariant i + 2 <= k <= |s|
          invariant AfterFinal(s[k..]) == AfterFinal(s[i + 2..])
        {
          assert s[k..][1..] == s[k + 1..];
          k := k + 1;
        }
        if k < |s| {
          assert s[k..][1..] == s[k + 1..];
          k := k + 1;
        }
        i := k;
      } else {
        i := i + 1;
      }
    }
  }

  predicate Subsequence(x: string, y: string) {
    x == "" || (y != "" && (Subsequence(x, y[1..]) || (x[0] == y[0] && Subsequence(x[1..], y[1..]))))
  }

  lemma {:induction false} SubsequenceOfSuffix(x: string, y: string, n: nat)
    requires n <= |y| && Subsequence(x, y[n..])
    ensures Subsequence(x, y)
    decreases n
  {
    if n == 0 {
      assert y[0..] == y;
    } else {
      assert y[n - 1..][1..] == y[n..];
      SubsequenceOfSuffix(x, y, n - 1);
    }
  }

  lemma {:induction false} AfterFinalIsSuffix(s: string)
    ensures AfterFinal(s) == s[|s| - |AfterFinal(s)|..]
  {
    if s != "" && !FinalByte(s[0]) {
      AfterFinalIsSuffix(s[1..]);
      var r := AfterFinal(s[1..]);
      assert s[1..][|s| - 1 - |r|..] == s[|s| - |r|..];
    }
  }

  /** The pass leaves no escape, only drops characters, keeps escape-free text and is idempotent. */
  lemma {:induction false} WithoutAnsiLaws(s: string)
    ensures ESC !in WithoutAnsi(s)
    ensures Subsequence(WithoutAnsi(s), s)
    ensures ESC !in s ==> WithoutAnsi(s) == s
    decreases |s|
  {
    if s != "" {
      if s[0] != ESC {
        WithoutAnsiLaws(s[1..]);
        assert s == [s[0]] + s[1..];
        assert WithoutAnsi(s)[1..] == WithoutAnsi(s[1..]);
      } else if |s| > 1 && s[1] == '[' {
        var r := AfterFinal(s[2..]);
        WithoutAnsiLaws(r);
        AfterFinalIsSuffix(s[2..]);
        assert r == s[|s| - |r|..];
        SubsequenceOfSuffix(WithoutAnsi(r), s, |s| - |r|);
      } else {
        WithoutAnsiLaws(s[1..]);
        SubsequenceOfSuffix(WithoutAnsi(s[1..]), s, 1);
      }
    }
  }

  lemma WithoutAnsiIdempotent(s: string)
    ensures WithoutAnsi(WithoutAnsi(s)) == WithoutAnsi(s)
  {
    WithoutAnsiLaws(s);
    WithoutAnsiLaws(WithoutAnsi(s));
  }

  // ----- line shapes -----

  datatype Classes = Classes(space: char -> bool, alnum: char -> bool)

  /** The content after a leading `E` and blanks. */
  function PytestMarker(cc: Classes, line: string): Option<string> {
    if line != "" && line[0] == 'E' && |line| > 1 && cc.space(line[1]) then
      var t := TrimStart(cc.space, line[1..]);
      if t == "" then None else Some(t)
    else None
  }

  function FirstToken(cc: Classes, s: string): string {
    if s == "" || s[0] == ':' || s[0] == '(' || cc.space(s[0]) then "" else [s[0]] + FirstToken(cc, s[1..])
  }

  predicate LooksLikeException(cc: Classes, text: string) {
    var token := FirstToken(cc, text);
    && token != ""
    && (forall i :: 0 <= i < |token| ==> cc.alnum(token[i]) || token[i] == '_' || token[i] == '.')
    && (EndsWith(token, "Error") || EndsWith(token, "Exception") || EndsWith(token, "Failed"))
  }

  datatype Kind = TypedError | UntypedError

  /** What a line contributes: a typed exception, an untyped pytest line, or nothing. */
  function Classify(cc: Classes, raw: string): Option<(Kind, string)> {
    var line := TrimEnd(cc.space, raw);
    match PytestMarker(cc, line)
    case Some(content) => Some((if LooksLikeException(cc, content) then TypedError else UntypedError, content))
    case None =>
      if !(line != "" && cc.space(line[0])) && LooksLikeException(cc, line) then Some((TypedError, line)) else None
  }

  function TruncateChars(s: string, max: nat): string {
    if |s| <= max then s else s[..max] + [ELLIPSIS]
  }

  function Capped(cc: Classes, content: string): string {
    TruncateChars(Trim(cc.space, content), MAX_ERROR_LINE_LEN)
  }

  // ----- the specification -----

  /** The non-empty capped texts of one kind, in line order. */
  function Texts(cc: Classes, lines: seq<string>, kind: Kind): seq<string> {
    if lines == [] then []
    else
      var last := Classify(cc, lines[|lines| - 1]);
      Texts(cc, lines[..|lines| - 1], kind)
      + (if last.Some? && last.value.0 == kind && Capped(cc, last.value.1) != "" then [Capped(cc, last.value.1)] else [])
  }

  predicate Contributes(cc: Classes, raw: string, kind: Kind, t: string) {
    t != "" && Classify(cc, raw).Some? && Classify(cc, raw).value.0 == kind && Capped(cc, Classify(cc, raw).value.1) == t
  }

  ghost predicate SomeLineHas(cc: Classes, lines: seq<string>, kind: Kind, t: string) {
    exists i :: 0 <= i < |lines| && Contributes(cc, lines[i], kind, t)
  }

  lemma SomeLineOfMore(cc: Classes, lines: seq<string>, raw: string, kind: Kind, t: string)
    ensures SomeLineHas(cc, lines + [raw], kind, t) <==> SomeLineHas(cc, lines, kind, t) || Contributes(cc, raw, kind, t)
  {
    var now := lines + [raw];
    assert now[|lines|] == raw;
    assert forall i :: 0 <= i < |lines| ==> now[i] == lines[i];
    if SomeLineHas(cc, lines, kind, t) {
      var i :| 0 <= i < |lines| && Contributes(cc, lines[i], kind, t);
      assert Contributes(cc, now[i], kind, t);
    }
  }

  /** Every reported text is some line's capped content, and every such content is among the texts. */
  lemma {:induction false} TextsMean(cc: Classes, lines: seq<string>, kind: Kind, t: string)
    ensures t in Texts(cc, lines, kind) <==> SomeLineHas(cc, lines, kind, t)
  {
    if lines != [] {
      var n := |lines| - 1;
      TextsMean(cc, lines[..n], kind, t);
      assert lines == lines[..n] + [lines[n]];
      SomeLineOfMore(cc, lines[..n], lines[n], kind, t);
    }
  }

  /** First occurrences only, in order. */
  function Distinct(ts: seq<string>): seq<string> {
    if ts == [] then []
    else
      var before, last := Distinct(ts[..|ts| - 1]), ts[|ts| - 1];
      if last in before then before else before + [last]
  }

  function FirstFive(ts: seq<string>): seq<string> { if |ts| <= MAX_ERROR_LINES then ts else ts[..MAX_ERROR_LINES] }

  /** The first five distinct typed lines or, when there are none, the first five distinct untyped ones. */
  function ErrorLinesOf(cc: Classes, lines: seq<string>): seq<string> {
    var typed := FirstFive(Distinct(Texts(cc, lines, TypedError)));
    if typed == [] then FirstFive(Distinct(Texts(cc, lines, UntypedError))) else typed
  }

  lemma {:induction false} DistinctMeans(ts: seq<string>)
    ensures forall t :: t in Distinct(ts) <==> t in ts
    ensures forall i, j :: 0 <= i < j < |Distinct(ts)| ==> Distinct(ts)[i] != Distinct(ts)[j]
  {
    if ts != [] {
      DistinctMeans(ts[..|ts| - 1]);
      assert ts == ts[..|ts| - 1] + [ts[|ts| - 1]];
    }
  }

  /** Later lines never disturb the distinct texts found so far. */
  lemma {:induction false} DistinctGrows(x: seq<string>, y: seq<string>)
    ensures Distinct(x) <= Distinct(x + y)
    decreases |y|
  {
    if y == [] {
      assert x + y == x;
    } else {
      DistinctGrows(x, y[..|y| - 1]);
      assert (x + y)[..|x + y| - 1] == x + y[..|y| - 1];
    }
  }

  lemma {:induction false} TextsConcat(cc: Classes, x: seq<string>, y: seq<string>, kind: Kind)
    ensures Texts(cc, x + y, kind) == Texts(cc, x, kind) + Texts(cc, y, kind)
    decreases |y|
  {
    if y == [] {
      assert x + y == x;
    } else {
      TextsConcat(cc, x, y[..|y| - 1], kind);
      assert (x + y)[..|x + y| - 1] == x + y[..|y| - 1];
    }
  }

  lemma FiveOfMore(x: seq<string>, y: seq<string>)
    requires |x| == MAX_ERROR_LINES && x <= y
    ensures FirstFive(y) == x
  {
  }

  lemma {:induction false} EarlyStopIsSafe(cc: Classes, lines: seq<string>, n: nat)
    requires n <= |lines| && |Distinct(Texts(cc, lines[..n], TypedError))| == MAX_ERROR_LINES
    ensures FirstFive(Distinct(Texts(cc, lines, TypedError))) == Distinct(Texts(cc, lines[..n], TypedError))
  {
    var x, y := Texts(cc, lines[..n], TypedError), Texts(cc, lines[n..], TypedError);
    assert lines == lines[..n] + lines[n..];
    TextsConcat(cc, lines[..n], lines[n..], TypedError);
    DistinctGrows(x, y);
    FiveOfMore(Distinct(x), Distinct(x + y));
  }

  lemma {:induction false} TextsAreCapped(cc: Classes, lines: seq<string>, kind: Kind)
    ensures forall t :: t in Texts(cc, lines, kind) ==> 0 < |t| <= MAX_ERROR_LINE_LEN + 1
  {
    if lines != [] { TextsAreCapped(cc, lines[..|lines| - 1], kind); }
  }

  /** The result holds at most five lines, all different, each no longer than the cap and its ellipsis. */
  lemma ErrorLinesBounded(cc: Classes, lines: seq<string>)
    ensures var r := ErrorLinesOf(cc, lines);
            && |r| <= MAX_ERROR_LINES
            && (forall i, j :: 0 <= i < j < |r| ==> r[i] != r[j])
            && (forall i :: 0 <= i < |r| ==> 0 < |r[i]| <= MAX_ERROR_LINE_LEN + 1)
  {
    DistinctMeans(Texts(cc, lines, TypedError));
    DistinctMeans(Texts(cc, lines, UntypedError));
    TextsAreCapped(cc, lines, TypedError);
    TextsAreCapped(cc, lines, UntypedError);
    var r := ErrorLinesOf(cc, lines);
    forall i | 0 <= i < |r| ensures 0 < |r[i]| <= MAX_ERROR_LINE_LEN + 1 {
      assert r[i] in Texts(cc, lines, TypedError) || r[i] in Texts(cc, lines, UntypedError);
    }
  }

  // ----- the extraction loop -----

  function Pushed(cc: Classes, out: seq<string>, text: string): seq<string> {
    var t := Capped(cc, text);
    if t == "" || t in out then out else out + [t]
  }

  /** Appends a trimmed, capped, new text; reports whether the list is full. */
  method PushCapped(cc: Classes, out: seq<string>, text: string) returns (out': seq<string>, full: bool)
    ensures out' == Pushed(cc, out, text)
    ensures full == (|out'| >= MAX_ERROR_LINES)
  {
    var t := TruncateChars(Trim(cc.space, text), MAX_ERROR_LINE_LEN);
    out' := out;
    if t != "" && t !in out { out' := out + [t]; }
    full := |out'| >= MAX_ERROR_LINES;
  }

  predicate Holds(found: Option<(Kind, string)>, kind: Kind) { found.Some? && found.value.0 == kind }

  /** The two lists once the lines read so far are in; `primary` is not full yet. */
  ghost predicate Gathered(cc: Classes, lines: seq<string>, primary: seq<string>, fallback: seq<string>) {
    && primary == Distinct(Texts(cc, lines, TypedError))
    && fallback == FirstFive(Distinct(Texts(cc, lines, UntypedError)))
  }

  method TakeLine(cc: Classes, primary: seq<string>, fallback: seq<string>, raw: string)
    returns (primary': seq<string>, fallback': seq<string>, full: bool)
    ensures var found := Classify(cc, raw);
            && primary' == (if Holds(found, TypedError) then Pushed(cc, primary, found.value.1) else primary)
            && fallback' == (if Holds(found, UntypedError) && |fallback| < MAX_ERROR_LINES
                             then Pushed(cc, fallback, found.value.1) else fallback)
            && full == (Holds(found, TypedError) && |primary'| >= MAX_ERROR_LINES)
  {
    primary', fallback', full := primary, fallback, false;
    var line := TrimEnd(cc.space, raw);
    var marker := PytestMarker(cc, line);
    if marker.Some? {
      if LooksLikeException(cc, marker.value) {
        primary', full := PushCapped(cc, primary, marker.value);
      } else if |fallback| < MAX_ERROR_LINES {
        var untypedFull;
        fallback', untypedFull := PushCapped(cc, fallback, marker.value);
      }
    } else if !(line != "" && cc.space(line[0])) && LooksLikeException(cc, line) {
      primary', full := PushCapped(cc, primary, line);
    }
  }

  lemma OneMoreText(cc: Classes, lines: seq<string>, raw: string, kind: Kind)
    ensures var found, before := Classify(cc, raw), Distinct(Texts(cc, lines, kind));
            Distinct(Texts(cc, lines + [raw], kind))
            == if Holds(found, kind) then Pushed(cc, before, found.value.1) else before
  {
    var found, now := Classify(cc, raw), lines + [raw];
    assert now[..|now| - 1] == lines && now[|now| - 1] == raw;
    var ts := Texts(cc, lines, kind);
    if Holds(found, kind) && Capped(cc, found.value.1) != "" {
      assert (ts + [Capped(cc, found.value.1)])[..|ts|] == ts;
    } else {
      assert Texts(cc, now, kind) == ts;
    }
  }

  lemma GatherOne(cc: Classes, lines: seq<string>, raw: string, primary: seq<string>, fallback: seq<string>)
    requires Gathered(cc, lines, primary, fallback)
    ensures var found := Classify(cc, raw);
            var p := if Holds(found, TypedError) then Pushed(cc, primary, found.value.1) else primary;
            var f := if Holds(found, UntypedError) && |fallback| < MAX_ERROR_LINES
                     then Pushed(cc, fallback, found.value.1) else fallback;
            Gathered(cc, lines + [raw], p, f)
  {
    OneMoreText(cc, lines, raw, TypedError);
    OneMoreText(cc, lines, raw, UntypedError);
    var all, now := Distinct(Texts(cc, lines, UntypedError)), Distinct(Texts(cc, lines + [raw], UntypedError));
    if |all| >= MAX_ERROR_LINES { assert FirstFive(now) == FirstFive(all); }
  }

  method GatherLine(cc: Classes, lines: seq<string>, i: nat, primary: seq<string>, fallback: seq<string>)
    returns (primary': seq<string>, fallback': seq<string>, full: bool)
    requires i < |lines| && Gathered(cc, lines[..i], primary, fallback) && |primary| < MAX_ERROR_LINES
    ensures Gathered(cc, lines[..i + 1], primary', fallback')
    ensures |primary'| <= MAX_ERROR_LINES && full == (|primary'| == MAX_ERROR_LINES)
  {
    assert lines[..i + 1] == lines[..i] + [lines[i]];
    GatherOne(cc, lines[..i], lines[i], primary, fallback);
    primary', fallback', full := TakeLine(cc, primary, fallback, lines[i]);
  }

  /** The early stop and the end of the log both yield what the whole log asks for. */
  lemma GatheredIsTheAnswer(cc: Classes, lines: seq<string>, n: nat, primary: seq<string>, fallback: seq<string>)
    requires n <= |lines| && Gathered(cc, lines[..n], primary, fallback)
    requires |primary| == MAX_ERROR_LINES || (n == |lines| && |primary| < MAX_ERROR_LINES)
    ensures ErrorLinesOf(cc, lines) == if primary == [] then fallback else primary
  {
    if |primary| == MAX_ERROR_LINES { EarlyStopIsSafe(cc, lines, n); } else { assert lines[..n] == lines; }
  }

  method ExtractErrorLines(cc: Classes, log: string) returns (r: seq<string>)
    ensures r == ErrorLinesOf(cc, TextLines(WithoutAnsi(log)))
  {
    var clean := StripAnsi(log);
    var lines := TextLines(clean);
    var primary: seq<string>, fallback: seq<string> := [], [];
    for i := 0 to |lines|
      invariant Gathered(cc, lines[..i], primary, fallback) && |primary| < MAX_ERROR_LINES
    {
      var full;
      primary, fallback, full := GatherLine(cc, lines, i, primary, fallback);
      if full {
        GatheredIsTheAnswer(cc, lines, i + 1, primary, fallback);
        return primary;
      }
    }
    GatheredIsTheAnswer(cc, lines, |lines|, primary, fallback);
    r := if primary == [] then fallback else primary;
  }
}
