/** Counting the tool calls of a parsed trace, and the one order the counts are listed in. */
module ToolCounts {
  import opened Wrappers
  import opened Ordering
  import opened Lines
  import opened Counting

  datatype Value =
    | Null
    | Bool(flag: bool)
    | Number(n: int)
    | Str(text: string)
    | Array(items: seq<Value>)
    | Object(fields: map<string, Value>)

  function Get(v: Value, key: string): Option<Value> {
    if v.Object? && key in v.fields then Some(v.fields[key]) else None
  }

  function GetIn(v: Option<Value>, key: string): Option<Value> { if v.Some? then Get(v.value, key) else None }

  /** The items of an array-valued field; anything else has none. */
  function Items(v: Value, key: string): seq<Value> {
    var field := Get(v, key);
    if field.Some? && field.value.Array? then field.value.items else []
  }

  function AsStr(v: Option<Value>): Option<string> {
    if v.Some? && v.value.Str? then Some(v.value.text) else None
  }

  /** The tool a span calls: only a `tool_call` span with a textual name calls one. */
  function ToolOf(span: Value): Option<string> {
    var kind := Get(span, "kind");
    if AsStr(GetIn(kind, "kind")) != Some("tool_call") then None
    else AsStr(GetIn(GetIn(kind, "begin"), "tool_name"))
  }

  // ----- the calls of a trace, in document order -----

  function CallOf(span: Value): seq<string> { if ToolOf(span).Some? then [ToolOf(span).value] else [] }

  function CallsOfSpans(spans: seq<Value>): seq<string> {
    if spans == [] then [] else CallsOfSpans(spans[..|spans| - 1]) + CallOf(spans[|spans| - 1])
  }

  function CallsOfSteps(steps: seq<Value>): seq<string> {
    if steps == [] then []
    else CallsOfSteps(steps[..|steps| - 1]) + CallsOfSpans(Items(steps[|steps| - 1], "spans"))
  }

  function CallsOfTurns(turns: seq<Value>): seq<string> {
    if turns == [] then []
    else CallsOfTurns(turns[..|turns| - 1]) + CallsOfSteps(Items(turns[|turns| - 1], "steps"))
  }

  function Calls(trace: Value): seq<string> { CallsOfTurns(Items(trace, "turns")) }

  // ----- the listing -----

  type Row = (string, nat)

  /** Higher counts first, names ascending among equals. */
  const BY_COUNT: (Row, Row) -> bool :=
    (a: Row, b: Row) => a.1 > b.1 || (a.1 == b.1 && STRING_LE(a.0, b.0))

  lemma RowsAreOrdered()
    ensures TotalOrder(BY_COUNT)
  {
    StringsAreOrdered();
    forall a, b ensures BY_COUNT(a, b) || BY_COUNT(b, a) { assert STRING_LE(a.0, b.0) || STRING_LE(b.0, a.0); }
    forall a, b | BY_COUNT(a, b) && BY_COUNT(b, a) ensures a == b { }
    forall a, b, c | BY_COUNT(a, b) && BY_COUNT(b, c) ensures BY_COUNT(a, c) {
      assert STRING_LE(a.0, b.0) && STRING_LE(b.0, c.0) ==> STRING_LE(a.0, c.0);
    }
  }

  function RowsOf(names: seq<string>): (r: set<Row>) { set n | n in names :: (n, multiset(names)[n]) }

  /** Each called tool once with its number of calls, in the one listing order. */
  ghost function Tally(names: seq<string>): seq<Row> { InOrder(BY_COUNT, RowsOf(names)) }

  function Total(rows: seq<Row>): nat { if rows == [] then 0 else rows[0].1 + Total(rows[1..]) }

  ghost predicate OncePerName(rows: seq<Row>) {
    forall i, j :: 0 <= i < j < |rows| ==> rows[i].0 != rows[j].0
  }

  ghost predicate Counts(rows: seq<Row>, m: multiset<string>) {
    && OncePerName(rows)
    && (forall i :: 0 <= i < |rows| ==> rows[i].1 == m[rows[i].0])
    && (forall n :: n in m ==> Named(n, rows))
  }

  lemma {:induction false} TotalOfCounts(rows: seq<Row>, m: multiset<string>)
    requires Counts(rows, m)
    ensures Total(rows) == |m|
  {
    if rows == [] {
      assert forall n :: n in m ==> Named(n, rows);
      assert m == multiset{};
    } else {
      var n, c := rows[0].0, rows[0].1;
      var rest := m[n := 0];
      forall k | k in rest ensures Named(k, rows[1..]) {
        assert Named(k, rows);
        var i :| 0 <= i < |rows| && rows[i].0 == k;
        assert rows[1..][i - 1].0 == k;
      }
      TotalOfCounts(rows[1..], rest);
      assert m == rest + multiset{}[n := c];
    }
  }

  lemma ArrangementCounts(names: seq<string>, rows: seq<Row>)
    requires multiset(rows) == multiset(RowsOf(names))
    ensures Counts(rows, multiset(names))
  {
    forall i | 0 <= i < |rows| ensures rows[i] in RowsOf(names) { assert rows[i] in multiset(rows); }
    forall i, j | 0 <= i < j < |rows| ensures rows[i].0 != rows[j].0 {
      if rows[i].0 == rows[j].0 {
        assert rows[i] == rows[j];
        TwiceInSequence(rows, i, j);
      }
    }
    forall n | n in multiset(names) ensures Named(n, rows) {
      var row := (n, multiset(names)[n]);
      assert row in RowsOf(names) && row in multiset(rows);
      var i :| 0 <= i < |rows| && rows[i] == row;
      assert rows[i].0 == n;
    }
  }

  /** The listing names each called tool once, sums to the calls, and is the only sorted one. */
  lemma TallyLaws(names: seq<string>, rows: seq<Row>)
    ensures Counts(Tally(names), multiset(names)) && Total(Tally(names)) == |names|
    ensures Sorted(BY_COUNT, Tally(names))
    ensures Sorted(BY_COUNT, rows) && multiset(rows) == multiset(RowsOf(names)) ==> rows == Tally(names)
  {
    RowsAreOrdered();
    InOrderArranges(BY_COUNT, RowsOf(names));
    ArrangementCounts(names, Tally(names));
    TotalOfCounts(Tally(names), multiset(names));
    if Sorted(BY_COUNT, rows) && multiset(rows) == multiset(RowsOf(names)) {
      SortedIsUnique(BY_COUNT, rows, Tally(names));
    }
  }

  // ----- what is counted, by its place in the trace -----

  /** `item` is the `i`-th entry of the array under `key`. */
  ghost predicate ItemAt(v: Value, key: string, i: nat, item: Value) {
    && v.Object? && key in v.fields && v.fields[key].Array?
    && i < |v.fields[key].items| && v.fields[key].items[i] == item
  }

  ghost predicate FieldIs(v: Value, key: string, field: Value) { v.Object? && key in v.fields && v.fields[key] == field }

  /** An object whose `kind.kind` is "tool_call" and whose `kind.begin.tool_name` is the name. */
  ghost predicate CallsTool(span: Value, name: string) {
    exists kind, begin ::
      && FieldIs(span, "kind", kind) && FieldIs(kind, "kind", Str("tool_call"))
      && FieldIs(kind, "begin", begin) && FieldIs(begin, "tool_name", Str(name))
  }

  ghost predicate SpanCalls(step: Value, k: nat, name: string) {
    exists span :: ItemAt(step, "spans", k, span) && CallsTool(span, name)
  }

  ghost predicate StepCalls(turn: Value, j: nat, k: nat, name: string) {
    exists step :: ItemAt(turn, "steps", j, step) && SpanCalls(step, k, name)
  }

  /** The `k`-th span of the `j`-th step of the `i`-th turn calls the tool. */
  ghost predicate CallAt(trace: Value, i: nat, j: nat, k: nat, name: string) {
    exists turn :: ItemAt(trace, "turns", i, turn) && StepCalls(turn, j, k, name)
  }

  lemma ItemsAre(v: Value, key: string)
    ensures forall i: nat, item :: ItemAt(v, key, i, item) <==> i < |Items(v, key)| && Items(v, key)[i] == item
  {
  }

  lemma CallOfIs(span: Value, name: string)
    ensures CallsTool(span, name) <==> ToolOf(span) == Some(name)
  {
    if ToolOf(span) == Some(name) {
      var kind := span.fields["kind"];
      assert FieldIs(span, "kind", kind) && FieldIs(kind, "begin", kind.fields["begin"]);
    }
  }

  /** As many members, each under a further index. */
  lemma {:induction false} Under<T>(n: nat, inner: set<T>, outer: set<(nat, T)>)
    requires forall p: (nat, T) :: p in outer <==> p.0 == n && p.1 in inner
    ensures |outer| == |inner|
    decreases |inner|
  {
    if inner == {} {
      assert outer == {};
    } else {
      var y :| y in inner;
      assert (n, y) in outer;
      Under(n, inner - {y}, outer - {(n, y)});
    }
  }

  lemma TogetherApart<T>(x: set<T>, y: set<T>)
    requires x !! y
    ensures |x + y| == |x| + |y|
  {
  }

  /** A turn's index, a step's within it and a span's within that. */
  type Place = (nat, (nat, nat))

  ghost predicate PlacesInSpans(spans: seq<Value>, name: string, places: set<nat>) {
    forall k: nat :: k in places <==> k < |spans| && CallsTool(spans[k], name)
  }

  ghost predicate PlacesInSteps(steps: seq<Value>, name: string, places: set<(nat, nat)>) {
    forall p: (nat, nat) :: p in places <==> p.0 < |steps| && SpanCalls(steps[p.0], p.1, name)
  }

  ghost predicate PlacesInTurns(turns: seq<Value>, name: string, places: set<Place>) {
    forall p: Place :: p in places <==> p.0 < |turns| && StepCalls(turns[p.0], p.1.0, p.1.1, name)
  }

  lemma JoinedCount(x: seq<string>, y: seq<string>, name: string)
    ensures multiset(x + y)[name] == multiset(x)[name] + multiset(y)[name]
  {
  }

  lemma OneMoreSpan(spans: seq<Value>, n: nat, name: string, before: set<nat>)
    requires |spans| == n + 1 && PlacesInSpans(spans[..n], name, before)
    ensures PlacesInSpans(spans, name, before + if CallsTool(spans[n], name) then {n} else {})
    ensures n !in before
  {
    assert forall k: nat :: k < n ==> spans[..n][k] == spans[k];
  }

  lemma {:induction false} SpanPlaces(spans: seq<Value>, name: string) returns (places: set<nat>)
    ensures PlacesInSpans(spans, name, places) && |places| == multiset(CallsOfSpans(spans))[name]
  {
    if spans == [] { return {}; }
    var n := |spans| - 1;
    var before := SpanPlaces(spans[..n], name);
    OneMoreSpan(spans, n, name, before);
    CallOfIs(spans[n], name);
    JoinedCount(CallsOfSpans(spans[..n]), CallOf(spans[n]), name);
    places := before + if CallsTool(spans[n], name) then {n} else {};
  }

  lemma SpansOfStep(step: Value, name: string, places: set<nat>)
    requires PlacesInSpans(Items(step, "spans"), name, places)
    ensures forall k: nat :: k in places <==> SpanCalls(step, k, name)
  {
    ItemsAre(step, "spans");
  }

  lemma OneMoreStep(steps: seq<Value>, n: nat, name: string, before: set<(nat, nat)>, inner: set<nat>, here: set<(nat, nat)>)
    requires |steps| == n + 1 && PlacesInSteps(steps[..n], name, before)
    requires forall k: nat :: k in inner <==> SpanCalls(steps[n], k, name)
    requires forall p: (nat, nat) :: p in here <==> p.0 == n && p.1 in inner
    ensures PlacesInSteps(steps, name, before + here) && |before + here| == |before| + |inner|
  {
    assert forall j: nat :: j < n ==> steps[..n][j] == steps[j];
    Under(n, inner, here);
    TogetherApart(before, here);
  }

  lemma {:induction false} StepPlaces(steps: seq<Value>, name: string) returns (places: set<(nat, nat)>)
    ensures PlacesInSteps(steps, name, places) && |places| == multiset(CallsOfSteps(steps))[name]
  {
    if steps == [] { return {}; }
    var n := |steps| - 1;
    var before := StepPlaces(steps[..n], name);
    var inner := SpanPlaces(Items(steps[n], "spans"), name);
    SpansOfStep(steps[n], name, inner);
    var here := set k | k in inner :: (n, k);
    OneMoreStep(steps, n, name, before, inner, here);
    JoinedCount(CallsOfSteps(steps[..n]), CallsOfSpans(Items(steps[n], "spans")), name);
    places := before + here;
  }

  lemma StepsOfTurn(turn: Value, name: string, places: set<(nat, nat)>)
    requires PlacesInSteps(Items(turn, "steps"), name, places)
    ensures forall p: (nat, nat) :: p in places <==> StepCalls(turn, p.0, p.1, name)
  {
    ItemsAre(turn, "steps");
  }

  lemma OneMoreTurn(turns: seq<Value>, n: nat, name: string, before: set<Place>,
                    inner: set<(nat, nat)>, here: set<Place>)
    requires |turns| == n + 1 && PlacesInTurns(turns[..n], name, before)
    requires forall p: (nat, nat) :: p in inner <==> StepCalls(turns[n], p.0, p.1, name)
    requires forall p: Place :: p in here <==> p.0 == n && p.1 in inner
    ensures PlacesInTurns(turns, name, before + here) && |before + here| == |before| + |inner|
  {
    assert forall i: nat :: i < n ==> turns[..n][i] == turns[i];
    Under(n, inner, here);
    TogetherApart(before, here);
  }

  lemma {:induction false} TurnPlaces(turns: seq<Value>, name: string) returns (places: set<Place>)
    ensures PlacesInTurns(turns, name, places) && |places| == multiset(CallsOfTurns(turns))[name]
  {
    if turns == [] { return {}; }
    var n := |turns| - 1;
    var before := TurnPlaces(turns[..n], name);
    var inner := StepPlaces(Items(turns[n], "steps"), name);
    StepsOfTurn(turns[n], name, inner);
    var here := set x | x in inner :: (n, x);
    OneMoreTurn(turns, n, name, before, inner, here);
    JoinedCount(CallsOfTurns(turns[..n]), CallsOfSteps(Items(turns[n], "steps")), name);
    places := before + here;
  }

  /** The places of the trace that call the tool. */
  ghost predicate PlacesOf(trace: Value, name: string, places: set<Place>) {
    forall p: Place :: p in places <==> CallAt(trace, p.0, p.1.0, p.1.1, name)
  }

  /** Each listed count is the number of places that call the tool, and no called tool is missing. */
  ghost predicate CountsPlaces(trace: Value, rows: seq<Row>) {
    && OncePerName(rows)
    && forall name, places :: PlacesOf(trace, name, places) ==>
         && (forall i :: 0 <= i < |rows| && rows[i].0 == name ==> rows[i].1 == |places| > 0)
         && (places != {} ==> Named(name, rows))
  }

  lemma SamePlaces(trace: Value, name: string, x: set<Place>, y: set<Place>)
    requires PlacesOf(trace, name, x) && PlacesOf(trace, name, y)
    ensures x == y
  {
    assert forall p :: p in x <==> p in y;
  }

  lemma TurnsOfTrace(trace: Value, name: string, places: set<Place>)
    requires PlacesInTurns(Items(trace, "turns"), name, places)
    ensures PlacesOf(trace, name, places)
  {
    ItemsAre(trace, "turns");
  }

  /** Every tool has such a set of places, as large as the number of its calls. */
  lemma CallsAreByPlace(trace: Value, name: string) returns (places: set<Place>)
    ensures PlacesOf(trace, name, places) && |places| == multiset(Calls(trace))[name]
  {
    places := TurnPlaces(Items(trace, "turns"), name);
    TurnsOfTrace(trace, name, places);
  }

  lemma TallyCountsPlaces(trace: Value)
    ensures CountsPlaces(trace, Tally(Calls(trace)))
  {
    var rows := Tally(Calls(trace));
    TallyLaws(Calls(trace), rows);
    RowsAreOrdered();
    InOrderArranges(BY_COUNT, RowsOf(Calls(trace)));
    forall i | 0 <= i < |rows| ensures rows[i].0 in Calls(trace) { assert rows[i] in multiset(rows); }
    forall name, places | PlacesOf(trace, name, places)
      ensures forall i :: 0 <= i < |rows| && rows[i].0 == name ==> rows[i].1 == |places| > 0
      ensures places != {} ==> Named(name, rows)
    {
      var same := CallsAreByPlace(trace, name);
      SamePlaces(trace, name, places, same);
    }
  }

  // ----- the counting loops -----

  method CountSpan(counts: map<string, nat>, span: Value, ghost before: seq<string>) returns (r: map<string, nat>)
    requires Counted(counts, before)
    ensures Counted(r, before + CallOf(span))
  {
    r := counts;
    assert before + [] == before;
    var kind := Get(span, "kind");
    if AsStr(GetIn(kind, "kind")) != Some("tool_call") { return; }
    var name := AsStr(GetIn(GetIn(kind, "begin"), "tool_name"));
    if name.Some? {
      CountedOneMore(counts, before, name.value);
      r := Incremented(counts, name.value);
    }
  }

  method CountSpans(counts: map<string, nat>, spans: seq<Value>, ghost before: seq<string>) returns (r: map<string, nat>)
    requires Counted(counts, before)
    ensures Counted(r, before + CallsOfSpans(spans))
  {
    r := counts;
    assert before + [] == before;
    for i := 0 to |spans|
      invariant Counted(r, before + CallsOfSpans(spans[..i]))
    {
      assert spans[..i + 1][..i] == spans[..i];
      r := CountSpan(r, spans[i], before + CallsOfSpans(spans[..i]));
      Assoc(before, CallsOfSpans(spans[..i]), CallOf(spans[i]));
    }
    assert spans[..|spans|] == spans;
  }

  method CountSteps(counts: map<string, nat>, steps: seq<Value>, ghost before: seq<string>) returns (r: map<string, nat>)
    requires Counted(counts, before)
    ensures Counted(r, before + CallsOfSteps(steps))
  {
    r := counts;
    assert before + [] == before;
    for i := 0 to |steps|
      invariant Counted(r, before + CallsOfSteps(steps[..i]))
    {
      assert steps[..i + 1][..i] == steps[..i];
      r := CountSpans(r, Items(steps[i], "spans"), before + CallsOfSteps(steps[..i]));
      Assoc(before, CallsOfSteps(steps[..i]), CallsOfSpans(Items(steps[i], "spans")));
    }
    assert steps[..|steps|] == steps;
  }

  lemma ListedRows(counts: map<string, nat>, names: seq<string>, rows: seq<Row>)
    requires Counted(counts, names) && Lists(rows, counts, counts.Keys)
    ensures multiset(rows) == multiset(RowsOf(names))
  {
    forall row: Row ensures row in rows <==> row in RowsOf(names) {
      if row in RowsOf(names) {
        assert Named(row.0, rows);
        var i :| 0 <= i < |rows| && rows[i].0 == row.0;
        assert rows[i] == row;
      }
    }
    DistinctIsSet(rows, RowsOf(names));
  }

  method CountToolsInTrace(trace: Value) returns (out: seq<Row>)
    ensures out == Tally(Calls(trace)) && CountsPlaces(trace, out)
  {
    var counts: map<string, nat> := map[];
    var turns := Items(trace, "turns");
    for i := 0 to |turns|
      invariant Counted(counts, CallsOfTurns(turns[..i]))
    {
      assert turns[..i + 1][..i] == turns[..i];
      counts := CountSteps(counts, Items(turns[i], "steps"), CallsOfTurns(turns[..i]));
    }
    assert turns[..|turns|] == turns;
    var rows := ListRows(counts, counts.Keys);
    out := Sort(BY_COUNT, rows);
    ListedRows(counts, Calls(trace), rows);
    RowsAreOrdered();
    SortGivesInOrder(BY_COUNT, rows, RowsOf(Calls(trace)));
    TallyCountsPlaces(trace);
  }
}
