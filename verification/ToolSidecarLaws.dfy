/** When a count file can be trusted: over sweeps, trace changes and broken writes. */
module ToolSidecarLaws {
  import opened Wrappers
  import opened Lines
  import opened Ordering
  import opened ToolCounts
  import opened ToolSidecars

  ghost predicate HonestAt(f: Files, sd: Serde, t: Path)
    requires t in f && IsTrace(t)
  {
    var trace := sd.parse(f[t].content);
    Current(f, t) && trace.Some? ==> f[SidecarPath(t)].content == Body(sd, trace.value)
  }

  /** A sidecar that counts as current holds exactly its trace's counts. */
  ghost predicate Honest(f: Files, sd: Serde) { forall t :: t in f && IsTrace(t) ==> HonestAt(f, sd, t) }

  /** What the list view shows for a trace; a missing or malformed sidecar reads as no rows. */
  function ReadCounts(f: Files, sd: Serde, t: Path): seq<Row>
    requires t != []
  {
    var s := SidecarPath(t);
    if s !in f then []
    else
      var v := sd.parse(f[s].content);
      if v.None? then [] else
        var rows := RowsFrom(v.value);
        if rows.None? then [] else rows.value
  }

  /** A write of this trace's sidecar stopped early, recent enough to look current, on the wrong text. */
  ghost predicate Spoiled(f: Files, sd: Serde, fates: Path -> Fate, t: Path) {
    && Wants(f, sd, t)
    && fates(SidecarPath(t)).Torn?
    && fates(SidecarPath(t)).at >= f[t].mtime
    && fates(SidecarPath(t)).left != Body(sd, sd.parse(f[t].content).value)
  }

  lemma SweptTrace(f: Files, g: Files, sd: Serde, fates: Path -> Fate, traces: set<Path>, t: Path)
    requires Swept(f, g, sd, fates, traces) && IsTrace(t) && forall u :: u in traces ==> IsTrace(u)
    ensures Lookup(g, t) == Lookup(f, t)
    ensures Lookup(g, SidecarPath(t)) == if t in traces then SidecarAfter(f, sd, fates, t) else Lookup(f, SidecarPath(t))
  {
    SidecarsOf(traces, t);
  }

  /** A sweep keeps every current sidecar right exactly when no torn write left wrong text that looks current. */
  lemma {:induction false} SweepKeepsHonestIff(f: Files, g: Files, sd: Serde, fates: Path -> Fate, traces: set<Path>)
    requires Swept(f, g, sd, fates, traces) && Honest(f, sd) && forall t :: t in traces ==> IsTrace(t)
    ensures Honest(g, sd) <==> forall t :: t in traces ==> !Spoiled(f, sd, fates, t)
  {
    forall t | t in g && IsTrace(t) ensures HonestAt(g, sd, t) <==> !(t in traces && Spoiled(f, sd, fates, t)) {
      SweptTrace(f, g, sd, fates, traces, t);
      assert HonestAt(f, sd, t);
    }
    forall t | t in traces && Spoiled(f, sd, fates, t) ensures t in g && !HonestAt(g, sd, t) {
      SweptTrace(f, g, sd, fates, traces, t);
    }
  }

  /** The sweep's write of this sidecar landed, no earlier than the trace's last change. */
  ghost predicate LandedInTime(f: Files, fates: Path -> Fate, t: Path)
    requires t != [] && t in f
  {
    fates(SidecarPath(t)).Lands? && fates(SidecarPath(t)).at >= f[t].mtime
  }

  lemma {:induction false} CountsFit(rows: seq<Row>)
    ensures forall i :: 0 <= i < |rows| ==> rows[i].1 <= Total(rows)
  {
    if rows != [] {
      CountsFit(rows[1..]);
      forall i | 0 <= i < |rows| ensures rows[i].1 <= Total(rows) {
        if i > 0 { assert rows[1..][i - 1] == rows[i]; }
      }
    }
  }

  /** A sidecar with the right body reads as the trace's tally. */
  lemma BodyReadsBack(g: Files, sd: Serde, t: Path, trace: Value)
    requires Faithful(sd) && t != [] && |Calls(trace)| < U32_LIMIT
    requires SidecarPath(t) in g && g[SidecarPath(t)].content == Body(sd, trace)
    ensures ReadCounts(g, sd, t) == Tally(Calls(trace))
    ensures Counts(Tally(Calls(trace)), multiset(Calls(trace))) && Total(Tally(Calls(trace))) == |Calls(trace)|
  {
    var rows := Tally(Calls(trace));
    TallyLaws(Calls(trace), []);
    CountsFit(rows);
    RowsRoundTrip(rows);
    assert sd.parse(sd.show(RowsValue(rows))) == Some(RowsValue(rows));
  }

  /** After a sweep a parseable trace whose write landed reads back as its own counts, summing to its calls. */
  lemma {:induction false} SweepAgreesWithRecount(f: Files, g: Files, sd: Serde, fates: Path -> Fate, traces: set<Path>, t: Path)
    requires Swept(f, g, sd, fates, traces) && Honest(f, sd) && Faithful(sd) && forall u :: u in traces ==> IsTrace(u)
    requires t in traces && t in f && (Current(f, t) || LandedInTime(f, fates, t))
    requires sd.parse(f[t].content).Some?
    requires |Calls(sd.parse(f[t].content).value)| < U32_LIMIT
    ensures var calls := Calls(sd.parse(f[t].content).value);
            && ReadCounts(g, sd, t) == Tally(calls)
            && Counts(ReadCounts(g, sd, t), multiset(calls))
            && Total(ReadCounts(g, sd, t)) == |calls|
  {
    SweptTrace(f, g, sd, fates, traces, t);
    assert HonestAt(f, sd, t);
    BodyReadsBack(g, sd, t, sd.parse(f[t].content).value);
  }

  lemma SameLookups(g: Files, h: Files)
    requires forall p :: Lookup(h, p) == Lookup(g, p)
    ensures h == g
  {
    forall p ensures (p in h <==> p in g) && (p in h ==> h[p] == g[p]) { assert Lookup(h, p) == Lookup(g, p); }
    assert h.Keys == g.Keys;
  }

  /** When every wanted write landed in time, sweeping again changes no file and writes none. */
  lemma {:induction false} RepeatSweepIsIdle(f: Files, g: Files, h: Files, sd: Serde,
                                             fates: Path -> Fate, later: Path -> Fate, traces: set<Path>)
    requires Swept(f, g, sd, fates, traces) && Swept(g, h, sd, later, traces)
    requires forall t :: t in traces ==> IsTrace(t)
    requires forall t :: t in traces && Wants(f, sd, t) ==> LandedInTime(f, fates, t)
    ensures h == g && Rewritten(g, sd, later, traces) == {}
  {
    forall t | t in traces ensures !Wants(g, sd, t) { SweptTrace(f, g, sd, fates, traces, t); }
    forall p ensures Lookup(h, p) == Lookup(g, p) {
      if p in Sidecars(traces) {
        var t :| t in traces && SidecarPath(t) == p;
        assert SidecarAfter(g, sd, later, t) == Lookup(g, p);
      }
    }
    SameLookups(g, h);
  }

  /** A torn write that looks current is never repaired: later sweeps leave its text in place. */
  lemma SpoiledStaysSpoiled(f: Files, g: Files, h: Files, sd: Serde, fates: Path -> Fate, later: Path -> Fate,
                            traces: set<Path>, t: Path)
    requires Swept(f, g, sd, fates, traces) && Swept(g, h, sd, later, traces)
    requires (forall u :: u in traces ==> IsTrace(u)) && t in traces && Spoiled(f, sd, fates, t)
    ensures Lookup(h, SidecarPath(t)) == Some(Entry(fates(SidecarPath(t)).left, fates(SidecarPath(t)).at))
    ensures !Wants(h, sd, t)
  {
    SweptTrace(f, g, sd, fates, traces, t);
    SweptTrace(g, h, sd, later, traces, t);
  }

  // ----- changes to the traces -----

  predicate LateChange(f: Files, t: Path, at: nat)
    requires t != []
  {
    SidecarPath(t) in f ==> f[SidecarPath(t)].mtime < at
  }

  function OneCall(): Value {
    var kind := Object(map["kind" := Str("tool_call"), "begin" := Object(map["tool_name" := Str("x")])]);
    var step := Object(map["spans" := Array([Object(map["kind" := kind])])]);
    Object(map["turns" := Array([Object(map["steps" := Array([step])])])])
  }

  lemma CallsOfOne(span: Value, step: Value, turn: Value)
    requires Items(step, "spans") == [span] && Items(turn, "steps") == [step]
    ensures CallsOfTurns([turn]) == CallOf(span)
  {
    assert [span][..0] == [] && [step][..0] == [] && [turn][..0] == [];
    assert CallsOfSpans([span]) == CallOf(span);
    assert CallsOfSteps([step]) == CallsOfSpans([span]);
    assert CallsOfTurns([turn]) == CallsOfSteps([step]);
  }

  lemma OneCallCalls()
    ensures Calls(OneCall()) == ["x"] && Calls(Null) == []
  {
    var kind := Object(map["kind" := Str("tool_call"), "begin" := Object(map["tool_name" := Str("x")])]);
    var span := Object(map["kind" := kind]);
    var step := Object(map["spans" := Array([span])]);
    assert ToolOf(span) == Some("x");
    CallsOfOne(span, step, Object(map["steps" := Array([step])]));
  }

  lemma EmptyTally()
    ensures Tally([]) == []
  {
    RowsAreOrdered();
    InOrderArranges(BY_COUNT, RowsOf([]));
    assert RowsOf([]) == {};
    assert |multiset(Tally([]))| == 0;
  }

  /** Two parseable contents with different sidecars. */
  lemma TwoBodies(sd: Serde) returns (x: string, y: string)
    requires Faithful(sd)
    ensures sd.parse(x).Some? && sd.parse(y).Some? && Body(sd, sd.parse(x).value) != Body(sd, sd.parse(y).value)
  {
    x, y := sd.show(Null), sd.show(OneCall());
    OneCallCalls();
    TallyLaws(["x"], []);
    EmptyTally();
    var a, b := RowsValue(Tally([])), RowsValue(Tally(["x"]));
    assert |a.items| != |b.items|;
    assert sd.parse(sd.show(a)) != sd.parse(sd.show(b));
  }

  lemma {:induction false} LateChangeIsSafe(f: Files, sd: Serde, t: Path, at: nat, c: string)
    requires Honest(f, sd) && IsTrace(t)
    ensures LateChange(f, t, at) ==> Honest(f[t := Entry(c, at)], sd)
  {
    var g := f[t := Entry(c, at)];
    forall u | LateChange(f, t, at) && u in g && IsTrace(u) ensures HonestAt(g, sd, u) {
      SidecarsStandApart(u, t);
      if u != t { assert HonestAt(f, sd, u); }
    }
  }

  /**
   * Whatever a trace is rewritten to at time `at`, its sidecar stays trustworthy:
   * exactly when `at` is later than the sidecar. At an equal time the old counts pass as current.
   */
  lemma {:induction false} TraceChangeKeepsHonestIff(f: Files, sd: Serde, t: Path, at: nat)
    requires Honest(f, sd) && IsTrace(t) && Faithful(sd)
    ensures (forall c :: Honest(f[t := Entry(c, at)], sd)) <==> LateChange(f, t, at)
  {
    forall c ensures LateChange(f, t, at) ==> Honest(f[t := Entry(c, at)], sd) { LateChangeIsSafe(f, sd, t, at, c); }
    if !LateChange(f, t, at) {
      SidecarsStandApart(t, t);
      var none, one := TwoBodies(sd);
      var x, y := f[t := Entry(none, at)], f[t := Entry(one, at)];
      assert Current(x, t) && Current(y, t);
      assert !(HonestAt(x, sd, t) && HonestAt(y, sd, t));
      assert !Honest(x, sd) || !Honest(y, sd);
    }
  }

  // ----- a trace that changes while it is being counted -----

  /** A write of counts taken from the content `seen`, which the trace may no longer have. */
  ghost function AfterWrite(f: Files, sd: Serde, t: Path, seen: Value, at: nat): Files
    requires t != []
  {
    f[SidecarPath(t) := Entry(Body(sd, seen), at)]
  }

  /** The write is older than the trace, the trace does not parse, or it still has those counts. */
  ghost predicate StillTrue(f: Files, sd: Serde, t: Path, seen: Value, at: nat) {
    t in f && f[t].mtime <= at ==>
      var now := sd.parse(f[t].content);
      now.Some? ==> Body(sd, seen) == Body(sd, now.value)
  }

  /** Writing counts read earlier keeps every current sidecar right exactly when they still hold. */
  lemma {:induction false} SidecarWriteKeepsHonestIff(f: Files, sd: Serde, t: Path, seen: Value, at: nat)
    requires Honest(f, sd) && IsTrace(t)
    ensures Honest(AfterWrite(f, sd, t, seen, at), sd) <==> StillTrue(f, sd, t, seen, at)
  {
    var g := AfterWrite(f, sd, t, seen, at);
    SidecarsStandApart(t, t);
    forall u | u in g && IsTrace(u) && u != t ensures HonestAt(g, sd, u) {
      SidecarsStandApart(t, u);
      SidecarsStandApart(u, t);
      assert u in f && HonestAt(f, sd, u);
    }
    if t in f { assert HonestAt(g, sd, t) <==> StillTrue(f, sd, t, seen, at); }
  }

  /**
   * A trace rewritten at `changed`, between its reading and the write of its counts at `at`: whatever
   * it was rewritten to, the sidecar stays trustworthy exactly when the write counts as older.
   */
  lemma MidSweepChangeKeepsHonestIff(f: Files, sd: Serde, t: Path, seen: Value, changed: nat, at: nat)
    requires Honest(f, sd) && IsTrace(t) && Faithful(sd) && LateChange(f, t, changed)
    ensures (forall c :: Honest(AfterWrite(f[t := Entry(c, changed)], sd, t, seen, at), sd)) <==> at < changed
  {
    forall c ensures Honest(AfterWrite(f[t := Entry(c, changed)], sd, t, seen, at), sd)
                     <==> StillTrue(f[t := Entry(c, changed)], sd, t, seen, at) {
      LateChangeIsSafe(f, sd, t, changed, c);
      SidecarWriteKeepsHonestIff(f[t := Entry(c, changed)], sd, t, seen, at);
    }
    if changed <= at {
      var x, y := TwoBodies(sd);
      assert !StillTrue(f[t := Entry(x, changed)], sd, t, seen, at) || !StillTrue(f[t := Entry(y, changed)], sd, t, seen, at);
    }
  }

  // ----- whole histories -----

  datatype Event =
    | Sweep(traces: set<Path>, fates: Path -> Fate)
    | TraceWritten(t: Path, at: nat, content: string)
    | CountsWritten(t: Path, seen: Value, at: nat)
    | Removed(p: Path)

  /** What an event does to the files. */
  ghost predicate Happens(e: Event, f: Files, g: Files, sd: Serde) {
    match e
    case Sweep(traces, fates) => (forall t :: t in traces ==> IsTrace(t)) && Swept(f, g, sd, fates, traces)
    case TraceWritten(t, at, content) => IsTrace(t) && g == f[t := Entry(content, at)]
    case CountsWritten(t, seen, at) => IsTrace(t) && g == AfterWrite(f, sd, t, seen, at)
    case Removed(p) => g == f - {p}
  }

  /** No torn write that looks current, every trace change later than its sidecar, no counts gone stale. */
  ghost predicate Safe(e: Event, f: Files, sd: Serde) {
    match e
    case Sweep(traces, fates) => forall t :: t in traces ==> !Spoiled(f, sd, fates, t)
    case TraceWritten(t, at, content) => t != [] && LateChange(f, t, at)
    case CountsWritten(t, seen, at) => StillTrue(f, sd, t, seen, at)
    case Removed(p) => true
  }

  ghost predicate History(es: seq<Event>, states: seq<Files>, sd: Serde) {
    |states| == |es| + 1 && forall i :: 0 <= i < |es| ==> Happens(es[i], states[i], states[i + 1], sd)
  }

  lemma HonestStep(e: Event, f: Files, g: Files, sd: Serde)
    requires Happens(e, f, g, sd) && Safe(e, f, sd) && Honest(f, sd)
    ensures Honest(g, sd)
  {
    match e
    case Sweep(traces, fates) => SweepKeepsHonestIff(f, g, sd, fates, traces);
    case TraceWritten(t, at, content) => LateChangeIsSafe(f, sd, t, at, content);
    case CountsWritten(t, seen, at) => SidecarWriteKeepsHonestIff(f, sd, t, seen, at);
    case Removed(p) =>
      forall t | t in g && IsTrace(t) ensures HonestAt(g, sd, t) { assert HonestAt(f, sd, t); }
  }

  /**
   * From honest files, no run of sweeps, trace changes, single writes between them and removals
   * ever leaves a wrong current sidecar, as long as every event is safe.
   */
  lemma {:induction false} HonestOverHistory(es: seq<Event>, states: seq<Files>, sd: Serde, n: nat)
    requires History(es, states, sd) && Honest(states[0], sd) && n < |states|
    requires forall i :: 0 <= i < n ==> Safe(es[i], states[i], sd)
    ensures Honest(states[n], sd)
  {
    if n > 0 {
      HonestOverHistory(es, states, sd, n - 1);
      assert Happens(es[n - 1], states[n - 1], states[n - 1 + 1], sd);
      HonestStep(es[n - 1], states[n - 1], states[n], sd);
    }
  }
}
