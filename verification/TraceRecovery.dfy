/** Crash recovery itself: the boot sweep, the panic path and the bottom-up closing they share. */
module TraceRecovery {
  import opened Wrappers
  import opened TraceModel
  import opened TraceStore
  import opened RecoveryLaws

  datatype Closed = Closed(steps: nat, spans: nat, floor: Time)

  // ----- each write of a pass keeps it a pass -----

  lemma WriteSpan(c: Clock, ts: set<TurnId>, a: Db, b: Db, p: SpanId)
    requires PartOf(c, ts, a, b) && p in a.spans && SpanInScope(ts, a, p) && SpanReadable(a, p)
    ensures PartOf(c, ts, a, b.(spans := b.spans[p := SpanFinal(c, a, p)]))
  {
    var b' := b.(spans := b.spans[p := SpanFinal(c, a, p)]);
    forall q | q in a.spans ensures SpanStage(c, ts, a, b', q) { assert SpanStage(c, ts, a, b, q); }
    forall s | s in a.steps ensures StepStage(c, ts, a, b', s) { assert StepStage(c, ts, a, b, s); }
    forall t | t in a.turns ensures TurnStage(c, ts, a, b', t) { assert TurnStage(c, ts, a, b, t); }
  }

  lemma WriteStep(c: Clock, ts: set<TurnId>, a: Db, b: Db, s: StepId)
    requires PartOf(c, ts, a, b) && Decoded(a, s) && a.steps[s].turn in ts && SpansReadable(a, s) && SpansDone(c, a, b, s)
    ensures PartOf(c, ts, a, b.(steps := b.steps[s := StepFinal(c, a, s)]))
  {
    var b' := b.(steps := b.steps[s := StepFinal(c, a, s)]);
    forall p | p in a.spans ensures SpanStage(c, ts, a, b', p) { assert SpanStage(c, ts, a, b, p); }
    forall q | q in a.steps ensures StepStage(c, ts, a, b', q) { assert StepStage(c, ts, a, b, q); }
    forall t | t in a.turns ensures TurnStage(c, ts, a, b', t) { assert TurnStage(c, ts, a, b, t); }
  }

  lemma WriteTurn(c: Clock, ts: set<TurnId>, a: Db, b: Db, t: TurnId)
    requires PartOf(c, ts, a, b) && t in ts && t in a.turns && Readable(a, t) && SubtreeDone(c, a, b, t)
    ensures PartOf(c, ts, a, b.(turns := b.turns[t := TurnFinal(c, a, t)]))
    ensures TurnDone(c, a, b.(turns := b.turns[t := TurnFinal(c, a, t)]), t)
    ensures b.turns[t].CancelAt(TurnFloor(c, a, t)) == TurnFinal(c, a, t)
  {
    var b' := b.(turns := b.turns[t := TurnFinal(c, a, t)]);
    forall p | p in a.spans ensures SpanStage(c, ts, a, b', p) { assert SpanStage(c, ts, a, b, p); }
    forall s | s in a.steps ensures StepStage(c, ts, a, b', s) { assert StepStage(c, ts, a, b, s); }
    forall u | u in a.turns ensures TurnStage(c, ts, a, b', u) { assert TurnStage(c, ts, a, b, u); }
    assert TurnStage(c, ts, a, b, t);
  }

  lemma PendingSpanLeaves(b: Db, b': Db, p: SpanId)
    requires p in b.spans && p in b'.spans && b'.spans == b.spans[p := b'.spans[p]]
    requires b'.spans[p].body.Some? && b'.spans[p].body.value.state.Done?
    ensures p in PendingSpans(b) ==> |PendingSpans(b')| + 1 == |PendingSpans(b)|
    ensures p !in PendingSpans(b) ==> PendingSpans(b') == PendingSpans(b)
  {
    assert PendingSpans(b') == PendingSpans(b) - {p};
  }

  lemma PendingStepLeaves(b: Db, b': Db, s: StepId)
    requires s in b.steps && s in b'.steps && b'.steps == b.steps[s := b'.steps[s]]
    requires b'.steps[s].body.Some? && b'.steps[s].body.value.state.Done?
    ensures s in PendingSteps(b) ==> |PendingSteps(b')| + 1 == |PendingSteps(b)|
    ensures s !in PendingSteps(b) ==> PendingSteps(b') == PendingSteps(b)
  {
    assert PendingSteps(b') == PendingSteps(b) - {s};
  }

  // ----- spans -----

  /** The latest of a pending span's start and its events; one undecodable event fails the call. */
  method PickSpanCloseTime(store: Store, p: SpanId, startedAt: Time) returns (r: Result<Time>)
    modifies store`calls
    ensures old(store.calls) <= store.calls
    ensures r.Success? ==> r.value == Latest(startedAt, EventTimes(EventsOf(store.View(), p)))
    ensures r.Success? ==> EventsReadable(EventsOf(store.View(), p))
    ensures store.Calm(old(store.calls)) && EventsReadable(EventsOf(store.View(), p)) ==> r.Success?
  {
    var events := store.ListSpanEvents(p);
    if events.Failure? { return Failure; }
    var evs := events.value;
    if !EventsReadable(evs) { return Failure; }
    var at := startedAt;
    for i := 0 to |evs|
      invariant IsLatest(at, startedAt, EventTimes(evs[..i]))
    {
      assert EventTimes(evs[..i + 1]) == EventTimes(evs[..i]) + {evs[i].value} by {
        assert evs[..i + 1][i] == evs[i];
        forall x | x in EventTimes(evs[..i]) + {evs[i].value} ensures x in EventTimes(evs[..i + 1]) {
          if x in EventTimes(evs[..i]) {
            var j :| 0 <= j < i && evs[..i][j].Some? && evs[..i][j].value == x;
            assert evs[..i + 1][j].value == x;
          }
        }
      }
      if evs[i].value > at { at := evs[i].value; }
    }
    assert evs[..|evs|] == evs;
    LatestIsUnique(at, startedAt, EventTimes(evs));
    r := Success(at);
  }

  /** One iteration of the span loop: the span's end time, and whether it had been pending. */
  method CloseSpan(store: Store, c: Clock, ghost ts: set<TurnId>, ghost a: Db, p: SpanId, row: SpanRow)
      returns (r: Result<(nat, Time)>)
    requires PartOf(c, ts, a, store.View()) && SpanInScope(ts, a, p) && a.spans[p].body.Some?
    requires p in store.spans && store.spans[p] == row && row.body.Some?
    modifies store`calls, store`spans
    ensures old(store.calls) <= store.calls
    ensures PartOf(c, ts, a, store.View())
    ensures store.spans == old(store.spans) || store.spans == old(store.spans)[p := SpanFinal(c, a, p)]
    ensures r.Success? ==>
              && SpanReadable(a, p) && store.spans[p] == SpanFinal(c, a, p)
              && r.value.1 == SpanFinal(c, a, p).body.value.endedAt.value
              && |PendingSpans(store.View())| + r.value.0 == |old(PendingSpans(store.View()))|
    ensures |PendingSpans(store.View())| <= |old(PendingSpans(store.View()))|
    ensures store.Calm(old(store.calls)) && SpanReadable(a, p) ==> r.Success?
  {
    ghost var before := store.View();
    SpanFinalStable(c, ts, a, before, p);
    assert SpanStage(c, ts, a, before, p);
    var b := row.body.value;
    match b.state
    case Done(_) =>
      WriteSpan(c, ts, a, before, p);
      if b.endedAt.Some? { return Success((0, b.endedAt.value)); }
      var ok := store.SaveSpan(p, row.(body := Some(b.(endedAt := Some(b.startedAt)))));
      if p in store.spans && store.spans[p] == SpanFinal(c, a, p) { PendingSpanLeaves(before, store.View(), p); }
      if !ok { return Failure; }
      return Success((0, b.startedAt));
    case Pending =>
      var picked := PickSpanCloseTime(store, p, b.startedAt);
      if picked.Failure? { return Failure; }
      WriteSpan(c, ts, a, before, p);
      var at := c.CloseTime(picked.value);
      var ok := store.SaveSpan(p, row.(body := Some(b.(state := Done(Cancelled(SystemCrash)), endedAt := Some(at)))));
      if store.View() != before { PendingSpanLeaves(before, store.View(), p); }
      if !ok { return Failure; }
      return Success((1, at));
  }

  ghost function ListedEnds(c: Clock, a: Db, rows: seq<(SpanId, SpanRow)>, n: nat): set<Time>
    requires n <= |rows|
    requires forall j :: 0 <= j < |rows| ==> rows[j].0 in a.spans && a.spans[rows[j].0].body.Some?
  {
    set j | 0 <= j < n :: SpanFinal(c, a, rows[j].0).body.value.endedAt.value
  }

  /** The first `n` listed spans are closed, the others and all spans elsewhere are as listed. */
  ghost predicate SpansSwept(c: Clock, a: Db, s: StepId, rows: seq<(SpanId, SpanRow)>, n: nat,
                             was: map<SpanId, SpanRow>, now: map<SpanId, SpanRow>) {
    && n <= |rows| && was.Keys == now.Keys == a.spans.Keys
    && (forall p :: p in was && a.spans[p].step != s ==> now[p] == was[p])
    && (forall j :: 0 <= j < |rows| ==> rows[j].0 in now)
    && (forall j :: 0 <= j < n ==> SpanReadable(a, rows[j].0) && now[rows[j].0] == SpanFinal(c, a, rows[j].0))
    && (forall j :: n <= j < |rows| ==> now[rows[j].0] == rows[j].1)
  }

  lemma SweepOneSpan(c: Clock, a: Db, s: StepId, rows: seq<(SpanId, SpanRow)>, n: nat,
                     was: map<SpanId, SpanRow>, now: map<SpanId, SpanRow>)
    requires SpansSwept(c, a, s, rows, n, was, now) && n < |rows| && a.spans[rows[n].0].step == s
    requires SpanReadable(a, rows[n].0)
    requires forall i, j :: 0 <= i < j < |rows| ==> rows[i].0 != rows[j].0
    ensures SpansSwept(c, a, s, rows, n + 1, was, now[rows[n].0 := SpanFinal(c, a, rows[n].0)])
    ensures now[rows[n].0] == SpanFinal(c, a, rows[n].0) ==> SpansSwept(c, a, s, rows, n + 1, was, now)
  {
  }

  lemma LatestGrows(c: Clock, a: Db, rows: seq<(SpanId, SpanRow)>, n: nat, floor: Time, base: Time)
    requires n < |rows|
    requires forall j :: 0 <= j < |rows| ==> rows[j].0 in a.spans && a.spans[rows[j].0].body.Some?
    requires IsLatest(floor, base, ListedEnds(c, a, rows, n))
    ensures var end := SpanFinal(c, a, rows[n].0).body.value.endedAt.value;
            IsLatest(if end > floor then end else floor, base, ListedEnds(c, a, rows, n + 1))
  {
    assert ListedEnds(c, a, rows, n + 1)
        == ListedEnds(c, a, rows, n) + {SpanFinal(c, a, rows[n].0).body.value.endedAt.value};
  }

  lemma SpansUnderSame(c: Clock, ts: set<TurnId>, a: Db, b: Db, s: StepId)
    requires PartOf(c, ts, a, b)
    ensures SpansUnder(b, s) == SpansUnder(a, s)
    ensures forall p :: p in a.spans ==> b.spans[p].body.Some? == a.spans[p].body.Some?
  {
    assert forall p :: p in a.spans ==> SpanStage(c, ts, a, b, p);
  }

  lemma AllListedSpansDone(c: Clock, a: Db, b: Db, s: StepId, rows: seq<(SpanId, SpanRow)>, table: map<SpanId, SpanRow>)
    requires a.spans.Keys == b.spans.Keys && Lists(rows, table, SpansUnder(a, s))
    requires forall j :: 0 <= j < |rows| ==> a.spans[rows[j].0].body.Some?
    requires forall j :: 0 <= j < |rows| ==> SpanReadable(a, rows[j].0) && b.spans[rows[j].0] == SpanFinal(c, a, rows[j].0)
    ensures SpansReadable(a, s) && SpansDone(c, a, b, s)
    ensures ListedEnds(c, a, rows, |rows|) == SpanEnds(c, a, s)
  {
    forall p | p in a.spans && a.spans[p].step == s
      ensures SpanReadable(a, p) && b.spans[p] == SpanFinal(c, a, p)
      ensures SpanFinal(c, a, p).body.value.endedAt.value in ListedEnds(c, a, rows, |rows|)
    {
      assert Named(p, rows);
    }
  }

  ghost predicate SpanRowsOf(a: Db, s: StepId, rows: seq<(SpanId, SpanRow)>) {
    && (forall j :: 0 <= j < |rows| ==> rows[j].0 in a.spans && a.spans[rows[j].0].step == s)
    && (forall j :: 0 <= j < |rows| ==> a.spans[rows[j].0].body.Some? && rows[j].1.body.Some?)
    && (forall i, j :: 0 <= i < j < |rows| ==> rows[i].0 != rows[j].0)
  }

  /** Where the span loop stands after `n` rows, having closed `closed` spans up to `floor`. */
  ghost predicate SpanLoop(c: Clock, ts: set<TurnId>, a: Db, s: StepId, base: Time, rows: seq<(SpanId, SpanRow)>,
                           n: nat, was: Db, now: Db, closed: nat, floor: Time)
    requires SpanRowsOf(a, s, rows)
  {
    && PartOf(c, ts, a, now)
    && SpansSwept(c, a, s, rows, n, was.spans, now.spans)
    && IsLatest(floor, base, ListedEnds(c, a, rows, n))
    && |PendingSpans(now)| + closed == |PendingSpans(was)|
  }

  lemma SpanLoopStep(c: Clock, ts: set<TurnId>, a: Db, s: StepId, base: Time, rows: seq<(SpanId, SpanRow)>,
                     n: nat, was: Db, mid: Db, now: Db, closed: nat, floor: Time, one: nat, end: Time)
    requires SpanRowsOf(a, s, rows) && n < |rows|
    requires SpanLoop(c, ts, a, s, base, rows, n, was, mid, closed, floor)
    requires PartOf(c, ts, a, now) && SpanReadable(a, rows[n].0) && now.spans[rows[n].0] == SpanFinal(c, a, rows[n].0)
    requires now.spans == mid.spans || now.spans == mid.spans[rows[n].0 := SpanFinal(c, a, rows[n].0)]
    requires end == SpanFinal(c, a, rows[n].0).body.value.endedAt.value
    requires |PendingSpans(now)| + one == |PendingSpans(mid)|
    ensures SpanLoop(c, ts, a, s, base, rows, n + 1, was, now, closed + one, if end > floor then end else floor)
  {
    SweepOneSpan(c, a, s, rows, n, was.spans, mid.spans);
    LatestGrows(c, a, rows, n, floor, base);
  }

  method CloseListedSpans(store: Store, c: Clock, ghost ts: set<TurnId>, ghost a: Db, s: StepId, startedAt: Time,
                          rows: seq<(SpanId, SpanRow)>)
      returns (r: Result<(nat, Time)>)
    requires Decoded(a, s) && a.steps[s].turn in ts && SpanRowsOf(a, s, rows)
    requires SpanLoop(c, ts, a, s, c.CloseTime(startedAt), rows, 0, store.View(), store.View(), 0, c.CloseTime(startedAt))
    modifies store`calls, store`spans
    ensures old(store.calls) <= store.calls
    ensures PartOf(c, ts, a, store.View())
    ensures forall p :: p in a.spans && a.spans[p].step != s ==> store.spans[p] == old(store.spans)[p]
    ensures r.Success? ==>
              SpanLoop(c, ts, a, s, c.CloseTime(startedAt), rows, |rows|, old(store.View()), store.View(), r.value.0, r.value.1)
    ensures |PendingSpans(store.View())| <= |PendingSpans(old(store.View()))|
    ensures store.Calm(old(store.calls)) && (forall j :: 0 <= j < |rows| ==> SpanReadable(a, rows[j].0)) ==> r.Success?
  {
    ghost var start := store.calls;
    ghost var was := store.View();
    var closed := 0;
    var floor := c.CloseTime(startedAt);
    for i := 0 to |rows|
      invariant start <= store.calls
      invariant SpanLoop(c, ts, a, s, c.CloseTime(startedAt), rows, i, was, store.View(), closed, floor)
    {
      ghost var mid := store.View();
      var one := CloseSpan(store, c, ts, a, rows[i].0, rows[i].1);
      if one.Failure? { return Failure; }
      SpanLoopStep(c, ts, a, s, c.CloseTime(startedAt), rows, i, was, mid, store.View(), closed, floor,
                   one.value.0, one.value.1);
      closed := closed + one.value.0;
      if one.value.1 > floor { floor := one.value.1; }
    }
    r := Success((closed, floor));
  }

  lemma UndecodableFails(a: Db, s: StepId, rows: seq<(SpanId, SpanRow)>)
    requires forall j :: 0 <= j < |rows| ==> rows[j].0 in SpansUnder(a, s)
    requires exists i :: 0 <= i < |rows| && rows[i].0 in a.spans && a.spans[rows[i].0].body.None?
    ensures !SpansReadable(a, s)
  {
    var i :| 0 <= i < |rows| && rows[i].0 in a.spans && a.spans[rows[i].0].body.None?;
    assert !SpanReadable(a, rows[i].0);
  }

  /** Closes the pending spans of one step, returning how many and the step's end floor. */
  method CloseStepSpans(store: Store, c: Clock, ghost ts: set<TurnId>, ghost a: Db, s: StepId, startedAt: Time)
      returns (r: Result<(nat, Time)>)
    requires PartOf(c, ts, a, store.View()) && Decoded(a, s) && a.steps[s].turn in ts
    requires startedAt == a.steps[s].body.value.startedAt
    modifies store`calls, store`spans
    ensures old(store.calls) <= store.calls
    ensures PartOf(c, ts, a, store.View())
    ensures forall p :: p in a.spans && a.spans[p].step != s ==> store.spans[p] == old(store.spans[p])
    ensures r.Success? ==>
              && SpansReadable(a, s) && SpansDone(c, a, store.View(), s)
              && r.value.1 == StepFloor(c, a, s)
              && |PendingSpans(store.View())| + r.value.0 == |old(PendingSpans(store.View()))|
    ensures |PendingSpans(store.View())| <= |old(PendingSpans(store.View()))|
    ensures store.Calm(old(store.calls)) && SpansReadable(a, s) ==> r.Success?
  {
    var listed := store.ListSpansByStep(s);
    if listed.Failure? { return Failure; }
    var rows := listed.value;
    SpansUnderSame(c, ts, a, store.View(), s);
    // One undecodable span fails the step before anything is written.
    if exists i :: 0 <= i < |rows| && rows[i].1.body.None? {
      UndecodableFails(a, s, rows);
      return Failure;
    }
    ghost var table := store.spans;
    r := CloseListedSpans(store, c, ts, a, s, startedAt, rows);
    if r.Success? {
      AllListedSpansDone(c, a, store.View(), s, rows, table);
      LatestIsUnique(r.value.1, c.CloseTime(startedAt), SpanEnds(c, a, s));
    }
  }

  // ----- steps -----

  /** Ends one step over its closed spans: the step's end time, and whether it had been pending. */
  method EndStep(store: Store, c: Clock, ghost ts: set<TurnId>, ghost a: Db, s: StepId, row: StepRow, floor: Time)
      returns (r: Result<(nat, Time)>)
    requires PartOf(c, ts, a, store.View()) && Decoded(a, s) && a.steps[s].turn in ts
    requires s in store.steps && store.steps[s] == row && row.body.Some?
    requires SpansReadable(a, s) && SpansDone(c, a, store.View(), s) && floor == StepFloor(c, a, s)
    modifies store`calls, store`steps
    ensures old(store.calls) <= store.calls
    ensures PartOf(c, ts, a, store.View())
    ensures store.steps == old(store.steps) || store.steps == old(store.steps)[s := StepFinal(c, a, s)]
    ensures r.Success? ==>
              && store.steps[s] == StepFinal(c, a, s)
              && r.value.1 == StepFinal(c, a, s).body.value.endedAt.value
              && |PendingSteps(store.View())| + r.value.0 == |PendingSteps(old(store.View()))|
    ensures |PendingSteps(store.View())| <= |PendingSteps(old(store.View()))|
    ensures store.Calm(old(store.calls)) ==> r.Success?
  {
    ghost var before := store.View();
    StepFinalStable(c, ts, a, before, s);
    assert StepStage(c, ts, a, before, s);
    WriteStep(c, ts, a, before, s);
    var b := row.body.value;
    match b.state
    case Done(_) =>
      if b.endedAt.Some? { return Success((0, b.endedAt.value)); }
      var ok := store.SaveStep(s, row.(body := Some(b.(endedAt := Some(floor)))));
      if store.View() != before { PendingStepLeaves(before, store.View(), s); }
      if !ok { return Failure; }
      return Success((0, floor));
    case Pending =>
      var at := c.CloseTime(floor);
      var ok := store.SaveStep(s, row.(body := Some(b.(state := Done(Cancelled(SystemCrash)), endedAt := Some(at)))));
      if store.View() != before { PendingStepLeaves(before, store.View(), s); }
      if !ok { return Failure; }
      return Success((1, at));
  }

  /** What `CloseStep` does to the tables, for one step of `t`. */
  ghost predicate StepEffect(c: Clock, a: Db, s: StepId, mid: Db, now: Db)
    requires Decoded(a, s)
  {
    && SameKeys(a, mid) && SameKeys(a, now) && mid.turns == now.turns
    && (forall p :: p in a.spans && a.spans[p].step != s ==> now.spans[p] == mid.spans[p])
    && (now.steps == mid.steps || now.steps == mid.steps[s := StepFinal(c, a, s)])
  }

  /** One iteration of the step loop: spans first, then the step over them. */
  method CloseStep(store: Store, c: Clock, ghost ts: set<TurnId>, ghost a: Db, s: StepId, row: StepRow)
      returns (r: Result<Closed>)
    requires PartOf(c, ts, a, store.View()) && Decoded(a, s) && a.steps[s].turn in ts
    requires s in store.steps && store.steps[s] == row && row.body.Some?
    modifies store`calls, store`spans, store`steps
    ensures old(store.calls) <= store.calls
    ensures PartOf(c, ts, a, store.View()) && StepEffect(c, a, s, old(store.View()), store.View())
    ensures r.Success? ==>
              && SpansReadable(a, s) && SpansDone(c, a, store.View(), s) && store.steps[s] == StepFinal(c, a, s)
              && r.value.floor == StepFinal(c, a, s).body.value.endedAt.value
              && |PendingSteps(store.View())| + r.value.steps == |PendingSteps(old(store.View()))|
              && |PendingSpans(store.View())| + r.value.spans == |PendingSpans(old(store.View()))|
    ensures |PendingSteps(store.View())| <= |PendingSteps(old(store.View()))|
    ensures |PendingSpans(store.View())| <= |PendingSpans(old(store.View()))|
    ensures store.Calm(old(store.calls)) && SpansReadable(a, s) ==> r.Success?
  {
    assert StepStage(c, ts, a, store.View(), s);
    var swept := CloseStepSpans(store, c, ts, a, s, row.body.value.startedAt);
    if swept.Failure? { return Failure; }
    var ended := EndStep(store, c, ts, a, s, row, swept.value.1);
    if ended.Failure? { return Failure; }
    r := Success(Closed(ended.value.0, swept.value.0, ended.value.1));
  }

  ghost predicate StepRowsOf(a: Db, t: TurnId, rows: seq<(StepId, StepRow)>) {
    && (forall j :: 0 <= j < |rows| ==> rows[j].0 in a.steps && a.steps[rows[j].0].turn == t)
    && (forall j :: 0 <= j < |rows| ==> a.steps[rows[j].0].body.Some? == rows[j].1.body.Some?)
    && (forall i, j :: 0 <= i < j < |rows| ==> rows[i].0 != rows[j].0)
  }

  ghost function ListedStepEnds(c: Clock, a: Db, rows: seq<(StepId, StepRow)>, n: nat): set<Time>
    requires n <= |rows| && forall j :: 0 <= j < |rows| ==> rows[j].0 in a.steps
  {
    set j | 0 <= j < n && Decoded(a, rows[j].0) :: StepFinal(c, a, rows[j].0).body.value.endedAt.value
  }

  /** No step of another turn and no span outside `t`'s scope differs. */
  ghost predicate OnlyTouches(a: Db, t: TurnId, was: Db, now: Db) {
    && SameKeys(a, was) && SameKeys(a, now) && was.turns == now.turns
    && (forall s :: s in a.steps && a.steps[s].turn != t ==> now.steps[s] == was.steps[s])
    && (forall p :: p in a.spans && !SpanInScope({t}, a, p) ==> now.spans[p] == was.spans[p])
  }

  /** The first `n` listed steps and the spans under them are closed, the other steps are as listed. */
  ghost predicate StepsSwept(c: Clock, a: Db, rows: seq<(StepId, StepRow)>, n: nat, now: Db) {
    && n <= |rows| && now.spans.Keys == a.spans.Keys
    && (forall j :: 0 <= j < |rows| ==> rows[j].0 in now.steps && rows[j].0 in a.steps)
    && (forall j :: 0 <= j < n ==> now.steps[rows[j].0] == StepFinal(c, a, rows[j].0))
    && (forall j :: 0 <= j < n && Decoded(a, rows[j].0) ==>
          SpansReadable(a, rows[j].0) && SpansDone(c, a, now, rows[j].0))
    && (forall j :: n <= j < |rows| ==> now.steps[rows[j].0] == rows[j].1)
  }

  ghost predicate StepLoop(c: Clock, ts: set<TurnId>, a: Db, t: TurnId, base: Time, rows: seq<(StepId, StepRow)>,
                           n: nat, was: Db, now: Db, closed: Closed)
    requires StepRowsOf(a, t, rows)
  {
    && PartOf(c, ts, a, now)
    && OnlyTouches(a, t, was, now)
    && StepsSwept(c, a, rows, n, now)
    && IsLatest(closed.floor, base, ListedStepEnds(c, a, rows, n))
    && |PendingSteps(now)| + closed.steps == |PendingSteps(was)|
    && |PendingSpans(now)| + closed.spans == |PendingSpans(was)|
  }

  function Joined(sum: Closed, one: Closed): Closed {
    Closed(sum.steps + one.steps, sum.spans + one.spans, if one.floor > sum.floor then one.floor else sum.floor)
  }

  lemma TouchesOneTurn(c: Clock, a: Db, t: TurnId, s: StepId, was: Db, mid: Db, now: Db)
    requires Decoded(a, s) && a.steps[s].turn == t
    requires OnlyTouches(a, t, was, mid) && StepEffect(c, a, s, mid, now)
    ensures OnlyTouches(a, t, was, now)
  {
    forall p | p in a.spans && !SpanInScope({t}, a, p) ensures now.spans[p] == was.spans[p] {
      assert a.spans[p].step != s;
    }
  }

  lemma SweepOneStep(c: Clock, a: Db, t: TurnId, rows: seq<(StepId, StepRow)>, n: nat, mid: Db, now: Db)
    requires StepRowsOf(a, t, rows) && n < |rows| && StepsSwept(c, a, rows, n, mid)
    requires Decoded(a, rows[n].0) && StepEffect(c, a, rows[n].0, mid, now)
    requires SpansReadable(a, rows[n].0) && SpansDone(c, a, now, rows[n].0)
    requires now.steps[rows[n].0] == StepFinal(c, a, rows[n].0)
    ensures StepsSwept(c, a, rows, n + 1, now)
  {
    forall j | 0 <= j < n && Decoded(a, rows[j].0) ensures SpansDone(c, a, now, rows[j].0) {
      assert SpansDone(c, a, mid, rows[j].0);
    }
  }

  lemma LatestStepGrows(c: Clock, a: Db, rows: seq<(StepId, StepRow)>, n: nat, floor: Time, base: Time)
    requires n < |rows| && forall j :: 0 <= j < |rows| ==> rows[j].0 in a.steps
    requires IsLatest(floor, base, ListedStepEnds(c, a, rows, n))
    ensures Decoded(a, rows[n].0) ==>
              var end := StepFinal(c, a, rows[n].0).body.value.endedAt.value;
              IsLatest(if end > floor then end else floor, base, ListedStepEnds(c, a, rows, n + 1))
    ensures !Decoded(a, rows[n].0) ==> IsLatest(floor, base, ListedStepEnds(c, a, rows, n + 1))
  {
    if Decoded(a, rows[n].0) {
      assert ListedStepEnds(c, a, rows, n + 1)
          == ListedStepEnds(c, a, rows, n) + {StepFinal(c, a, rows[n].0).body.value.endedAt.value};
    } else {
      assert ListedStepEnds(c, a, rows, n + 1) == ListedStepEnds(c, a, rows, n);
    }
  }

  lemma StepLoopStep(c: Clock, ts: set<TurnId>, a: Db, t: TurnId, base: Time, rows: seq<(StepId, StepRow)>,
                     n: nat, was: Db, mid: Db, now: Db, closed: Closed, one: Closed)
    requires StepRowsOf(a, t, rows) && n < |rows| && Decoded(a, rows[n].0)
    requires StepLoop(c, ts, a, t, base, rows, n, was, mid, closed)
    requires PartOf(c, ts, a, now) && StepEffect(c, a, rows[n].0, mid, now)
    requires SpansReadable(a, rows[n].0) && SpansDone(c, a, now, rows[n].0)
    requires now.steps[rows[n].0] == StepFinal(c, a, rows[n].0)
    requires one.floor == StepFinal(c, a, rows[n].0).body.value.endedAt.value
    requires |PendingSteps(now)| + one.steps == |PendingSteps(mid)|
    requires |PendingSpans(now)| + one.spans == |PendingSpans(mid)|
    ensures StepLoop(c, ts, a, t, base, rows, n + 1, was, now, Joined(closed, one))
  {
    TouchesOneTurn(c, a, t, rows[n].0, was, mid, now);
    SweepOneStep(c, a, t, rows, n, mid, now);
    LatestStepGrows(c, a, rows, n, closed.floor, base);
  }

  lemma SweepSkips(c: Clock, ts: set<TurnId>, a: Db, rows: seq<(StepId, StepRow)>, n: nat, now: Db)
    requires PartOf(c, ts, a, now) && n < |rows| && StepsSwept(c, a, rows, n, now) && !Decoded(a, rows[n].0)
    ensures StepsSwept(c, a, rows, n + 1, now)
  {
    assert StepStage(c, ts, a, now, rows[n].0);
    assert now.steps[rows[n].0] == StepFinal(c, a, rows[n].0);
  }

  /** An undecodable row is passed over: it cannot be closed, and must not hold its turn open. */
  lemma StepLoopSkip(c: Clock, ts: set<TurnId>, a: Db, t: TurnId, base: Time, rows: seq<(StepId, StepRow)>,
                     n: nat, was: Db, now: Db, closed: Closed)
    requires StepRowsOf(a, t, rows) && n < |rows| && !Decoded(a, rows[n].0)
    requires StepLoop(c, ts, a, t, base, rows, n, was, now, closed)
    ensures StepLoop(c, ts, a, t, base, rows, n + 1, was, now, closed)
  {
    SweepSkips(c, ts, a, rows, n, now);
    LatestStepGrows(c, a, rows, n, closed.floor, base);
  }

  lemma AllListedStepsDone(c: Clock, ts: set<TurnId>, a: Db, t: TurnId, base: Time, rows: seq<(StepId, StepRow)>,
                           table: map<StepId, StepRow>, was: Db, now: Db, closed: Closed)
    requires StepRowsOf(a, t, rows) && Lists(rows, table, StepsUnder(a, t))
    requires StepLoop(c, ts, a, t, base, rows, |rows|, was, now, closed)
    ensures SubtreeDone(c, a, now, t)
    ensures closed.floor == Latest(base, StepEnds(c, a, t))
  {
    forall s | s in a.steps && a.steps[s].turn == t
      ensures now.steps[s] == StepFinal(c, a, s) && (Decoded(a, s) ==> SpansDone(c, a, now, s))
      ensures Decoded(a, s) ==>
                StepFinal(c, a, s).body.value.endedAt.value in ListedStepEnds(c, a, rows, |rows|)
    {
      assert Named(s, rows);
    }
    assert ListedStepEnds(c, a, rows, |rows|) == StepEnds(c, a, t);
    LatestIsUnique(closed.floor, base, StepEnds(c, a, t));
  }

  lemma AllListedStepsReadable(c: Clock, a: Db, t: TurnId, rows: seq<(StepId, StepRow)>, table: map<StepId, StepRow>, now: Db)
    requires Lists(rows, table, StepsUnder(a, t)) && StepsSwept(c, a, rows, |rows|, now)
    ensures TurnDecodes(a, t) ==> Readable(a, t)
  {
    forall p | SpanInScope({t}, a, p) ensures SpanReadable(a, p) {
      var s := a.spans[p].step;
      assert s in StepsUnder(a, t) && Named(s, rows);
      assert SpansReadable(a, s);
    }
  }

  lemma StepsUnderSame(c: Clock, ts: set<TurnId>, a: Db, b: Db, t: TurnId)
    requires PartOf(c, ts, a, b)
    ensures StepsUnder(b, t) == StepsUnder(a, t)
    ensures forall s :: s in a.steps ==> b.steps[s].body.Some? == a.steps[s].body.Some?
  {
    assert forall s :: s in a.steps ==> StepStage(c, ts, a, b, s);
  }

  lemma SpansOfStepReadable(a: Db, t: TurnId, s: StepId)
    requires Decoded(a, s) && a.steps[s].turn == t
    ensures Readable(a, t) ==> SpansReadable(a, s)
  {
    assert forall p :: p in SpansUnder(a, s) ==> SpanInScope({t}, a, p);
  }

  method CloseListedSteps(store: Store, c: Clock, ghost ts: set<TurnId>, ghost a: Db, t: TurnId, turnStarted: Time,
                          rows: seq<(StepId, StepRow)>)
      returns (r: Result<Closed>)
    requires t in ts && StepRowsOf(a, t, rows)
    requires StepLoop(c, ts, a, t, c.CloseTime(turnStarted), rows, 0, store.View(), store.View(),
                      Closed(0, 0, c.CloseTime(turnStarted)))
    modifies store`calls, store`spans, store`steps
    ensures old(store.calls) <= store.calls
    ensures PartOf(c, ts, a, store.View()) && OnlyTouches(a, t, old(store.View()), store.View())
    ensures r.Success? ==>
              StepLoop(c, ts, a, t, c.CloseTime(turnStarted), rows, |rows|, old(store.View()), store.View(), r.value)
    ensures |PendingSteps(store.View())| <= |PendingSteps(old(store.View()))|
    ensures |PendingSpans(store.View())| <= |PendingSpans(old(store.View()))|
    ensures store.Calm(old(store.calls)) && Readable(a, t) ==> r.Success?
  {
    ghost var start := store.calls;
    ghost var was := store.View();
    var closed := Closed(0, 0, c.CloseTime(turnStarted));
    for i := 0 to |rows|
      invariant start <= store.calls
      invariant StepLoop(c, ts, a, t, c.CloseTime(turnStarted), rows, i, was, store.View(), closed)
    {
      ghost var mid := store.View();
      if rows[i].1.body.None? {
        StepLoopSkip(c, ts, a, t, c.CloseTime(turnStarted), rows, i, was, mid, closed);
      } else {
        var one := CloseStep(store, c, ts, a, rows[i].0, rows[i].1);
        TouchesOneTurn(c, a, t, rows[i].0, was, mid, store.View());
        if one.Failure? {
          SpansOfStepReadable(a, t, rows[i].0);
          return Failure;
        }
        StepLoopStep(c, ts, a, t, c.CloseTime(turnStarted), rows, i, was, mid, store.View(), closed, one.value);
        closed := Joined(closed, one.value);
      }
    }
    r := Success(closed);
  }

  /** Closes every pending step and span under `t`, returning the counts and the turn's end floor. */
  method CloseTurnSubtree(store: Store, c: Clock, ghost ts: set<TurnId>, ghost a: Db, t: TurnId, turnStarted: Time)
      returns (r: Result<Closed>)
    requires PartOf(c, ts, a, store.View()) && t in ts && t in a.turns && turnStarted == a.turns[t].Start()
    requires a.turns[t].decodes
    modifies store`calls, store`spans, store`steps
    ensures old(store.calls) <= store.calls
    ensures PartOf(c, ts, a, store.View()) && OnlyTouches(a, t, old(store.View()), store.View())
    ensures r.Success? ==>
              && Readable(a, t) && SubtreeDone(c, a, store.View(), t)
              && r.value.floor == TurnFloor(c, a, t)
              && |PendingSteps(store.View())| + r.value.steps == |PendingSteps(old(store.View()))|
              && |PendingSpans(store.View())| + r.value.spans == |PendingSpans(old(store.View()))|
    ensures |PendingSteps(store.View())| <= |PendingSteps(old(store.View()))|
    ensures |PendingSpans(store.View())| <= |PendingSpans(old(store.View()))|
    ensures store.Calm(old(store.calls)) && Readable(a, t) ==> r.Success?
  {
    ghost var was := store.View();
    var listed := store.ListStepsByTurn(t);
    if listed.Failure? { return Failure; }
    StepsUnderSame(c, ts, a, store.View(), t);
    r := CloseListedSteps(store, c, ts, a, t, turnStarted, listed.value);
    if r.Success? {
      AllListedStepsDone(c, ts, a, t, c.CloseTime(turnStarted), listed.value, was.steps, was, store.View(), r.value);
      AllListedStepsReadable(c, a, t, listed.value, was.steps, store.View());
    }
  }
}
