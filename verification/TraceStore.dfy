/** The trace store and turn lifecycle as recovery sees them: four tables behind calls that may fail. */
module TraceStore {
  import opened Wrappers
  import opened TraceModel

  /** The fate of one store call. `LostReply` writes and then reports an error. */
  datatype Reply = Fine | Refused | LostReply

  class Store {
    var turns: map<TurnId, Turn>
    var steps: map<StepId, StepRow>
    var spans: map<SpanId, SpanRow>
    var events: map<SpanId, seq<Option<Time>>>

    // Call number n meets the fate `plan(n)`. A process killed before call n leaves the
    // tables exactly as a plan that refuses every call from n on.
    const plan: nat -> Reply
    var calls: nat

    constructor (db: Db, plan: nat -> Reply)
      ensures View() == db && this.plan == plan && calls == 0
    {
      turns, steps, spans, events := db.turns, db.steps, db.spans, db.events;
      this.plan := plan;
      calls := 0;
    }

    function View(): Db
      reads this`turns, this`steps, this`spans, this`events
    {
      Db(turns, steps, spans, events)
    }

    /** No call from number `since` up to now went wrong. */
    ghost predicate Calm(since: nat)
      reads this`calls
    {
      forall n :: since <= n < calls ==> plan(n).Fine?
    }

    /** One row that does not decode fails the whole listing. */
    method ListTurns(wanted: set<TurnId>) returns (r: Result<seq<(TurnId, Turn)>>)
      requires wanted <= turns.Keys
      modifies `calls
      ensures calls == old(calls) + 1
      ensures r.Success? <==> plan(old(calls)).Fine? && AllDecode(View(), wanted)
      ensures r.Success? ==> Lists(r.value, turns, wanted)
    {
      calls := calls + 1;
      if !plan(calls - 1).Fine? { return Failure; }
      var rows := ListRows(turns, wanted);
      if exists i :: 0 <= i < |rows| && !rows[i].1.decodes { return Failure; }
      forall t | t in wanted ensures TurnDecodes(View(), t) { assert Named(t, rows); }
      r := Success(rows);
    }

    method ListRecoverable() returns (r: Result<seq<(TurnId, Turn)>>)
      modifies `calls
      ensures calls == old(calls) + 1
      ensures r.Success? <==> plan(old(calls)).Fine? && AllDecode(View(), LiveTurns(View()))
      ensures r.Success? ==> Lists(r.value, turns, LiveTurns(View()))
    {
      r := ListTurns(LiveTurns(View()));
    }

    method ListActiveBySession(session: SessionId) returns (r: Result<seq<(TurnId, Turn)>>)
      modifies `calls
      ensures calls == old(calls) + 1
      ensures r.Success? <==> plan(old(calls)).Fine? && AllDecode(View(), LiveIn(View(), session))
      ensures r.Success? ==> Lists(r.value, turns, LiveIn(View(), session))
    {
      r := ListTurns(LiveIn(View(), session));
    }

    method GetTurn(t: TurnId) returns (r: Result<Option<Turn>>)
      modifies `calls
      ensures calls == old(calls) + 1 && r.Success? == (plan(old(calls)).Fine? && TurnDecodes(View(), t))
      ensures r.Success? ==> r.value == if t in turns then Some(turns[t]) else None
    {
      calls := calls + 1;
      if !plan(calls - 1).Fine? || !TurnDecodes(View(), t) { return Failure; }
      r := Success(if t in turns then Some(turns[t]) else None);
    }

    method ListSteps(wanted: set<StepId>) returns (r: Result<seq<(StepId, StepRow)>>)
      requires wanted <= steps.Keys
      modifies `calls
      ensures calls == old(calls) + 1 && r.Success? == plan(old(calls)).Fine?
      ensures r.Success? ==> Lists(r.value, steps, wanted)
    {
      calls := calls + 1;
      if !plan(calls - 1).Fine? { return Failure; }
      var rows := ListRows(steps, wanted);
      r := Success(rows);
    }

    /** Rows come back raw: decoding them is the caller's business. */
    method ListStepsByTurn(t: TurnId) returns (r: Result<seq<(StepId, StepRow)>>)
      modifies `calls
      ensures calls == old(calls) + 1 && r.Success? == plan(old(calls)).Fine?
      ensures r.Success? ==> Lists(r.value, steps, StepsUnder(View(), t))
    {
      r := ListSteps(StepsUnder(View(), t));
    }

    method ListUnfinishedSteps() returns (r: Result<seq<(StepId, StepRow)>>)
      modifies `calls
      ensures calls == old(calls) + 1 && r.Success? == plan(old(calls)).Fine?
      ensures r.Success? ==> Lists(r.value, steps, UnfinishedSteps(View()))
    {
      r := ListSteps(UnfinishedSteps(View()));
    }

    method ListSpansByStep(s: StepId) returns (r: Result<seq<(SpanId, SpanRow)>>)
      modifies `calls
      ensures calls == old(calls) + 1 && r.Success? == plan(old(calls)).Fine?
      ensures r.Success? ==> Lists(r.value, spans, SpansUnder(View(), s))
    {
      calls := calls + 1;
      if !plan(calls - 1).Fine? { return Failure; }
      var rows := ListRows(spans, SpansUnder(View(), s));
      r := Success(rows);
    }

    method ListSpanEvents(p: SpanId) returns (r: Result<seq<Option<Time>>>)
      modifies `calls
      ensures calls == old(calls) + 1 && r.Success? == plan(old(calls)).Fine?
      ensures r.Success? ==> r.value == EventsOf(View(), p)
    {
      calls := calls + 1;
      if !plan(calls - 1).Fine? { return Failure; }
      r := Success(EventsOf(View(), p));
    }

    method SaveSpan(p: SpanId, row: SpanRow) returns (ok: bool)
      modifies `calls, `spans
      ensures calls == old(calls) + 1 && ok == plan(old(calls)).Fine?
      ensures spans == if plan(old(calls)).Refused? then old(spans) else old(spans)[p := row]
    {
      calls := calls + 1;
      if !plan(calls - 1).Refused? { spans := spans[p := row]; }
      ok := plan(calls - 1).Fine?;
    }

    method SaveStep(s: StepId, row: StepRow) returns (ok: bool)
      modifies `calls, `steps
      ensures calls == old(calls) + 1 && ok == plan(old(calls)).Fine?
      ensures steps == if plan(old(calls)).Refused? then old(steps) else old(steps)[s := row]
    {
      calls := calls + 1;
      if !plan(calls - 1).Refused? { steps := steps[s := row]; }
      ok := plan(calls - 1).Fine?;
    }

    /** Cancels at an explicit instant; a turn already terminal is left alone and reported as done. */
    method CancelAt(t: TurnId, at: Time) returns (ok: bool)
      requires t in turns
      modifies `calls, `turns
      ensures calls == old(calls) + 1 && ok == (plan(old(calls)).Fine? && old(turns)[t].decodes)
      ensures turns == if plan(old(calls)).Refused? || !old(turns)[t].decodes || old(turns)[t].status.Terminal() then old(turns)
                       else old(turns)[t := old(turns)[t].(status := TurnCancelled(SystemCrash), endedAt := Some(at))]
    {
      calls := calls + 1;
      ok := plan(calls - 1).Fine? && turns[t].decodes;
      if !plan(calls - 1).Refused? && turns[t].decodes { turns := turns[t := turns[t].CancelAt(at)]; }
    }
  }
}
