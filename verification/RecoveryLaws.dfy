/**
 * What crash recovery promises, proved of the target state `Settle` and of every
 * state a pass may stop in: convergence, idempotence, exact end times, frame.
 */
module RecoveryLaws {
  import opened Wrappers
  import opened TraceModel

  // ----- closing is final -----

  lemma LatestIsUnique(m: Time, base: Time, ts: set<Time>)
    requires IsLatest(m, base, ts)
    ensures m == Latest(base, ts)
  {
  }

  /** Closing a row that is already as recovery leaves it changes nothing. */
  lemma SpanFinalStable(c: Clock, ts: set<TurnId>, a: Db, b: Db, p: SpanId)
    requires PartOf(c, ts, a, b) && p in a.spans
    ensures SpanFinal(c, b, p) == SpanFinal(c, a, p)
  {
    assert SpanStage(c, ts, a, b, p);
  }

  lemma SpanEndsStable(c: Clock, ts: set<TurnId>, a: Db, b: Db, s: StepId)
    requires PartOf(c, ts, a, b)
    ensures SpanEnds(c, b, s) == SpanEnds(c, a, s)
  {
    forall p | p in a.spans
      ensures SpanFinal(c, b, p) == SpanFinal(c, a, p)
      ensures b.spans[p].step == a.spans[p].step
      ensures b.spans[p].body.Some? == a.spans[p].body.Some?
    {
      assert SpanStage(c, ts, a, b, p);
    }
    assert forall p :: p in SpansUnder(b, s) && b.spans[p].body.Some?
                  <==> p in SpansUnder(a, s) && a.spans[p].body.Some?;
  }

  lemma StepFinalStable(c: Clock, ts: set<TurnId>, a: Db, b: Db, s: StepId)
    requires PartOf(c, ts, a, b) && s in a.steps
    ensures Decoded(b, s) == Decoded(a, s) && b.steps[s].turn == a.steps[s].turn
    ensures StepFinal(c, b, s) == StepFinal(c, a, s)
  {
    assert StepStage(c, ts, a, b, s);
    SpanEndsStable(c, ts, a, b, s);
  }

  lemma StepEndsStable(c: Clock, ts: set<TurnId>, a: Db, b: Db, t: TurnId)
    requires PartOf(c, ts, a, b)
    ensures StepEnds(c, b, t) == StepEnds(c, a, t)
  {
    forall s | s in a.steps
      ensures Decoded(b, s) == Decoded(a, s) && b.steps[s].turn == a.steps[s].turn
      ensures StepFinal(c, b, s) == StepFinal(c, a, s)
    {
      StepFinalStable(c, ts, a, b, s);
    }
    assert forall s :: s in StepsUnder(b, t) && Decoded(b, s) <==> s in StepsUnder(a, t) && Decoded(a, s);
  }

  lemma TurnFinalStable(c: Clock, ts: set<TurnId>, a: Db, b: Db, t: TurnId)
    requires PartOf(c, ts, a, b) && t in a.turns
    ensures TurnFinal(c, b, t) == TurnFinal(c, a, t)
  {
    assert TurnStage(c, ts, a, b, t);
    StepEndsStable(c, ts, a, b, t);
  }

  /** What can be read does not change while a pass is under way. */
  lemma SpansReadableStable(c: Clock, ts: set<TurnId>, a: Db, b: Db, s: StepId)
    requires PartOf(c, ts, a, b)
    ensures forall p :: p in a.spans ==> (SpanReadable(b, p) <==> SpanReadable(a, p)) && b.spans[p].step == a.spans[p].step
    ensures SpansReadable(b, s) <==> SpansReadable(a, s)
  {
    forall p | p in a.spans
      ensures (SpanReadable(b, p) <==> SpanReadable(a, p)) && b.spans[p].step == a.spans[p].step
    {
      assert SpanStage(c, ts, a, b, p);
    }
  }

  lemma ReadableStable(c: Clock, ts: set<TurnId>, a: Db, b: Db, t: TurnId)
    requires PartOf(c, ts, a, b)
    ensures Readable(b, t) <==> Readable(a, t)
  {
    if t in a.turns { assert TurnStage(c, ts, a, b, t); }
    forall p | p in a.spans
      ensures SpanInScope({t}, b, p) <==> SpanInScope({t}, a, p)
      ensures SpanReadable(b, p) <==> SpanReadable(a, p)
    {
      SpansReadableStable(c, ts, a, b, a.spans[p].step);
      if a.spans[p].step in a.steps { StepFinalStable(c, ts, a, b, a.spans[p].step); }
    }
  }

  // ----- passes compose -----

  lemma SpansCompose(c: Clock, ts: set<TurnId>, ts': set<TurnId>, x: Db, y: Db, z: Db, p: SpanId)
    requires PartOf(c, ts, x, y) && PartOf(c, ts', y, z) && ts' <= ts && p in x.spans
    ensures SpanStage(c, ts, x, z, p) && y.spans[p].step == x.spans[p].step
    ensures y.spans[p] == SpanFinal(c, x, p) || z.spans[p] == SpanFinal(c, y, p) ==> z.spans[p] == SpanFinal(c, x, p)
  {
    assert SpanStage(c, ts, x, y, p) && SpanStage(c, ts', y, z, p);
    SpanFinalStable(c, ts, x, y, p);
    SpansReadableStable(c, ts, x, y, x.spans[p].step);
    if x.spans[p].step in x.steps { StepFinalStable(c, ts, x, y, x.spans[p].step); }
  }

  lemma StepsCompose(c: Clock, ts: set<TurnId>, ts': set<TurnId>, x: Db, y: Db, z: Db, s: StepId)
    requires PartOf(c, ts, x, y) && PartOf(c, ts', y, z) && ts' <= ts && s in x.steps
    ensures StepStage(c, ts, x, z, s)
    ensures y.steps[s].turn == x.steps[s].turn && Decoded(y, s) == Decoded(x, s)
    ensures y.steps[s] == StepFinal(c, x, s) || z.steps[s] == StepFinal(c, y, s) ==> z.steps[s] == StepFinal(c, x, s)
  {
    assert StepStage(c, ts, x, y, s) && StepStage(c, ts', y, z, s);
    StepFinalStable(c, ts, x, y, s);
    SpansReadableStable(c, ts, x, y, s);
    if z.steps[s] != x.steps[s] {
      forall p | p in x.spans && x.spans[p].step == s ensures z.spans[p] == SpanFinal(c, x, p) {
        SpansCompose(c, ts, ts', x, y, z, p);
      }
    }
  }

  lemma TurnsCompose(c: Clock, ts: set<TurnId>, ts': set<TurnId>, x: Db, y: Db, z: Db, t: TurnId)
    requires PartOf(c, ts, x, y) && PartOf(c, ts', y, z) && ts' <= ts && t in x.turns
    ensures TurnStage(c, ts, x, z, t)
    ensures TurnDone(c, x, y, t) || TurnDone(c, y, z, t) ==> TurnDone(c, x, z, t)
  {
    assert TurnStage(c, ts, x, y, t) && TurnStage(c, ts', y, z, t);
    TurnFinalStable(c, ts, x, y, t);
    ReadableStable(c, ts, x, y, t);
    if TurnDone(c, x, y, t) || TurnDone(c, y, z, t) {
      forall s | s in x.steps && x.steps[s].turn == t ensures z.steps[s] == StepFinal(c, x, s) {
        StepsCompose(c, ts, ts', x, y, z, s);
      }
      forall p | SpanInScope({t}, x, p) ensures z.spans[p] == SpanFinal(c, x, p) {
        SpansCompose(c, ts, ts', x, y, z, p);
        StepsCompose(c, ts, ts', x, y, z, x.spans[p].step);
        assert SpanInScope({t}, y, p);
      }
    }
  }

  /** A later pass over fewer turns keeps every row the earlier one closed. */
  lemma PassesCompose(c: Clock, ts: set<TurnId>, ts': set<TurnId>, x: Db, y: Db, z: Db)
    requires PartOf(c, ts, x, y) && PartOf(c, ts', y, z) && ts' <= ts
    ensures PartOf(c, ts, x, z)
    ensures forall t :: t in x.turns && TurnDone(c, x, y, t) ==> TurnDone(c, x, z, t)
    ensures forall t :: t in x.turns && TurnDone(c, y, z, t) ==> TurnDone(c, x, z, t)
  {
    forall t | t in x.turns
      ensures TurnStage(c, ts, x, z, t)
      ensures TurnDone(c, x, y, t) ==> TurnDone(c, x, z, t)
      ensures TurnDone(c, y, z, t) ==> TurnDone(c, x, z, t)
    {
      TurnsCompose(c, ts, ts', x, y, z, t);
    }
    forall p | p in x.spans ensures SpanStage(c, ts, x, z, p) { SpansCompose(c, ts, ts', x, y, z, p); }
    forall s | s in x.steps ensures StepStage(c, ts, x, z, s) { StepsCompose(c, ts, ts', x, y, z, s); }
  }

  /** Once every turn of the pass is done, the whole store is the settled one. */
  lemma AllDoneIsSettled(c: Clock, ts: set<TurnId>, a: Db, b: Db)
    requires PartOf(c, ts, a, b)
    requires forall t :: t in ts ==> TurnDone(c, a, b, t)
    ensures b == Settle(c, ts, a)
  {
    assert forall t :: t in a.turns ==> TurnStage(c, ts, a, b, t);
    assert b.turns == Settle(c, ts, a).turns;
    forall s | s in a.steps ensures b.steps[s] == Settle(c, ts, a).steps[s] {
      assert StepStage(c, ts, a, b, s);
    }
    forall p | p in a.spans ensures b.spans[p] == Settle(c, ts, a).spans[p] {
      assert SpanStage(c, ts, a, b, p);
      if SpanInScope(ts, a, p) { assert SpanInScope({a.steps[a.spans[p].step].turn}, a, p); }
    }
  }

  // ----- end times -----

  ghost function CrashInstants(c: Clock): set<Time> {
    match c
    case ObservedActivity => {}
    case CrashAt(at) => {at}
  }

  lemma LatestOfClosed(c: Clock, base: Time, ts: set<Time>)
    ensures IsLatest(Latest(c.CloseTime(base), ts), base, ts + CrashInstants(c))
    ensures IsLatest(c.CloseTime(Latest(base, ts)), base, ts + CrashInstants(c))
    ensures c.CloseTime(Latest(c.CloseTime(base), ts)) == Latest(c.CloseTime(base), ts)
  {
  }

  /**
   * The running floors are exact maxima: a pending span ends at the latest of its start
   * and events, a pending step at the latest of its start and its spans' ends, a live turn
   * at the latest of its start and its steps' ends, each joined by the crash instant when known.
   */
  lemma EndsAreExactMaxima(c: Clock, db: Db)
    ensures forall p :: p in PendingSpans(db) ==>
              IsLatest(SpanFinal(c, db, p).body.value.endedAt.value, db.spans[p].body.value.startedAt,
                       EventTimes(EventsOf(db, p)) + CrashInstants(c))
    ensures forall s :: s in PendingSteps(db) ==>
              IsLatest(StepFinal(c, db, s).body.value.endedAt.value, db.steps[s].body.value.startedAt,
                       SpanEnds(c, db, s) + CrashInstants(c))
    ensures forall t :: t in LiveTurns(db) ==>
              && TurnFinal(c, db, t).endedAt.Some?
              && IsLatest(TurnFinal(c, db, t).endedAt.value, db.turns[t].Start(), StepEnds(c, db, t) + CrashInstants(c))
  {
    forall p | p in PendingSpans(db)
      ensures IsLatest(SpanFinal(c, db, p).body.value.endedAt.value, db.spans[p].body.value.startedAt,
                       EventTimes(EventsOf(db, p)) + CrashInstants(c))
    {
      LatestOfClosed(c, db.spans[p].body.value.startedAt, EventTimes(EventsOf(db, p)));
    }
    forall s | s in PendingSteps(db)
      ensures IsLatest(StepFinal(c, db, s).body.value.endedAt.value, db.steps[s].body.value.startedAt,
                       SpanEnds(c, db, s) + CrashInstants(c))
    {
      LatestOfClosed(c, db.steps[s].body.value.startedAt, SpanEnds(c, db, s));
    }
    forall t | t in LiveTurns(db)
      ensures IsLatest(TurnFloor(c, db, t), db.turns[t].Start(), StepEnds(c, db, t) + CrashInstants(c))
    {
      LatestOfClosed(c, db.turns[t].Start(), StepEnds(c, db, t));
    }
  }

  ghost predicate Closable(body: Option<Body>) {
    body.Some? && (body.value.state.Pending? || body.value.endedAt.None?)
  }

  /** Every row a pass closes starts before it ends and ends no earlier than its children. */
  lemma ClosedRowsNest(c: Clock, db: Db, p: SpanId, s: StepId, t: TurnId)
    requires p in db.spans && db.spans[p].step == s && db.spans[p].body.Some?
    requires Decoded(db, s) && db.steps[s].turn == t && t in db.turns
    ensures Closable(db.spans[p].body) ==>
              db.spans[p].body.value.startedAt <= SpanFinal(c, db, p).body.value.endedAt.value
    ensures Closable(db.steps[s].body) ==>
              && db.steps[s].body.value.startedAt <= StepFinal(c, db, s).body.value.endedAt.value
              && SpanFinal(c, db, p).body.value.endedAt.value <= StepFinal(c, db, s).body.value.endedAt.value
    ensures t in LiveTurns(db) ==>
              && db.turns[t].Start() <= TurnFinal(c, db, t).endedAt.value
              && StepFinal(c, db, s).body.value.endedAt.value <= TurnFinal(c, db, t).endedAt.value
  {
    assert p in SpansUnder(db, s) && s in StepsUnder(db, t);
    assert SpanFinal(c, db, p).body.value.endedAt.value in SpanEnds(c, db, s);
    assert StepFinal(c, db, s).body.value.endedAt.value in StepEnds(c, db, t);
  }

  ghost function RowTimes(body: Option<Body>): set<Time> {
    if body.None? then {}
    else {body.value.startedAt} + (if body.value.endedAt.Some? then {body.value.endedAt.value} else {})
  }

  ghost function SpanTimes(db: Db, p: SpanId): set<Time>
    requires p in db.spans
  {
    RowTimes(db.spans[p].body) + EventTimes(EventsOf(db, p))
  }

  /** `x` is an instant recorded in the part of `t`'s subtree that recovery reads. */
  ghost predicate Recorded(db: Db, t: TurnId, x: Time)
    requires t in db.turns
  {
    || x == db.turns[t].Start()
    || (exists s :: s in StepsUnder(db, t) && x in RowTimes(db.steps[s].body))
    || (exists p :: p in db.spans && SpanInScope({t}, db, p) && x in SpanTimes(db, p))
  }

  /** Boot recovery invents no instant: each end it writes was already in the subtree. */
  lemma ObservedClockInventsNothing(db: Db, t: TurnId)
    requires t in db.turns
    ensures forall p :: SpanInScope({t}, db, p) && db.spans[p].body.Some? ==>
              Recorded(db, t, SpanFinal(ObservedActivity, db, p).body.value.endedAt.value)
    ensures forall s :: s in StepsUnder(db, t) && Decoded(db, s) ==>
              Recorded(db, t, StepFinal(ObservedActivity, db, s).body.value.endedAt.value)
    ensures Recorded(db, t, TurnFloor(ObservedActivity, db, t))
  {
    forall p | SpanInScope({t}, db, p) && db.spans[p].body.Some?
      ensures Recorded(db, t, SpanFinal(ObservedActivity, db, p).body.value.endedAt.value)
    {
      assert SpanFinal(ObservedActivity, db, p).body.value.endedAt.value in SpanTimes(db, p);
    }
    forall s | s in StepsUnder(db, t) && Decoded(db, s)
      ensures Recorded(db, t, StepFinal(ObservedActivity, db, s).body.value.endedAt.value)
    {
      var end := StepFinal(ObservedActivity, db, s).body.value.endedAt.value;
      if end !in RowTimes(db.steps[s].body) {
        var p :| p in SpansUnder(db, s) && db.spans[p].body.Some?
                 && end == SpanFinal(ObservedActivity, db, p).body.value.endedAt.value;
        assert SpanInScope({t}, db, p);
      }
    }
  }

  // ----- frame -----

  ghost predicate SamePayload(x: Option<Body>, y: Option<Body>)
    requires x.Some? && y.Some?
  {
    x.value.kind == y.value.kind && x.value.startedAt == y.value.startedAt
  }

  /**
   * Whatever a pass did, it left alone every row of other turns, every row already closed,
   * every terminal turn, and the payload and start of the rows it closed.
   */
  lemma PassFrame(c: Clock, ts: set<TurnId>, a: Db, b: Db)
    requires PartOf(c, ts, a, b)
    ensures forall t :: t in a.turns && (t !in ts || a.turns[t].status.Terminal()) ==> b.turns[t] == a.turns[t]
    ensures forall t :: t in a.turns ==>
              b.turns[t].(status := a.turns[t].status, endedAt := a.turns[t].endedAt) == a.turns[t]
    ensures forall s :: s in a.steps && (a.steps[s].turn !in ts || !Closable(a.steps[s].body)) ==> b.steps[s] == a.steps[s]
    ensures forall p :: p in a.spans && (!SpanInScope(ts, a, p) || !Closable(a.spans[p].body)) ==> b.spans[p] == a.spans[p]
    ensures forall s :: s in a.steps && Decoded(a, s) ==> Decoded(b, s) && SamePayload(a.steps[s].body, b.steps[s].body)
    ensures forall p :: p in a.spans && a.spans[p].body.Some? ==>
              b.spans[p].body.Some? && SamePayload(a.spans[p].body, b.spans[p].body)
  {
    forall t | t in a.turns
      ensures t !in ts || a.turns[t].status.Terminal() ==> b.turns[t] == a.turns[t]
      ensures b.turns[t].(status := a.turns[t].status, endedAt := a.turns[t].endedAt) == a.turns[t]
    {
      assert TurnStage(c, ts, a, b, t);
    }
    forall s | s in a.steps
      ensures a.steps[s].turn !in ts || !Closable(a.steps[s].body) ==> b.steps[s] == a.steps[s]
      ensures Decoded(a, s) ==> Decoded(b, s) && SamePayload(a.steps[s].body, b.steps[s].body)
    {
      assert StepStage(c, ts, a, b, s);
    }
    forall p | p in a.spans
      ensures !SpanInScope(ts, a, p) || !Closable(a.spans[p].body) ==> b.spans[p] == a.spans[p]
      ensures a.spans[p].body.Some? ==> b.spans[p].body.Some? && SamePayload(a.spans[p].body, b.spans[p].body)
    {
      assert SpanStage(c, ts, a, b, p);
    }
  }

  // ----- what a crash leaves -----

  /** Live are the turns that are pending, in progress or stuck. */
  lemma LiveAre(db: Db, t: TurnId)
    ensures t in LiveTurns(db) <==>
              t in db.turns && (db.turns[t].status == TurnPending || db.turns[t].status == InProgress || db.turns[t].status.Stuck?)
  {
  }

  lemma LiveInAre(db: Db, session: SessionId, t: TurnId)
    ensures t in LiveIn(db, session) <==> t in LiveTurns(db) && db.turns[t].session == session
  {
  }

  /** Neither a body's end nor, for a row that does not decode, the end column. */
  predicate NoEnd(body: Option<Body>, ended: bool) { (body.Some? && body.value.endedAt == None) || (body.None? && !ended) }

  /** Detached are the ended turns with a decodable step that has no end, or a span under it that has none. */
  lemma DetachedAre(db: Db, t: TurnId)
    ensures t in DetachedTurns(db) <==>
              && t in db.turns && (db.turns[t].status.TurnCancelled? || db.turns[t].status.TurnFailed? || db.turns[t].status == Completed)
              && exists s :: s in db.steps && db.steps[s].turn == t && db.steps[s].body.Some?
                             && (NoEnd(db.steps[s].body, db.steps[s].ended)
                                 || exists p :: p in db.spans && db.spans[p].step == s && NoEnd(db.spans[p].body, db.spans[p].ended))
  {
    forall s | s in db.steps
      ensures s in UnfinishedSteps(db) <==>
                NoEnd(db.steps[s].body, db.steps[s].ended)
                || exists p :: p in db.spans && db.spans[p].step == s && NoEnd(db.spans[p].body, db.spans[p].ended)
    {
      assert forall p :: p in db.spans ==> (Open(db.spans[p].body, db.spans[p].ended) <==> NoEnd(db.spans[p].body, db.spans[p].ended));
    }
  }

  /** The row as it was, with another state and an end. */
  ghost predicate ClosedAs(x: Option<Body>, y: Option<Body>, state: LifeState, end: Time) {
    x.Some? && y == Some(x.value.(state := state, endedAt := Some(end)))
  }

  ghost predicate CrashedSpan(c: Clock, x: Option<Body>, y: Option<Body>, evs: seq<Option<Time>>) {
    x.Some? &&
    match x.value.state
    case Pending =>
      exists end :: ClosedAs(x, y, Done(Cancelled(SystemCrash)), end)
                    && IsLatest(end, x.value.startedAt, (set e | e in evs && e.Some? :: e.value) + CrashInstants(c))
    case Done(outcome) => x.value.endedAt.None? && ClosedAs(x, y, Done(outcome), x.value.startedAt)
  }

  /** The ends of the spans of a step as they stand. */
  function EndsOfSpans(db: Db, s: StepId): set<Time> {
    set p | p in db.spans && db.spans[p].step == s && db.spans[p].body.Some? && db.spans[p].body.value.endedAt.Some?
      :: db.spans[p].body.value.endedAt.value
  }

  ghost predicate CrashedStep(c: Clock, x: Option<Body>, y: Option<Body>, ends: set<Time>) {
    x.Some? &&
    exists end :: IsLatest(end, x.value.startedAt, ends + CrashInstants(c)) &&
      match x.value.state
      case Pending => ClosedAs(x, y, Done(Cancelled(SystemCrash)), end)
      case Done(outcome) => x.value.endedAt.None? && ClosedAs(x, y, Done(outcome), end)
  }

  /** The ends of the steps of a turn as they stand. */
  function EndsOfSteps(db: Db, t: TurnId): set<Time> {
    set s | s in db.steps && db.steps[s].turn == t && db.steps[s].body.Some? && db.steps[s].body.value.endedAt.Some?
      :: db.steps[s].body.value.endedAt.value
  }

  ghost predicate CrashedTurn(c: Clock, x: Turn, y: Turn, ends: set<Time>) {
    && (x.status.TurnPending? || x.status.InProgress? || x.status.Stuck?)
    && exists end :: && y == x.(status := TurnCancelled(SystemCrash), endedAt := Some(end))
                     && IsLatest(end, if x.startedAt.Some? then x.startedAt.value else x.createdAt, ends + CrashInstants(c))
  }

  /**
   * What a pass may have done to `a`, row by row: a live turn is cancelled for the crash, a row that
   * was Pending becomes cancelled for the crash, a Done row without an end keeps its outcome, each
   * ends at the exact latest of what it covers, and nothing else has changed.
   */
  ghost predicate CrashLeaves(c: Clock, a: Db, b: Db) {
    && SameKeys(a, b) && a.events == b.events
    && (forall p :: p in a.spans && b.spans[p] != a.spans[p] ==>
          && b.spans[p] == a.spans[p].(body := b.spans[p].body)
          && CrashedSpan(c, a.spans[p].body, b.spans[p].body, if p in a.events then a.events[p] else []))
    && (forall s :: s in a.steps && b.steps[s] != a.steps[s] ==>
          && b.steps[s] == a.steps[s].(body := b.steps[s].body)
          && CrashedStep(c, a.steps[s].body, b.steps[s].body, EndsOfSpans(b, s)))
    && (forall t :: t in a.turns && b.turns[t] != a.turns[t] ==>
          CrashedTurn(c, a.turns[t], b.turns[t], EndsOfSteps(b, t)))
  }

  /** Nothing recovery can decode under the turn is Pending or without an end. */
  ghost predicate NothingOpen(b: Db, t: TurnId) {
    && (forall s :: s in b.steps && b.steps[s].turn == t && b.steps[s].body.Some? ==>
          b.steps[s].body.value.state.Done? && b.steps[s].body.value.endedAt.Some?)
    && (forall p :: SpanInScope({t}, b, p) ==>
          b.spans[p].body.Some? && b.spans[p].body.value.state.Done? && b.spans[p].body.value.endedAt.Some?)
  }

  ghost predicate CancelledForTheCrash(b: Db, t: TurnId) { t in b.turns && b.turns[t].status == TurnCancelled(SystemCrash) }

  /** A finished turn holds nothing open, and was cancelled for the crash if it was live. */
  lemma DoneTurnsAreClosedForGood(c: Clock, ts: set<TurnId>, a: Db, b: Db, t: TurnId)
    requires PartOf(c, ts, a, b) && TurnDone(c, a, b, t) && Readable(a, t)
    ensures NothingOpen(b, t) && (t in LiveTurns(a) ==> CancelledForTheCrash(b, t))
  {
    forall s | s in b.steps && b.steps[s].turn == t && b.steps[s].body.Some?
      ensures b.steps[s].body.value.state.Done? && b.steps[s].body.value.endedAt.Some?
    {
      assert StepStage(c, ts, a, b, s);
      assert b.steps[s] == StepFinal(c, a, s);
    }
    forall p | SpanInScope({t}, b, p)
      ensures b.spans[p].body.Some? && b.spans[p].body.value.state.Done? && b.spans[p].body.value.endedAt.Some?
    {
      assert SpanStage(c, ts, a, b, p) && StepStage(c, ts, a, b, b.spans[p].step);
      assert SpanInScope({t}, a, p) && b.spans[p] == SpanFinal(c, a, p) && SpanReadable(a, p);
    }
  }

  lemma EventTimesAre(evs: seq<Option<Time>>)
    ensures EventTimes(evs) == set e | e in evs && e.Some? :: e.value
  {
    forall t | t in set e | e in evs && e.Some? :: e.value ensures t in EventTimes(evs) {
      var i :| 0 <= i < |evs| && evs[i] == Some(t);
    }
  }

  lemma SpanLeft(c: Clock, ts: set<TurnId>, a: Db, b: Db, p: SpanId)
    requires PartOf(c, ts, a, b) && p in a.spans && b.spans[p] != a.spans[p]
    ensures b.spans[p] == a.spans[p].(body := b.spans[p].body)
    ensures CrashedSpan(c, a.spans[p].body, b.spans[p].body, if p in a.events then a.events[p] else [])
  {
    assert SpanStage(c, ts, a, b, p);
    var x := a.spans[p].body.value;
    EventTimesAre(EventsOf(a, p));
    LatestOfClosed(c, x.startedAt, EventTimes(EventsOf(a, p)));
    var end := b.spans[p].body.value.endedAt.value;
    assert x.state.Pending? ==> ClosedAs(a.spans[p].body, b.spans[p].body, Done(Cancelled(SystemCrash)), end);
  }

  /** Over closed spans the ends recovery reads are the ends that stand. */
  lemma SpanEndsStand(c: Clock, a: Db, b: Db, s: StepId)
    requires SameKeys(a, b) && SpansDone(c, a, b, s) && forall p :: p in a.spans ==> b.spans[p].step == a.spans[p].step
    ensures EndsOfSpans(b, s) == SpanEnds(c, a, s)
  {
    forall p | p in a.spans && a.spans[p].step == s ensures b.spans[p] == SpanFinal(c, a, p) {}
    forall t | t in SpanEnds(c, a, s) ensures t in EndsOfSpans(b, s) {
      var p :| p in SpansUnder(a, s) && a.spans[p].body.Some? && SpanFinal(c, a, p).body.value.endedAt.value == t;
      assert b.spans[p] == SpanFinal(c, a, p);
    }
  }

  lemma SpansKeepTheirStep(c: Clock, ts: set<TurnId>, a: Db, b: Db)
    requires PartOf(c, ts, a, b)
    ensures forall p :: p in a.spans ==> b.spans[p].step == a.spans[p].step
  {
    forall p | p in a.spans ensures b.spans[p].step == a.spans[p].step { assert SpanStage(c, ts, a, b, p); }
  }

  lemma StepLeft(c: Clock, ts: set<TurnId>, a: Db, b: Db, s: StepId)
    requires PartOf(c, ts, a, b) && s in a.steps && b.steps[s] != a.steps[s]
    ensures b.steps[s] == a.steps[s].(body := b.steps[s].body)
    ensures CrashedStep(c, a.steps[s].body, b.steps[s].body, EndsOfSpans(b, s))
  {
    assert StepStage(c, ts, a, b, s);
    SpansKeepTheirStep(c, ts, a, b);
    SpanEndsStand(c, a, b, s);
    var x := a.steps[s].body.value;
    LatestOfClosed(c, x.startedAt, SpanEnds(c, a, s));
    var end := b.steps[s].body.value.endedAt.value;
    assert IsLatest(end, x.startedAt, EndsOfSpans(b, s) + CrashInstants(c));
  }

  lemma StepEndsStand(c: Clock, ts: set<TurnId>, a: Db, b: Db, t: TurnId)
    requires PartOf(c, ts, a, b) && TurnDone(c, a, b, t)
    ensures EndsOfSteps(b, t) == StepEnds(c, a, t)
  {
    forall s | s in a.steps ensures b.steps[s].turn == a.steps[s].turn { StepFinalStable(c, ts, a, b, s); }
    forall s | s in a.steps && a.steps[s].turn == t ensures b.steps[s] == StepFinal(c, a, s) {}
    forall x | x in StepEnds(c, a, t) ensures x in EndsOfSteps(b, t) {
      var s :| s in StepsUnder(a, t) && Decoded(a, s) && StepFinal(c, a, s).body.value.endedAt.value == x;
      assert b.steps[s] == StepFinal(c, a, s);
    }
  }

  lemma TurnLeft(c: Clock, ts: set<TurnId>, a: Db, b: Db, t: TurnId)
    requires PartOf(c, ts, a, b) && t in a.turns && b.turns[t] != a.turns[t]
    ensures CrashedTurn(c, a.turns[t], b.turns[t], EndsOfSteps(b, t))
  {
    assert TurnStage(c, ts, a, b, t);
    StepEndsStand(c, ts, a, b, t);
    LatestOfClosed(c, a.turns[t].Start(), StepEnds(c, a, t));
    var end := b.turns[t].endedAt.value;
    assert IsLatest(end, a.turns[t].Start(), EndsOfSteps(b, t) + CrashInstants(c));
  }

  /** However far it got, a pass leaves only what a crash leaves. */
  lemma PassLeavesACrash(c: Clock, ts: set<TurnId>, a: Db, b: Db)
    requires PartOf(c, ts, a, b)
    ensures CrashLeaves(c, a, b)
  {
    forall p | p in a.spans && b.spans[p] != a.spans[p]
      ensures b.spans[p] == a.spans[p].(body := b.spans[p].body)
      ensures CrashedSpan(c, a.spans[p].body, b.spans[p].body, if p in a.events then a.events[p] else [])
    {
      SpanLeft(c, ts, a, b, p);
    }
    forall s | s in a.steps && b.steps[s] != a.steps[s]
      ensures b.steps[s] == a.steps[s].(body := b.steps[s].body)
      ensures CrashedStep(c, a.steps[s].body, b.steps[s].body, EndsOfSpans(b, s))
    {
      StepLeft(c, ts, a, b, s);
    }
    forall t | t in a.turns && b.turns[t] != a.turns[t]
      ensures CrashedTurn(c, a.turns[t], b.turns[t], EndsOfSteps(b, t))
    {
      TurnLeft(c, ts, a, b, t);
    }
  }
}
