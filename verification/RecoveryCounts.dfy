/** What a pass touches and what its summary may claim. */
module RecoveryCounts {
  import opened Wrappers
  import opened TraceModel
  import opened RecoveryConvergence

  datatype Summary = Summary(turnsInspected: nat, turnsCancelled: nat, stepsClosed: nat, spansClosed: nat)

  function Plus(x: Summary, y: Summary): Summary {
    Summary(x.turnsInspected + y.turnsInspected, x.turnsCancelled + y.turnsCancelled,
            x.stepsClosed + y.stepsClosed, x.spansClosed + y.spansClosed)
  }

  const NOTHING := Summary(0, 0, 0, 0)

  /** The summary never claims more than left the Pending and live sets. */
  ghost predicate CountsWithin(was: Db, now: Db, sum: Summary) {
    && |PendingSteps(now)| + sum.stepsClosed <= |PendingSteps(was)|
    && |PendingSpans(now)| + sum.spansClosed <= |PendingSpans(was)|
    && |LiveTurns(now)| + sum.turnsCancelled <= |LiveTurns(was)|
  }

  ghost predicate CountsExactly(was: Db, now: Db, sum: Summary) {
    && |PendingSteps(now)| + sum.stepsClosed == |PendingSteps(was)|
    && |PendingSpans(now)| + sum.spansClosed == |PendingSpans(was)|
    && |LiveTurns(now)| + sum.turnsCancelled == |LiveTurns(was)|
  }

  lemma CountsJoin(a: Db, mid: Db, now: Db, x: Summary, y: Summary)
    requires CountsWithin(a, mid, x) && CountsWithin(mid, now, y)
    ensures CountsWithin(a, now, Plus(x, y))
    ensures CountsExactly(a, mid, x) && CountsExactly(mid, now, y) ==> CountsExactly(a, now, Plus(x, y))
  {
  }

  ghost predicate AllReadable(a: Db, ts: set<TurnId>) {
    forall t {:trigger Readable(a, t)} :: t in ts ==> Readable(a, t)
  }

  /** The Pending rows of `db` that belong to turns `a` lets recovery read, and the others. */
  ghost function StepsRead(a: Db, db: Db): set<StepId> {
    set s | s in PendingSteps(db) && s in a.steps && Readable(a, a.steps[s].turn)
  }

  ghost function SpansRead(a: Db, db: Db): set<SpanId> {
    set p | p in PendingSpans(db) && p in a.spans && Decoded(a, a.spans[p].step) && Readable(a, a.steps[a.spans[p].step].turn)
  }

  ghost function StepsUnread(a: Db, db: Db): set<StepId> { PendingSteps(db) - StepsRead(a, db) }

  ghost function SpansUnread(a: Db, db: Db): set<SpanId> { PendingSpans(db) - SpansRead(a, db) }

  /** The summary counts exactly what was closed under turns that can be read, and every cancelled turn. */
  ghost predicate CountsRead(a: Db, was: Db, now: Db, sum: Summary) {
    && |StepsRead(a, now)| + sum.stepsClosed == |StepsRead(a, was)|
    && |SpansRead(a, now)| + sum.spansClosed == |SpansRead(a, was)|
    && |LiveTurns(now)| + sum.turnsCancelled == |LiveTurns(was)|
  }

  lemma SplitsInTwo<T>(all: set<T>, part: set<T>)
    requires part <= all
    ensures |all| == |part| + |all - part|
  {
    assert all == part + (all - part);
  }

  /** Every row that does not belong to one of `ts` is unchanged. */
  ghost predicate Untouched(a: Db, ts: set<TurnId>, was: Db, now: Db) {
    && SameKeys(a, was) && SameKeys(a, now)
    && (forall t {:trigger now.turns[t]} :: t in a.turns && t !in ts ==> now.turns[t] == was.turns[t])
    && (forall s {:trigger now.steps[s]} :: s in a.steps && a.steps[s].turn !in ts ==> now.steps[s] == was.steps[s])
    && (forall p {:trigger now.spans[p]} :: p in a.spans && !SpanInScope(ts, a, p) ==> now.spans[p] == was.spans[p])
  }

  lemma UntouchedTwice(a: Db, t: TurnId, x: Db, y: Db, z: Db)
    requires Untouched(a, {t}, x, y) && Untouched(a, {t}, y, z)
    ensures Untouched(a, {t}, x, z)
  {
  }

  lemma UntouchedJoins(a: Db, ts: set<TurnId>, us: set<TurnId>, x: Db, y: Db, z: Db)
    requires Untouched(a, ts, x, y) && Untouched(a, us, y, z)
    ensures Untouched(a, ts + us, x, z)
  {
  }

  lemma UnreadStepsStay(a: Db, t: TurnId, was: Db, now: Db)
    requires Untouched(a, {t}, was, now) && Readable(a, t)
    ensures StepsUnread(a, now) == StepsUnread(a, was)
  {
    forall s | s in a.steps && !Readable(a, a.steps[s].turn) ensures now.steps[s] == was.steps[s] {}
  }

  lemma UnreadSpansStay(a: Db, t: TurnId, was: Db, now: Db)
    requires Untouched(a, {t}, was, now) && Readable(a, t)
    ensures SpansUnread(a, now) == SpansUnread(a, was)
  {
    forall p | p in a.spans && !(Decoded(a, a.spans[p].step) && Readable(a, a.steps[a.spans[p].step].turn))
      ensures now.spans[p] == was.spans[p]
    {
    }
  }

  /** Work on a turn that can be read: what left the Pending sets left their readable parts. */
  lemma CountsOfReadableTurn(a: Db, t: TurnId, was: Db, now: Db, sum: Summary)
    requires Untouched(a, {t}, was, now) && Readable(a, t) && CountsExactly(was, now, sum)
    ensures CountsRead(a, was, now, sum)
  {
    UnreadStepsStay(a, t, was, now);
    UnreadSpansStay(a, t, was, now);
    SplitsInTwo(PendingSteps(was), StepsRead(a, was));
    SplitsInTwo(PendingSteps(now), StepsRead(a, now));
    SplitsInTwo(PendingSpans(was), SpansRead(a, was));
    SplitsInTwo(PendingSpans(now), SpansRead(a, now));
  }

  /** Work on a turn that cannot be read leaves the readable parts alone. */
  lemma CountsOfUnreadableTurn(a: Db, t: TurnId, was: Db, now: Db, inspected: nat)
    requires Untouched(a, {t}, was, now) && !Readable(a, t) && now.turns == was.turns
    ensures CountsRead(a, was, now, Summary(inspected, 0, 0, 0))
  {
    assert StepsRead(a, now) == StepsRead(a, was);
    assert SpansRead(a, now) == SpansRead(a, was);
    assert LiveTurns(now) == LiveTurns(was);
  }

  lemma SameSizeSubset<T>(x: set<T>, y: set<T>)
    requires x <= y
    ensures |x| <= |y| && (|x| == |y| <==> x == y)
  {
    SplitsInTwo(y, x);
    if |x| == |y| { assert y - x == {}; }
  }

  /** A pass makes no row Pending. */
  lemma UnreadShrinks(c: Clock, ts: set<TurnId>, a: Db, now: Db)
    requires PartOf(c, ts, a, now)
    ensures StepsUnread(a, now) <= StepsUnread(a, a) && SpansUnread(a, now) <= SpansUnread(a, a)
  {
    forall p | p in PendingSpans(now) ensures p in PendingSpans(a) { assert SpanStage(c, ts, a, now, p); }
    forall s | s in PendingSteps(now) ensures s in PendingSteps(a) { assert StepStage(c, ts, a, now, s); }
  }

  predicate WasPending(body: Option<Body>) { body.Some? && body.value.state == Pending }

  /** The Pending steps of readable turns that a pass has changed. */
  ghost function StepsClosedBy(a: Db, now: Db): set<StepId>
    requires SameKeys(a, now)
  {
    set s | s in a.steps && WasPending(a.steps[s].body) && now.steps[s] != a.steps[s] && Readable(a, a.steps[s].turn)
  }

  /** The Pending spans under decodable steps of readable turns that it has changed. */
  ghost function SpansClosedBy(a: Db, now: Db): set<SpanId>
    requires SameKeys(a, now)
  {
    set p | p in a.spans && WasPending(a.spans[p].body) && now.spans[p] != a.spans[p]
            && Decoded(a, a.spans[p].step) && Readable(a, a.steps[a.spans[p].step].turn)
  }

  lemma StepsDrop(c: Clock, ts: set<TurnId>, a: Db, now: Db)
    requires PartOf(c, ts, a, now)
    ensures |StepsRead(a, a)| == |StepsRead(a, now)| + |StepsClosedBy(a, now)|
  {
    forall s | s in a.steps
      ensures s in StepsRead(a, a) - StepsRead(a, now) <==> s in StepsClosedBy(a, now)
      ensures s in StepsRead(a, now) ==> s in StepsRead(a, a)
    {
      assert StepStage(c, ts, a, now, s);
    }
    assert StepsRead(a, a) - StepsRead(a, now) == StepsClosedBy(a, now);
    SplitsInTwo(StepsRead(a, a), StepsRead(a, now));
  }

  lemma SpansDrop(c: Clock, ts: set<TurnId>, a: Db, now: Db)
    requires PartOf(c, ts, a, now)
    ensures |SpansRead(a, a)| == |SpansRead(a, now)| + |SpansClosedBy(a, now)|
  {
    forall p | p in a.spans
      ensures p in SpansRead(a, a) - SpansRead(a, now) <==> p in SpansClosedBy(a, now)
      ensures p in SpansRead(a, now) ==> p in SpansRead(a, a)
    {
      assert SpanStage(c, ts, a, now, p);
    }
    assert SpansRead(a, a) - SpansRead(a, now) == SpansClosedBy(a, now);
    SplitsInTwo(SpansRead(a, a), SpansRead(a, now));
  }

  lemma LiveDrop(c: Clock, ts: set<TurnId>, a: Db, now: Db)
    requires PartOf(c, ts, a, now)
    ensures |LiveTurns(a)| == |LiveTurns(now)| + |set t | t in a.turns && now.turns[t] != a.turns[t]|
  {
    var cancelled := set t | t in a.turns && now.turns[t] != a.turns[t];
    forall t | t in a.turns
      ensures t in LiveTurns(a) - LiveTurns(now) <==> t in cancelled
      ensures t in LiveTurns(now) ==> t in LiveTurns(a)
    {
      assert TurnStage(c, ts, a, now, t);
    }
    assert LiveTurns(a) - LiveTurns(now) == cancelled;
    SplitsInTwo(LiveTurns(a), LiveTurns(now));
  }

  /** The summary numbers the rows that changed: Pending steps and spans, and turns. */
  lemma CountersMean(c: Clock, ts: set<TurnId>, a: Db, now: Db, sum: Summary)
    requires PartOf(c, ts, a, now) && CountsRead(a, a, now, sum)
    ensures sum.stepsClosed == |StepsClosedBy(a, now)| && sum.spansClosed == |SpansClosedBy(a, now)|
    ensures sum.turnsCancelled == |set t | t in a.turns && now.turns[t] != a.turns[t]|
  {
    StepsDrop(c, ts, a, now);
    SpansDrop(c, ts, a, now);
    LiveDrop(c, ts, a, now);
  }

  /** The counters fall short of the drop in Pending rows by what left the unreadable part. */
  lemma Shortfall(a: Db, now: Db, sum: Summary)
    requires CountsRead(a, a, now, sum)
    ensures |PendingSteps(now)| + sum.stepsClosed - |PendingSteps(a)| == |StepsUnread(a, now)| - |StepsUnread(a, a)|
    ensures |PendingSpans(now)| + sum.spansClosed - |PendingSpans(a)| == |SpansUnread(a, now)| - |SpansUnread(a, a)|
  {
    SplitsInTwo(PendingSteps(a), StepsRead(a, a));
    SplitsInTwo(PendingSteps(now), StepsRead(a, now));
    SplitsInTwo(PendingSpans(a), SpansRead(a, a));
    SplitsInTwo(PendingSpans(now), SpansRead(a, now));
  }

  /**
   * The counters equal the whole drop in Pending rows exactly when nothing was closed under a
   * turn that cannot be read: the counts of a turn that fails half-way are dropped.
   */
  lemma CountersExactIff(c: Clock, ts: set<TurnId>, a: Db, now: Db, sum: Summary)
    requires PartOf(c, ts, a, now) && CountsRead(a, a, now, sum)
    ensures CountsExactly(a, now, sum) <==> StepsUnread(a, now) == StepsUnread(a, a) && SpansUnread(a, now) == SpansUnread(a, a)
  {
    UnreadShrinks(c, ts, a, now);
    Shortfall(a, now, sum);
    SameSizeSubset(StepsUnread(a, now), StepsUnread(a, a));
    SameSizeSubset(SpansUnread(a, now), SpansUnread(a, a));
  }

  /** When every turn of the pass can be read the counters are exact. */
  lemma AllReadIsExact(c: Clock, ts: set<TurnId>, a: Db, now: Db, sum: Summary)
    requires PartOf(c, ts, a, now) && CountsRead(a, a, now, sum) && AllReadable(a, ts)
    ensures CountsExactly(a, now, sum)
  {
    CountersExactIff(c, ts, a, now, sum);
    UnreadShrinks(c, ts, a, now);
    forall p | p in SpansUnread(a, a) ensures p in SpansUnread(a, now) { assert SpanStage(c, ts, a, now, p); }
    forall s | s in StepsUnread(a, a) ensures s in StepsUnread(a, now) { assert StepStage(c, ts, a, now, s); }
  }

  /** One live turn, one open step and two pending spans, of which the second has an undecodable event. */
  function HalfReadable(): Db {
    var pending := Some(Body("", 1, None, Pending));
    Db(map[0 := Turn(0, InProgress, 0, None, None, true)], map[0 := StepRow(0, pending, false)],
       map[0 := SpanRow(0, pending, false), 1 := SpanRow(0, pending, false)], map[1 := [None]])
  }

  ghost function HalfClosed(): Db {
    HalfReadable().(spans := HalfReadable().spans[0 := SpanFinal(ObservedActivity, HalfReadable(), 0)])
  }

  lemma HalfClosedIsClean()
    ensures CleanSweep(HalfReadable(), HalfClosed()) && Listable(HalfReadable())
    ensures !Readable(HalfReadable(), 0)
  {
    var a, now := HalfReadable(), HalfClosed();
    assert EventsOf(a, 1)[0].None?;
    assert SpanInScope({0}, a, 1) && !SpanReadable(a, 1);
    assert EventsOf(a, 0) == [] && SpanReadable(a, 0);
    assert LiveTurns(a) == {0};
    assert DetachedTurns(a) == {};
    assert Due(a) == {0};
    assert SpanStage(ObservedActivity, {0}, a, now, 0) && SpanStage(ObservedActivity, {0}, a, now, 1);
    assert StepStage(ObservedActivity, {0}, a, now, 0) && TurnStage(ObservedActivity, {0}, a, now, 0);
  }

  lemma HalfClosedCountsNothing()
    requires !Readable(HalfReadable(), 0)
    ensures CountsRead(HalfReadable(), HalfReadable(), HalfClosed(), Summary(1, 0, 0, 0))
  {
    var a, now := HalfReadable(), HalfClosed();
    assert StepsRead(a, a) == StepsRead(a, now) == {} && SpansRead(a, a) == SpansRead(a, now) == {};
    assert LiveTurns(now) == LiveTurns(a);
  }

  lemma HalfClosedLeavesOne()
    requires !Readable(HalfReadable(), 0)
    ensures SpansUnread(HalfReadable(), HalfClosed()) != SpansUnread(HalfReadable(), HalfReadable())
  {
    assert 0 in PendingSpans(HalfReadable()) && 0 !in SpansRead(HalfReadable(), HalfReadable());
    assert HalfClosed().spans[0] == SpanFinal(ObservedActivity, HalfReadable(), 0);
    assert 0 !in PendingSpans(HalfClosed());
    assert 0 in SpansUnread(HalfReadable(), HalfReadable()) && 0 !in SpansUnread(HalfReadable(), HalfClosed());
  }

  /** A store where they fall short: the first of two spans is closed before the second fails the turn. */
  lemma CountersCanFallShort()
    ensures exists a, now ::
              && CleanSweep(a, now) && Listable(a) && CountsRead(a, a, now, Summary(1, 0, 0, 0))
              && !CountsExactly(a, now, Summary(1, 0, 0, 0))
  {
    var a, now := HalfReadable(), HalfClosed();
    HalfClosedIsClean();
    HalfClosedCountsNothing();
    HalfClosedLeavesOne();
    CountersExactIff(ObservedActivity, Due(a), a, now, Summary(1, 0, 0, 0));
  }
}
