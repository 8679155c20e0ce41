/** The two entry points of crash recovery: the boot sweep and the panicked-actor path. */
module BootRecovery {
  import opened Wrappers
  import opened TraceModel
  import opened TraceStore
  import opened RecoveryLaws
  import opened RecoveryConvergence
  import opened TraceRecovery
  import opened RecoveryCounts

  /** Work on one turn leaves another finished turn finished. */
  lemma DoneStays(c: Clock, a: Db, ts: set<TurnId>, u: TurnId, was: Db, now: Db)
    requires Untouched(a, ts, was, now) && u !in ts && TurnDone(c, a, was, u)
    ensures TurnDone(c, a, now, u)
  {
  }

  lemma LiveTurnLeaves(b: Db, b': Db, t: TurnId)
    requires t in LiveTurns(b) && t in b'.turns && b'.turns == b.turns[t := b'.turns[t]]
    requires b'.turns[t].status.Terminal()
    ensures |LiveTurns(b')| + 1 == |LiveTurns(b)|
  {
    assert LiveTurns(b') == LiveTurns(b) - {t};
  }

  /** Closing the subtree moves only the Pending counts, cancelling only the live count. */
  lemma CountsOfOneTurn(was: Db, mid: Db, now: Db, closed: Closed, cancelled: nat)
    requires was.turns == mid.turns && mid.steps == now.steps && mid.spans == now.spans
    requires |PendingSteps(mid)| + closed.steps == |PendingSteps(was)|
    requires |PendingSpans(mid)| + closed.spans == |PendingSpans(was)|
    requires |LiveTurns(now)| + cancelled <= |LiveTurns(mid)|
    ensures CountsWithin(was, now, Summary(1, cancelled, closed.steps, closed.spans))
    ensures |LiveTurns(now)| + cancelled == |LiveTurns(mid)| ==>
              CountsExactly(was, now, Summary(1, cancelled, closed.steps, closed.spans))
  {
    assert LiveTurns(was) == LiveTurns(mid);
    assert PendingSteps(mid) == PendingSteps(now);
    assert PendingSpans(mid) == PendingSpans(now);
  }

  lemma CountsOfRecoveredTurn(a: Db, t: TurnId, was: Db, mid: Db, now: Db, closed: Closed, cancelled: nat)
    requires was.turns == mid.turns && mid.steps == now.steps && mid.spans == now.spans
    requires |PendingSteps(mid)| + closed.steps == |PendingSteps(was)|
    requires |PendingSpans(mid)| + closed.spans == |PendingSpans(was)|
    requires |LiveTurns(now)| + cancelled <= |LiveTurns(mid)|
    requires Untouched(a, {t}, was, now) && Readable(a, t)
    ensures CountsWithin(was, now, Summary(1, cancelled, closed.steps, closed.spans))
    ensures |LiveTurns(now)| + cancelled == |LiveTurns(mid)| ==>
              && CountsExactly(was, now, Summary(1, cancelled, closed.steps, closed.spans))
              && CountsRead(a, was, now, Summary(1, cancelled, closed.steps, closed.spans))
  {
    CountsOfOneTurn(was, mid, now, closed, cancelled);
    if |LiveTurns(now)| + cancelled == |LiveTurns(mid)| {
      CountsOfReadableTurn(a, t, was, now, Summary(1, cancelled, closed.steps, closed.spans));
    }
  }

  /** Cancels a turn whose subtree is closed. */
  method CancelRecovered(store: Store, c: Clock, ghost ts: set<TurnId>, ghost a: Db, t: TurnId, floor: Time)
      returns (cancelled: nat)
    requires PartOf(c, ts, a, store.View()) && t in ts && t in LiveTurns(store.View())
    requires Readable(a, t) && SubtreeDone(c, a, store.View(), t) && floor == TurnFloor(c, a, t)
    modifies store`calls, store`turns
    ensures old(store.calls) <= store.calls
    ensures PartOf(c, ts, a, store.View()) && Untouched(a, {t}, old(store.View()), store.View())
    ensures |LiveTurns(store.View())| + cancelled <= |LiveTurns(old(store.View()))|
    ensures store.Calm(old(store.calls)) ==>
              && TurnDone(c, a, store.View(), t) && CancelledForTheCrash(store.View(), t) && NothingOpen(store.View(), t)
              && |LiveTurns(store.View())| + cancelled == |LiveTurns(old(store.View()))|
  {
    ghost var before := store.View();
    WriteTurn(c, ts, a, before, t);
    var ok := store.CancelAt(t, floor);
    if store.View() != before { LiveTurnLeaves(before, store.View(), t); }
    if TurnDone(c, a, store.View(), t) { DoneTurnsAreClosedForGood(c, ts, a, store.View(), t); }
    cancelled := if ok then 1 else 0;
  }

  /** The second half of one turn's recovery, behind a subtree closed since `was`. */
  method CancelAndCount(store: Store, c: Clock, ghost ts: set<TurnId>, ghost a: Db, t: TurnId, closed: Closed, ghost was: Db)
      returns (sum: Summary)
    requires PartOf(c, ts, a, store.View()) && t in ts && t in LiveTurns(store.View())
    requires Readable(a, t) && SubtreeDone(c, a, store.View(), t) && closed.floor == TurnFloor(c, a, t)
    requires was.turns == store.turns && Untouched(a, {t}, was, store.View())
    requires |PendingSteps(store.View())| + closed.steps == |PendingSteps(was)|
    requires |PendingSpans(store.View())| + closed.spans == |PendingSpans(was)|
    modifies store`calls, store`turns
    ensures old(store.calls) <= store.calls
    ensures PartOf(c, ts, a, store.View()) && Untouched(a, {t}, was, store.View())
    ensures sum.turnsInspected == 1 && CountsWithin(was, store.View(), sum)
    ensures store.Calm(old(store.calls)) ==>
              && TurnDone(c, a, store.View(), t) && CountsExactly(was, store.View(), sum) && CountsRead(a, was, store.View(), sum)
              && CancelledForTheCrash(store.View(), t) && NothingOpen(store.View(), t)
  {
    ghost var mid := store.View();
    var cancelled := CancelRecovered(store, c, ts, a, t, closed.floor);
    UntouchedTwice(a, t, was, mid, store.View());
    CountsOfRecoveredTurn(a, t, was, mid, store.View(), closed, cancelled);
    sum := Summary(1, cancelled, closed.steps, closed.spans);
  }

  lemma OnlyTouchesLeaves(a: Db, t: TurnId, was: Db, mid: Db)
    requires OnlyTouches(a, t, was, mid)
    ensures Untouched(a, {t}, was, mid) && was.turns == mid.turns && LiveTurns(was) == LiveTurns(mid)
  {
  }

  /** One live turn: its subtree is closed, then the turn is cancelled at the subtree's end. */
  method RecoverTurn(store: Store, c: Clock, ghost ts: set<TurnId>, ghost a: Db, t: TurnId, turn: Turn)
      returns (sum: Summary)
    requires PartOf(c, ts, a, store.View()) && t in ts && t in LiveTurns(store.View()) && store.turns[t] == turn
    requires turn.decodes
    modifies store`calls, store`turns, store`steps, store`spans
    ensures old(store.calls) <= store.calls
    ensures PartOf(c, ts, a, store.View()) && Untouched(a, {t}, old(store.View()), store.View())
    ensures sum.turnsInspected == 1 && CountsWithin(old(store.View()), store.View(), sum)
    ensures !Readable(a, t) ==> store.turns == old(store.turns) && sum == Summary(1, 0, 0, 0)
    ensures store.Calm(old(store.calls)) && Readable(a, t) ==>
              && TurnDone(c, a, store.View(), t) && CountsExactly(old(store.View()), store.View(), sum)
              && CancelledForTheCrash(store.View(), t) && NothingOpen(store.View(), t)
    ensures store.Calm(old(store.calls)) ==> CountsRead(a, old(store.View()), store.View(), sum)
  {
    ghost var was := store.View();
    assert TurnStage(c, ts, a, was, t);
    var closing := CloseTurnSubtree(store, c, ts, a, t, turn.Start());
    ghost var mid := store.View();
    OnlyTouchesLeaves(a, t, was, mid);
    if closing.Failure? {
      if !Readable(a, t) { CountsOfUnreadableTurn(a, t, was, mid, 1); }
      return Summary(1, 0, 0, 0);
    }
    sum := CancelAndCount(store, c, ts, a, t, closing.value, was);
  }

  ghost function Ids(rows: seq<(TurnId, Turn)>, n: nat): set<TurnId>
    requires n <= |rows|
  {
    set j | 0 <= j < n :: rows[j].0
  }

  /** Every listed turn among the first `n` that can be read is finished. */
  ghost predicate ListedDone(c: Clock, a: Db, rows: seq<(TurnId, Turn)>, n: nat, now: Db)
    requires n <= |rows|
  {
    forall j {:trigger TurnDone(c, a, now, rows[j].0)} ::
      0 <= j < n && Readable(a, rows[j].0) ==> TurnDone(c, a, now, rows[j].0)
  }

  ghost predicate RecoverCounts(a: Db, rows: seq<(TurnId, Turn)>, n: nat, now: Db, sum: Summary, calm: bool)
    requires n <= |rows|
  {
    && sum.turnsInspected == n && CountsWithin(a, now, sum)
    && (calm ==> CountsRead(a, a, now, sum))
  }

  ghost predicate RecoverLoop(c: Clock, ts: set<TurnId>, a: Db, rows: seq<(TurnId, Turn)>, n: nat,
                              now: Db, sum: Summary, calm: bool)
    requires n <= |rows|
  {
    && PartOf(c, ts, a, now)
    && Untouched(a, Ids(rows, n), a, now)
    && (calm ==> ListedDone(c, a, rows, n, now))
    && RecoverCounts(a, rows, n, now, sum, calm)
  }

  lemma IdsOneMore(rows: seq<(TurnId, Turn)>, n: nat)
    requires n < |rows|
    ensures Ids(rows, n + 1) == Ids(rows, n) + {rows[n].0}
  {
  }

  lemma RecoverCountsStep(a: Db, rows: seq<(TurnId, Turn)>, n: nat, mid: Db, now: Db,
                          sum: Summary, one: Summary, calmBefore: bool, calm: bool)
    requires n < |rows| && RecoverCounts(a, rows, n, mid, sum, calmBefore) && (calm ==> calmBefore)
    requires one.turnsInspected == 1 && CountsWithin(mid, now, one)
    requires calm ==> CountsRead(a, mid, now, one)
    ensures RecoverCounts(a, rows, n + 1, now, Plus(sum, one), calm)
  {
    CountsJoin(a, mid, now, sum, one);
  }

  lemma ListedStayDone(c: Clock, a: Db, rows: seq<(TurnId, Turn)>, n: nat, mid: Db, now: Db)
    requires n < |rows| && ListedDone(c, a, rows, n, mid) && Untouched(a, {rows[n].0}, mid, now)
    requires forall i, j :: 0 <= i < j < |rows| ==> rows[i].0 != rows[j].0
    requires Readable(a, rows[n].0) ==> TurnDone(c, a, now, rows[n].0)
    ensures ListedDone(c, a, rows, n + 1, now)
  {
    forall j | 0 <= j < n && Readable(a, rows[j].0) ensures TurnDone(c, a, now, rows[j].0) {
      DoneStays(c, a, {rows[n].0}, rows[j].0, mid, now);
    }
  }

  lemma {:induction false} RecoverLoopStep(c: Clock, ts: set<TurnId>, a: Db, rows: seq<(TurnId, Turn)>, n: nat,
                        mid: Db, now: Db, sum: Summary, one: Summary, calmBefore: bool, calm: bool)
    requires n < |rows| && RecoverLoop(c, ts, a, rows, n, mid, sum, calmBefore) && (calm ==> calmBefore)
    requires forall i, j :: 0 <= i < j < |rows| ==> rows[i].0 != rows[j].0
    requires PartOf(c, ts, a, now) && Untouched(a, {rows[n].0}, mid, now)
    requires one.turnsInspected == 1 && CountsWithin(mid, now, one)
    requires calm ==> CountsRead(a, mid, now, one)
    requires calm && Readable(a, rows[n].0) ==> TurnDone(c, a, now, rows[n].0)
    ensures RecoverLoop(c, ts, a, rows, n + 1, now, Plus(sum, one), calm)
  {
    UntouchedJoins(a, Ids(rows, n), {rows[n].0}, a, mid, now);
    IdsOneMore(rows, n);
    RecoverCountsStep(a, rows, n, mid, now, sum, one, calmBefore, calm);
    if calm { ListedStayDone(c, a, rows, n, mid, now); }
  }

  ghost predicate FineBetween(plan: nat -> Reply, from: nat, to: nat) {
    forall n :: from <= n < to ==> plan(n).Fine?
  }

  /** Turns dealt with so far; `marks[j]` and `marks[j + 1]` bound the store calls made for the j-th. */
  datatype Log = Log(turns: seq<TurnId>, marks: seq<nat>)
  {
    function Add(t: TurnId, last: nat): Log { Log(turns + [t], marks + [last]) }

    /** The turns' calls are all the calls from `first` up to `last`. */
    ghost predicate Spans(first: nat, last: nat) {
      && |marks| == |turns| + 1 && marks[0] == first && marks[|turns|] == last
      && forall j :: 0 <= j < |turns| ==> marks[j] <= marks[j + 1]
    }
  }

  function TurnIds(rows: seq<(TurnId, Turn)>, n: nat): seq<TurnId>
    requires n <= |rows|
  {
    seq(n, j requires 0 <= j < n => rows[j].0)
  }

  /** A readable turn whose own calls went well is finished, whatever happened to the others. */
  ghost predicate Isolated(c: Clock, a: Db, now: Db, plan: nat -> Reply, log: Log)
    requires |log.marks| == |log.turns| + 1
  {
    forall j {:trigger TurnDone(c, a, now, log.turns[j])} ::
      (0 <= j < |log.turns| && log.turns[j] in a.turns && Readable(a, log.turns[j])
       && FineBetween(plan, log.marks[j], log.marks[j + 1])) ==> TurnDone(c, a, now, log.turns[j])
  }

  lemma IsolatedStep(c: Clock, a: Db, mid: Db, now: Db, plan: nat -> Reply, log: Log, t: TurnId, first: nat, from: nat, last: nat)
    requires log.Spans(first, from) && from <= last && Isolated(c, a, mid, plan, log)
    requires t !in log.turns && Untouched(a, {t}, mid, now)
    requires t in a.turns && Readable(a, t) && FineBetween(plan, from, last) ==> TurnDone(c, a, now, t)
    ensures log.Add(t, last).Spans(first, last) && Isolated(c, a, now, plan, log.Add(t, last))
  {
    var log' := log.Add(t, last);
    forall j | 0 <= j < |log'.turns| && log'.turns[j] in a.turns && Readable(a, log'.turns[j])
               && FineBetween(plan, log'.marks[j], log'.marks[j + 1])
      ensures TurnDone(c, a, now, log'.turns[j])
    {
      if j < |log.turns| { DoneStays(c, a, {t}, log.turns[j], mid, now); }
    }
  }

  /** Later work on other turns leaves the isolation as it is. */
  lemma IsolatedStays(c: Clock, a: Db, us: set<TurnId>, mid: Db, now: Db, plan: nat -> Reply, log: Log)
    requires |log.marks| == |log.turns| + 1 && Isolated(c, a, mid, plan, log)
    requires Untouched(a, us, mid, now) && forall t :: t in log.turns ==> t !in us
    ensures Isolated(c, a, now, plan, log)
  {
    forall j | 0 <= j < |log.turns| && log.turns[j] in a.turns && Readable(a, log.turns[j])
               && FineBetween(plan, log.marks[j], log.marks[j + 1])
      ensures TurnDone(c, a, now, log.turns[j])
    {
      DoneStays(c, a, us, log.turns[j], mid, now);
    }
  }

  lemma NotYetReached(c: Clock, ts: set<TurnId>, a: Db, rows: seq<(TurnId, Turn)>, n: nat, now: Db)
    requires n < |rows| && Untouched(a, Ids(rows, n), a, now)
    requires Lists(rows, a.turns, Ids(rows, |rows|)) && Ids(rows, |rows|) <= ts * LiveTurns(a)
    requires AllDecode(a, Ids(rows, |rows|))
    ensures rows[n].0 in ts && rows[n].0 in LiveTurns(now) && now.turns[rows[n].0] == rows[n].1 && rows[n].1.decodes
    ensures rows[n].0 !in TurnIds(rows, n) && TurnIds(rows, n + 1) == TurnIds(rows, n) + [rows[n].0]
  {
    assert rows[n].0 in Ids(rows, |rows|);
  }

  method RecoverNext(store: Store, c: Clock, ghost ts: set<TurnId>, ghost a: Db, rows: seq<(TurnId, Turn)>, i: nat,
                     sum: Summary, ghost log: Log, ghost start: nat)
      returns (sum': Summary, ghost log': Log)
    requires i < |rows| && start <= store.calls
    requires log.turns == TurnIds(rows, i) && log.Spans(start, store.calls)
    requires Isolated(c, a, store.View(), store.plan, log)
    requires RecoverLoop(c, ts, a, rows, i, store.View(), sum, store.Calm(start))
    requires Lists(rows, a.turns, Ids(rows, |rows|)) && Ids(rows, |rows|) <= ts * LiveTurns(a)
    requires AllDecode(a, Ids(rows, |rows|))
    modifies store`calls, store`turns, store`steps, store`spans
    ensures old(store.calls) <= store.calls
    ensures RecoverLoop(c, ts, a, rows, i + 1, store.View(), sum', store.Calm(start))
    ensures log'.turns == TurnIds(rows, i + 1) && log'.Spans(start, store.calls)
    ensures Isolated(c, a, store.View(), store.plan, log')
  {
    ghost var mid, calmBefore, from := store.View(), store.Calm(start), store.calls;
    NotYetReached(c, ts, a, rows, i, mid);
    var one := RecoverTurn(store, c, ts, a, rows[i].0, rows[i].1);
    RecoverLoopStep(c, ts, a, rows, i, mid, store.View(), sum, one, calmBefore, store.Calm(start));
    IsolatedStep(c, a, mid, store.View(), store.plan, log, rows[i].0, start, from, store.calls);
    sum', log' := Plus(sum, one), log.Add(rows[i].0, store.calls);
  }

  lemma NothingWrittenYet(c: Clock, ts: set<TurnId>, a: Db)
    ensures PartOf(c, ts, a, a) && forall us :: Untouched(a, us, a, a)
  {
    assert forall p :: p in a.spans ==> SpanStage(c, ts, a, a, p);
    assert forall s :: s in a.steps ==> StepStage(c, ts, a, a, s);
    assert forall t :: t in a.turns ==> TurnStage(c, ts, a, a, t);
  }

  lemma RecoverLoopInit(c: Clock, ts: set<TurnId>, a: Db, rows: seq<(TurnId, Turn)>)
    ensures forall calm :: RecoverLoop(c, ts, a, rows, 0, a, NOTHING, calm)
  {
    NothingWrittenYet(c, ts, a);
  }

  /** The loop both entry points share: recover every listed turn, whatever became of the others. */
  method RecoverListed(store: Store, c: Clock, ghost ts: set<TurnId>, ghost a: Db, rows: seq<(TurnId, Turn)>)
      returns (sum: Summary, ghost log: Log)
    requires store.View() == a && Lists(rows, a.turns, Ids(rows, |rows|))
    requires Ids(rows, |rows|) <= ts * LiveTurns(a) && AllDecode(a, Ids(rows, |rows|))
    modifies store`calls, store`turns, store`steps, store`spans
    ensures old(store.calls) <= store.calls
    ensures RecoverLoop(c, ts, a, rows, |rows|, store.View(), sum, store.Calm(old(store.calls)))
    ensures log.turns == TurnIds(rows, |rows|) && log.Spans(old(store.calls), store.calls)
    ensures Isolated(c, a, store.View(), store.plan, log)
  {
    sum := NOTHING;
    ghost var start := store.calls;
    log := Log([], [start]);
    RecoverLoopInit(c, ts, a, rows);
    for i := 0 to |rows|
      invariant start <= store.calls
      invariant RecoverLoop(c, ts, a, rows, i, store.View(), sum, store.Calm(start))
      invariant log.turns == TurnIds(rows, i) && log.Spans(start, store.calls)
      invariant Isolated(c, a, store.View(), store.plan, log)
    {
      sum, log := RecoverNext(store, c, ts, a, rows, i, sum, log, start);
    }
  }

  /** Of the live turns `ts`, exactly those that can be read are cancelled for the crash; the others are live. */
  ghost predicate CancelsExactly(a: Db, now: Db, ts: set<TurnId>) {
    forall t {:trigger Readable(a, t)} :: t in ts ==>
      if Readable(a, t) then CancelledForTheCrash(now, t) && NothingOpen(now, t) else t in LiveTurns(now)
  }

  lemma CancelsExactlyTheReadable(c: Clock, ts: set<TurnId>, a: Db, now: Db, live: set<TurnId>)
    requires PartOf(c, ts, a, now) && live <= LiveTurns(a)
    requires forall t :: t in live && Readable(a, t) ==> TurnDone(c, a, now, t)
    ensures CancelsExactly(a, now, live)
  {
    forall t | t in live
      ensures if Readable(a, t) then CancelledForTheCrash(now, t) && NothingOpen(now, t) else t in LiveTurns(now)
    {
      assert TurnStage(c, ts, a, now, t);
      if Readable(a, t) { DoneTurnsAreClosedForGood(c, ts, a, now, t); }
    }
  }

  // ----- an actor that panicked -----

  lemma ListedIds(rows: seq<(TurnId, Turn)>, table: map<TurnId, Turn>, wanted: set<TurnId>)
    requires Lists(rows, table, wanted)
    ensures Ids(rows, |rows|) == wanted
    ensures forall t :: t in TurnIds(rows, |rows|) <==> t in wanted
  {
    forall t | t in wanted ensures t in Ids(rows, |rows|) && t in TurnIds(rows, |rows|) {
      assert Named(t, rows);
      var i :| 0 <= i < |rows| && rows[i].0 == t;
      assert TurnIds(rows, |rows|)[i] == t;
    }
  }

  lemma AllListedDone(c: Clock, ts: set<TurnId>, a: Db, rows: seq<(TurnId, Turn)>, now: Db)
    requires Ids(rows, |rows|) == ts && ListedDone(c, a, rows, |rows|, now)
    ensures forall t :: t in ts && Readable(a, t) ==> TurnDone(c, a, now, t)
  {
    forall t | t in ts && Readable(a, t) ensures TurnDone(c, a, now, t) {
      var j :| 0 <= j < |rows| && rows[j].0 == t;
    }
  }

  /**
   * What recovering a panicked session owes. One live row of the session that does not decode
   * fails the listing, and nothing happens; otherwise, with no failing call, exactly the live
   * turns that can be read are cancelled, and what was closed under them is counted.
   */
  ghost predicate SessionResult(c: Clock, ts: set<TurnId>, a: Db, now: Db, sum: Summary, calm: bool) {
    && PartOf(c, ts, a, now) && CrashLeaves(c, a, now) && CountsWithin(a, now, sum)
    && (calm ==> CountsRead(a, a, now, sum))
    && (!AllDecode(a, ts) ==> now == a && sum == NOTHING)
    && (calm && AllDecode(a, ts) ==>
          && (forall t :: t in ts && Readable(a, t) ==> TurnDone(c, a, now, t))
          && CancelsExactly(a, now, ts) && sum.turnsInspected == |ts|)
  }

  lemma {:induction false} SessionResultHolds(c: Clock, ts: set<TurnId>, a: Db, rows: seq<(TurnId, Turn)>,
                                              now: Db, sum: Summary, calm: bool)
    requires Ids(rows, |rows|) == ts && |rows| == |ts| && ts <= LiveTurns(a) && AllDecode(a, ts)
    requires RecoverLoop(c, ts, a, rows, |rows|, now, sum, calm)
    ensures SessionResult(c, ts, a, now, sum, calm)
  {
    PassLeavesACrash(c, ts, a, now);
    if calm {
      AllListedDone(c, ts, a, rows, now);
      CancelsExactlyTheReadable(c, ts, a, now, ts);
    }
  }

  /** Closes what one panicked session left open, at the known crash instant. */
  method RecoverPanickedSession(store: Store, session: SessionId, crashAt: Time)
      returns (sum: Summary, ghost log: Log)
    modifies store`calls, store`turns, store`steps, store`spans
    ensures SessionResult(CrashAt(crashAt), LiveIn(old(store.View()), session), old(store.View()), store.View(), sum,
                          store.Calm(old(store.calls)))
    ensures store.plan(old(store.calls)).Fine? && AllDecode(old(store.View()), LiveIn(old(store.View()), session)) ==>
              && (forall t :: t in log.turns <==> t in LiveIn(old(store.View()), session))
              && log.Spans(old(store.calls) + 1, store.calls)
              && Isolated(CrashAt(crashAt), old(store.View()), store.View(), store.plan, log)
  {
    ghost var a := store.View();
    ghost var ts := LiveIn(a, session);
    ghost var start := store.calls;
    NothingWrittenYet(CrashAt(crashAt), ts, a);
    var listed := store.ListActiveBySession(session);
    if listed.Failure? {
      assert !store.Calm(start) || !AllDecode(a, ts);
      PassLeavesACrash(CrashAt(crashAt), ts, a, store.View());
      return NOTHING, Log([], []);
    }
    var rows := listed.value;
    ListedIds(rows, a.turns, ts);
    sum, log := RecoverListed(store, CrashAt(crashAt), ts, a, rows);
    SessionResultHolds(CrashAt(crashAt), ts, a, rows, store.View(), sum, store.Calm(start + 1));
    assert store.Calm(start) ==> store.Calm(start + 1);
  }

  // ----- rows that outlived their turn -----

  ghost function PendingStepsOf(a: Db, t: TurnId): set<StepId> {
    set s | s in PendingSteps(a) && a.steps[s].turn == t
  }

  ghost function PendingSpansOf(a: Db, t: TurnId): set<SpanId> {
    set p | p in PendingSpans(a) && SpanInScope({t}, a, p)
  }

  /** A pass has something to close under `t`. */
  ghost predicate Busy(a: Db, t: TurnId) {
    PendingStepsOf(a, t) != {} || PendingSpansOf(a, t) != {}
  }

  /** Detached turns the pass can read and has something to close for. */
  ghost function BusyDetached(a: Db): set<TurnId> {
    set t | t in DetachedTurns(a) && Busy(a, t) && Readable(a, t)
  }

  /** They are the readable ones with a Pending step, or a Pending span under a decodable one. */
  lemma BusyAre(a: Db, t: TurnId)
    ensures t in BusyDetached(a) <==>
              && t in DetachedTurns(a) && Readable(a, t)
              && ((exists s :: s in a.steps && a.steps[s].turn == t && WasPending(a.steps[s].body))
                  || exists p :: p in a.spans && WasPending(a.spans[p].body) && Decoded(a, a.spans[p].step)
                                 && a.steps[a.spans[p].step].turn == t)
  {
    assert forall s :: s in PendingStepsOf(a, t) <==> s in a.steps && a.steps[s].turn == t && WasPending(a.steps[s].body);
    assert forall p :: p in PendingSpansOf(a, t) <==>
             p in a.spans && WasPending(a.spans[p].body) && Decoded(a, a.spans[p].step) && a.steps[a.spans[p].step].turn == t;
  }

  lemma CountDrops<T>(x: set<T>, gone: set<T>)
    requires gone <= x
    ensures |x - gone| == |x| - |gone|
    ensures |gone| > 0 <==> gone != {}
  {
    assert x == (x - gone) + gone;
  }

  lemma PendingStepsGo(c: Clock, a: Db, t: TurnId, mid: Db, now: Db)
    requires OnlyTouches(a, t, mid, now) && SubtreeDone(c, a, now, t)
    requires forall s :: s in a.steps && a.steps[s].turn == t ==> mid.steps[s] == a.steps[s]
    ensures PendingStepsOf(a, t) <= PendingSteps(mid)
    ensures PendingSteps(now) == PendingSteps(mid) - PendingStepsOf(a, t)
  {
    assert forall s :: s in a.steps && a.steps[s].turn == t ==> now.steps[s] == StepFinal(c, a, s);
  }

  lemma PendingSpansGo(c: Clock, a: Db, t: TurnId, mid: Db, now: Db)
    requires OnlyTouches(a, t, mid, now) && SubtreeDone(c, a, now, t)
    requires forall p :: SpanInScope({t}, a, p) ==> mid.spans[p] == a.spans[p]
    ensures PendingSpansOf(a, t) <= PendingSpans(mid)
    ensures PendingSpans(now) == PendingSpans(mid) - PendingSpansOf(a, t)
  {
    assert forall p :: SpanInScope({t}, a, p) ==> now.spans[p] == SpanFinal(c, a, p);
  }

  /** The closed counts of a finished turn are zero exactly when it had nothing pending. */
  lemma ClosedIffBusy(c: Clock, a: Db, t: TurnId, mid: Db, now: Db, closed: Closed)
    requires OnlyTouches(a, t, mid, now) && SubtreeDone(c, a, now, t) && t !in LiveTurns(a)
    requires forall s :: s in a.steps && a.steps[s].turn == t ==> mid.steps[s] == a.steps[s]
    requires forall p :: SpanInScope({t}, a, p) ==> mid.spans[p] == a.spans[p]
    requires |PendingSteps(now)| + closed.steps == |PendingSteps(mid)|
    requires |PendingSpans(now)| + closed.spans == |PendingSpans(mid)|
    ensures closed.steps > 0 || closed.spans > 0 <==> Busy(a, t)
  {
    PendingStepsGo(c, a, t, mid, now);
    PendingSpansGo(c, a, t, mid, now);
    CountDrops(PendingSteps(mid), PendingStepsOf(a, t));
    CountDrops(PendingSpans(mid), PendingSpansOf(a, t));
  }

  ghost predicate NamedTurn(rows: seq<(StepId, StepRow)>, n: nat, t: TurnId)
    requires n <= |rows|
  {
    exists j :: 0 <= j < n && rows[j].1.body.Some? && rows[j].1.turn == t
  }

  /** Turn ids of the decodable rows among the first `n`, without the turns already swept. */
  ghost predicate Collected(rows: seq<(StepId, StepRow)>, n: nat, swept: set<TurnId>, ids: set<TurnId>)
    requires n <= |rows|
  {
    && (forall j :: 0 <= j < n && rows[j].1.body.Some? && rows[j].1.turn !in swept ==> rows[j].1.turn in ids)
    && (forall t :: t in ids ==> t !in swept && NamedTurn(rows, n, t))
  }

  lemma StillUnfinished(a: Db, b: Db, s: StepId)
    requires Untouched(a, LiveTurns(a), a, b) && Decoded(a, s) && Unfinished(a, s)
    requires a.steps[s].turn !in LiveTurns(a)
    ensures b.steps[s] == a.steps[s] && s in UnfinishedSteps(b)
  {
    if !Open(a.steps[s].body, a.steps[s].ended) {
      var p :| p in a.spans && a.spans[p].step == s && Open(a.spans[p].body, a.spans[p].ended);
      assert !SpanInScope(LiveTurns(a), a, p);
      assert b.spans[p] == a.spans[p];
    }
  }

  /** The listing after the live turns are swept yields exactly the detached turns that exist. */
  lemma CollectedAreDetached(a: Db, b: Db, rows: seq<(StepId, StepRow)>, ids: set<TurnId>)
    requires PartOf(ObservedActivity, Due(a), a, b) && Untouched(a, LiveTurns(a), a, b)
    requires Lists(rows, b.steps, UnfinishedSteps(b)) && Collected(rows, |rows|, LiveTurns(a), ids)
    ensures ids * a.turns.Keys == DetachedTurns(a)
  {
    forall t | t in ids * a.turns.Keys ensures t in DetachedTurns(a) {
      assert NamedTurn(rows, |rows|, t);
      var j :| 0 <= j < |rows| && rows[j].1.body.Some? && rows[j].1.turn == t;
      var s := rows[j].0;
      UnfinishedShrinks(ObservedActivity, Due(a), a, b, s);
      StepFinalStable(ObservedActivity, Due(a), a, b, s);
      assert s in UnfinishedSteps(a) && Decoded(a, s);
    }
    forall t | t in DetachedTurns(a) ensures t in ids {
      var s :| s in UnfinishedSteps(a) && Decoded(a, s) && a.steps[s].turn == t;
      assert t !in LiveTurns(a);
      StillUnfinished(a, b, s);
      assert Named(s, rows);
    }
  }

  ghost predicate DetachedOneCounts(a: Db, t: TurnId, mid: Db, now: Db, one: Summary, calm: bool) {
    && CountsWithin(mid, now, one) && one.turnsCancelled == 0
    && one.turnsInspected <= one.stepsClosed + one.spansClosed
    && (calm ==> CountsRead(a, mid, now, one) && one.turnsInspected == if t in BusyDetached(a) then 1 else 0)
  }

  /** What recovering one detached turn did: `one` is its share of the summary. */
  ghost predicate DetachedEffect(a: Db, t: TurnId, mid: Db, now: Db, one: Summary, calm: bool) {
    && PartOf(ObservedActivity, Due(a), a, now)
    && Untouched(a, {t}, mid, now)
    && (calm && t in DetachedTurns(a) && Readable(a, t) ==> TurnDone(ObservedActivity, a, now, t))
    && DetachedOneCounts(a, t, mid, now, one, calm)
  }

  lemma DetachedClosedCounts(a: Db, t: TurnId, mid: Db, now: Db, closed: Closed)
    requires Readable(a, t) && OnlyTouches(a, t, mid, now)
    requires |PendingSteps(now)| + closed.steps == |PendingSteps(mid)|
    requires |PendingSpans(now)| + closed.spans == |PendingSpans(mid)|
    ensures Untouched(a, {t}, mid, now)
    ensures CountsExactly(mid, now, Summary(0, 0, closed.steps, closed.spans))
    ensures CountsRead(a, mid, now, Summary(0, 0, closed.steps, closed.spans))
  {
    assert LiveTurns(mid) == LiveTurns(now);
    CountsOfReadableTurn(a, t, mid, now, Summary(0, 0, closed.steps, closed.spans));
  }

  /** A detached turn is counted only when something Pending was closed. */
  function ShareOf(closed: Closed): Summary {
    if closed.steps > 0 || closed.spans > 0 then Summary(1, 0, closed.steps, closed.spans) else NOTHING
  }

  lemma ShareCounts(a: Db, t: TurnId, mid: Db, now: Db, closed: Closed, calm: bool)
    requires t in DetachedTurns(a) && Readable(a, t) && (closed.steps > 0 || closed.spans > 0 <==> Busy(a, t))
    requires CountsExactly(mid, now, Summary(0, 0, closed.steps, closed.spans))
    requires CountsRead(a, mid, now, Summary(0, 0, closed.steps, closed.spans))
    ensures DetachedOneCounts(a, t, mid, now, ShareOf(closed), calm)
  {
  }

  lemma DetachedClosedOne(a: Db, t: TurnId, mid: Db, now: Db, closed: Closed, calm: bool)
    requires t in DetachedTurns(a) && Readable(a, t)
    requires OnlyTouches(a, t, mid, now) && SubtreeDone(ObservedActivity, a, now, t)
    requires forall s :: s in a.steps && a.steps[s].turn == t ==> mid.steps[s] == a.steps[s]
    requires forall p :: SpanInScope({t}, a, p) ==> mid.spans[p] == a.spans[p]
    requires |PendingSteps(now)| + closed.steps == |PendingSteps(mid)|
    requires |PendingSpans(now)| + closed.spans == |PendingSpans(mid)|
    ensures DetachedOneCounts(a, t, mid, now, ShareOf(closed), calm)
  {
    ClosedIffBusy(ObservedActivity, a, t, mid, now, closed);
    DetachedClosedCounts(a, t, mid, now, closed);
    ShareCounts(a, t, mid, now, closed, calm);
  }

  lemma DetachedClosed(a: Db, t: TurnId, mid: Db, now: Db, closed: Closed, calm: bool)
    requires PartOf(ObservedActivity, Due(a), a, mid) && PartOf(ObservedActivity, Due(a), a, now)
    requires t in DetachedTurns(a) && OnlyTouches(a, t, mid, now) && SubtreeDone(ObservedActivity, a, now, t)
    requires DetachedOneCounts(a, t, mid, now, ShareOf(closed), calm)
    ensures DetachedEffect(a, t, mid, now, ShareOf(closed), calm)
  {
    assert TurnStage(ObservedActivity, Due(a), a, now, t);
  }

  lemma DetachedFailedCounts(a: Db, t: TurnId, mid: Db, now: Db)
    requires OnlyTouches(a, t, mid, now)
    requires |PendingSteps(now)| <= |PendingSteps(mid)| && |PendingSpans(now)| <= |PendingSpans(mid)|
    ensures DetachedOneCounts(a, t, mid, now, NOTHING, false)
    ensures !Readable(a, t) ==> DetachedOneCounts(a, t, mid, now, NOTHING, true)
  {
    assert LiveTurns(mid) == LiveTurns(now);
    if !Readable(a, t) { CountsOfUnreadableTurn(a, t, mid, now, 0); }
  }

  lemma {:induction false} DetachedFailed(a: Db, t: TurnId, mid: Db, now: Db)
    requires PartOf(ObservedActivity, Due(a), a, now) && OnlyTouches(a, t, mid, now)
    requires |PendingSteps(now)| <= |PendingSteps(mid)| && |PendingSpans(now)| <= |PendingSpans(mid)|
    ensures DetachedEffect(a, t, mid, now, NOTHING, false)
    ensures !Readable(a, t) ==> DetachedEffect(a, t, mid, now, NOTHING, true)
  {
    DetachedFailedCounts(a, t, mid, now);
  }

  /** A turn that is not there, or needs nothing, is passed over. */
  lemma DetachedSkipped(a: Db, t: TurnId, mid: Db)
    requires PartOf(ObservedActivity, Due(a), a, mid) && t !in a.turns
    ensures DetachedEffect(a, t, mid, mid, NOTHING, true)
  {
  }

  /** One turn named by an unfinished row: its trace is closed, its status is not touched. */
  method RecoverDetachedTurn(store: Store, ghost a: Db, t: TurnId) returns (one: Summary)
    requires PartOf(ObservedActivity, Due(a), a, store.View())
    requires t in a.turns ==> t in DetachedTurns(a)
    requires forall s :: s in a.steps && a.steps[s].turn == t ==> store.steps[s] == a.steps[s]
    requires forall p :: SpanInScope({t}, a, p) ==> store.spans[p] == a.spans[p]
    modifies store`calls, store`steps, store`spans
    ensures old(store.calls) <= store.calls
    ensures DetachedEffect(a, t, old(store.View()), store.View(), one, store.Calm(old(store.calls)))
  {
    ghost var mid := store.View();
    DetachedFailed(a, t, mid, mid);
    if t !in a.turns { DetachedSkipped(a, t, mid); }
    if t in a.turns { assert TurnStage(ObservedActivity, Due(a), a, mid, t); }
    var got := store.GetTurn(t);
    if got.Failure? || got.value.None? || !got.value.value.status.Terminal() { return NOTHING; }
    var turn := got.value.value;
    assert TurnStage(ObservedActivity, Due(a), a, mid, t);
    var closing := CloseTurnSubtree(store, ObservedActivity, Due(a), a, t, turn.Start());
    if closing.Failure? {
      DetachedFailed(a, t, mid, store.View());
      return NOTHING;
    }
    var closed := closing.value;
    DetachedClosedOne(a, t, mid, store.View(), closed, store.Calm(old(store.calls)));
    DetachedClosed(a, t, mid, store.View(), closed, store.Calm(old(store.calls)));
    one := ShareOf(closed);
  }

  ghost predicate SeenDone(a: Db, seen: set<TurnId>, now: Db) {
    forall t {:trigger TurnDone(ObservedActivity, a, now, t)} ::
      t in seen && t in DetachedTurns(a) && Readable(a, t) ==> TurnDone(ObservedActivity, a, now, t)
  }

  ghost predicate DetachedCounts(a: Db, start: Db, seen: set<TurnId>, now: Db, sum: Summary, calm: bool) {
    && CountsWithin(start, now, sum) && sum.turnsCancelled == 0
    && sum.turnsInspected <= sum.stepsClosed + sum.spansClosed
    && (calm ==> CountsRead(a, start, now, sum) && sum.turnsInspected == |BusyDetached(a) * seen|)
  }

  /** Where the detached pass stands once the turns `seen` are dealt with. */
  ghost predicate DetachedLoop(a: Db, start: Db, seen: set<TurnId>, now: Db, sum: Summary, calm: bool) {
    && PartOf(ObservedActivity, Due(a), a, now)
    && Untouched(a, LiveTurns(a) + seen, a, now)
    && Untouched(a, seen, start, now)
    && (calm ==> SeenDone(a, seen, now))
    && DetachedCounts(a, start, seen, now, sum, calm)
  }

  lemma OneMoreBusy(busy: set<TurnId>, seen: set<TurnId>, t: TurnId)
    requires t !in seen
    ensures |busy * (seen + {t})| == |busy * seen| + if t in busy then 1 else 0
  {
    assert busy * (seen + {t}) == busy * seen + (if t in busy then {t} else {});
  }

  lemma DetachedCountsStep(a: Db, start: Db, seen: set<TurnId>, t: TurnId, mid: Db, now: Db,
                           sum: Summary, one: Summary, calmBefore: bool, calm: bool)
    requires DetachedCounts(a, start, seen, mid, sum, calmBefore) && t !in seen && (calm ==> calmBefore)
    requires CountsWithin(mid, now, one) && one.turnsCancelled == 0
    requires one.turnsInspected <= one.stepsClosed + one.spansClosed
    requires calm ==> CountsRead(a, mid, now, one) && one.turnsInspected == if t in BusyDetached(a) then 1 else 0
    ensures DetachedCounts(a, start, seen + {t}, now, Plus(sum, one), calm)
  {
    CountsJoin(start, mid, now, sum, one);
    OneMoreBusy(BusyDetached(a), seen, t);
  }

  lemma SeenStayDone(a: Db, seen: set<TurnId>, t: TurnId, mid: Db, now: Db)
    requires Untouched(a, {t}, mid, now) && t !in seen
    requires SeenDone(a, seen, mid)
    requires t in DetachedTurns(a) && Readable(a, t) ==> TurnDone(ObservedActivity, a, now, t)
    ensures SeenDone(a, seen + {t}, now)
  {
    forall u | u in seen && u in DetachedTurns(a) && Readable(a, u) ensures TurnDone(ObservedActivity, a, now, u) {
      DoneStays(ObservedActivity, a, {t}, u, mid, now);
    }
  }

  lemma {:induction false} DetachedStep(a: Db, start: Db, seen: set<TurnId>, t: TurnId, mid: Db, now: Db,
                     sum: Summary, one: Summary, calmBefore: bool, calm: bool)
    requires DetachedLoop(a, start, seen, mid, sum, calmBefore) && t !in seen && (calm ==> calmBefore)
    requires DetachedEffect(a, t, mid, now, one, calm)
    ensures DetachedLoop(a, start, seen + {t}, now, Plus(sum, one), calm)
  {
    UntouchedJoins(a, LiveTurns(a) + seen, {t}, a, mid, now);
    UntouchedJoins(a, seen, {t}, start, mid, now);
    assert LiveTurns(a) + seen + {t} == LiveTurns(a) + (seen + {t});
    DetachedCountsStep(a, start, seen, t, mid, now, sum, one, calmBefore, calm);
    if calm { SeenStayDone(a, seen, t, mid, now); }
  }

  lemma CollectOne(rows: seq<(StepId, StepRow)>, n: nat, swept: set<TurnId>, ids: set<TurnId>)
    requires n < |rows| && Collected(rows, n, swept, ids)
    ensures rows[n].1.body.Some? && rows[n].1.turn !in swept ==> Collected(rows, n + 1, swept, ids + {rows[n].1.turn})
    ensures rows[n].1.body.None? || rows[n].1.turn in swept ==> Collected(rows, n + 1, swept, ids)
  {
    forall t | NamedTurn(rows, n, t) ensures NamedTurn(rows, n + 1, t) {}
  }

  /** The set of turns named by decodable rows, without those the sweep has already handled. */
  method TurnsNamed(rows: seq<(StepId, StepRow)>, swept: set<TurnId>) returns (ids: set<TurnId>)
    ensures Collected(rows, |rows|, swept, ids)
  {
    ids := {};
    for i := 0 to |rows|
      invariant Collected(rows, i, swept, ids)
    {
      CollectOne(rows, i, swept, ids);
      if rows[i].1.body.Some? && rows[i].1.turn !in swept {
        ids := ids + {rows[i].1.turn};
      }
    }
  }

  lemma MoveOne(rest: set<TurnId>, seen: set<TurnId>, ids: set<TurnId>, t: TurnId)
    requires t in rest && rest !! seen && rest + seen == ids
    ensures (rest - {t}) !! (seen + {t}) && (rest - {t}) + (seen + {t}) == ids
  {
  }

  lemma NotYetSeen(a: Db, seen: set<TurnId>, t: TurnId, mid: Db)
    requires Untouched(a, LiveTurns(a) + seen, a, mid) && t !in LiveTurns(a) && t !in seen
    ensures forall s :: s in a.steps && a.steps[s].turn == t ==> mid.steps[s] == a.steps[s]
    ensures forall p :: SpanInScope({t}, a, p) ==> mid.spans[p] == a.spans[p]
  {
  }

  method CloseNextDetached(store: Store, ghost a: Db, ghost start: Db, ghost seen: set<TurnId>, t: TurnId,
                           sum: Summary, ghost log: Log, ghost first: nat)
      returns (sum': Summary, ghost log': Log)
    requires (forall t :: t in log.turns <==> t in seen) && log.Spans(first, store.calls)
    requires Isolated(ObservedActivity, a, store.View(), store.plan, log)
    requires first <= store.calls && DetachedLoop(a, start, seen, store.View(), sum, store.Calm(first))
    requires t !in seen && t !in LiveTurns(a) && (t in a.turns ==> t in DetachedTurns(a))
    modifies store`calls, store`steps, store`spans
    ensures first <= store.calls
    ensures DetachedLoop(a, start, seen + {t}, store.View(), sum', store.Calm(first))
    ensures (forall u :: u in log'.turns <==> u in seen + {t}) && log'.Spans(first, store.calls)
    ensures Isolated(ObservedActivity, a, store.View(), store.plan, log')
  {
    ghost var mid, calmBefore, from := store.View(), store.Calm(first), store.calls;
    NotYetSeen(a, seen, t, mid);
    var one := RecoverDetachedTurn(store, a, t);
    DetachedStep(a, start, seen, t, mid, store.View(), sum, one, calmBefore, store.Calm(first));
    IsolatedStep(ObservedActivity, a, mid, store.View(), store.plan, log, t, first, from, store.calls);
    sum', log' := Plus(sum, one), log.Add(t, store.calls);
  }

  lemma NothingSeenYet(a: Db, start: Db)
    requires PartOf(ObservedActivity, Due(a), a, start) && Untouched(a, LiveTurns(a), a, start)
    ensures DetachedLoop(a, start, {}, start, NOTHING, true) && DetachedLoop(a, start, {}, start, NOTHING, false)
  {
    assert LiveTurns(a) + {} == LiveTurns(a);
    assert BusyDetached(a) * {} == {};
  }

  /** The hash-set loop: detached turns in whatever order they come. */
  method CloseDetached(store: Store, ghost a: Db, ids: set<TurnId>) returns (sum: Summary, ghost log: Log)
    requires PartOf(ObservedActivity, Due(a), a, store.View()) && Untouched(a, LiveTurns(a), a, store.View())
    requires forall t :: t in ids ==> t !in LiveTurns(a) && (t in a.turns ==> t in DetachedTurns(a))
    modifies store`calls, store`steps, store`spans
    ensures old(store.calls) <= store.calls
    ensures DetachedLoop(a, old(store.View()), ids, store.View(), sum, store.Calm(old(store.calls)))
    ensures (forall t :: t in log.turns <==> t in ids) && log.Spans(old(store.calls), store.calls)
    ensures Isolated(ObservedActivity, a, store.View(), store.plan, log)
  {
    sum := NOTHING;
    ghost var start, first := store.View(), store.calls;
    log := Log([], [first]);
    NothingSeenYet(a, start);
    var rest := ids;
    ghost var seen: set<TurnId> := {};
    assert store.Calm(first);
    while rest != {}
      invariant first <= store.calls && rest !! seen && rest + seen == ids
      invariant DetachedLoop(a, start, seen, store.View(), sum, store.Calm(first))
      invariant (forall t :: t in log.turns <==> t in seen) && log.Spans(first, store.calls)
      invariant Isolated(ObservedActivity, a, store.View(), store.plan, log)
      decreases rest
    {
      var t :| t in rest;
      sum, log := CloseNextDetached(store, a, start, seen, t, sum, log, first);
      MoveOne(rest, seen, ids, t);
      seen := seen + {t};
      rest := rest - {t};
    }
    assert seen == ids;
  }

  /** Sweeps unfinished trace rows whose turn is already terminal. */
  method RecoverDetached(store: Store, ghost a: Db, swept: set<TurnId>)
      returns (sum: Summary, ghost seen: set<TurnId>, ghost log: Log)
    requires swept == LiveTurns(a)
    requires PartOf(ObservedActivity, Due(a), a, store.View()) && Untouched(a, LiveTurns(a), a, store.View())
    modifies store`calls, store`steps, store`spans
    ensures old(store.calls) <= store.calls
    ensures seen !! LiveTurns(a)
    ensures DetachedLoop(a, old(store.View()), seen, store.View(), sum, store.Calm(old(store.calls)))
    ensures store.Calm(old(store.calls)) ==> DetachedTurns(a) <= seen
    ensures store.plan(old(store.calls)).Fine? ==>
              && (forall t :: t in DetachedTurns(a) ==> t in log.turns)
              && log.Spans(old(store.calls) + 1, store.calls)
              && Isolated(ObservedActivity, a, store.View(), store.plan, log)
  {
    sum, seen, log := NOTHING, {}, Log([], []);
    ghost var start := store.View();
    NothingSeenYet(a, start);
    var listed := store.ListUnfinishedSteps();
    if listed.Failure? { return; }
    var ids := TurnsNamed(listed.value, swept);
    CollectedAreDetached(a, start, listed.value, ids);
    sum, log := CloseDetached(store, a, ids);
    seen := ids;
  }

  // ----- the boot sweep -----

  /**
   * Every live turn, and every detached one if the second listing worked, is finished when
   * it is readable and its own calls, between `first` and `last`, went well.
   */
  ghost predicate PhasesIsolated(a: Db, now: Db, plan: nat -> Reply, first: nat, last: nat, live: Log, rest: Log) {
    && |live.marks| == |live.turns| + 1
    && var listing := live.marks[|live.turns|];
    && (forall t :: t in live.turns <==> t in LiveTurns(a))
    && live.Spans(first, listing) && listing <= last && Isolated(ObservedActivity, a, now, plan, live)
    && (plan(listing).Fine? ==>
          && (forall t :: t in DetachedTurns(a) ==> t in rest.turns)
          && rest.Spans(listing + 1, last) && Isolated(ObservedActivity, a, now, plan, rest))
  }

  /** Nothing that can be read is left open under a turn that ended before the sweep. */
  ghost predicate ClosesDetached(a: Db, now: Db) {
    forall t {:trigger Readable(a, t)} :: t in DetachedTurns(a) && Readable(a, t) ==> NothingOpen(now, t)
  }

  /**
   * What a boot sweep owes. Stopped anywhere it is a `Sweep` whose summary claims no more than
   * was closed; one live turn row that does not decode stops it at once. With no failing call it
   * is a `CleanSweep` that counts exactly what it closed under turns it can read and, if it can
   * list, cancels exactly the live ones of these. With nothing due it does nothing.
   */
  ghost predicate BootResult(a: Db, now: Db, sum: Summary, calm: bool) {
    && Sweep(a, now) && CrashLeaves(ObservedActivity, a, now) && CountsWithin(a, now, sum)
    && (calm ==> CleanSweep(a, now) && CountsRead(a, a, now, sum))
    && (calm && Listable(a) ==>
          && CancelsExactly(a, now, LiveTurns(a)) && ClosesDetached(a, now)
          && sum.turnsInspected == |LiveTurns(a)| + |BusyDetached(a)|)
    && (!Listable(a) || Due(a) == {} ==> now == a && sum == NOTHING)
  }

  lemma DetachedAreClosed(a: Db, now: Db)
    requires CleanSweep(a, now) && Listable(a)
    ensures ClosesDetached(a, now)
  {
    forall t | t in DetachedTurns(a) && Readable(a, t) ensures NothingOpen(now, t) {
      DoneTurnsAreClosedForGood(ObservedActivity, Due(a), a, now, t);
    }
  }

  lemma NothingDue(a: Db, now: Db, sum: Summary)
    requires PartOf(ObservedActivity, Due(a), a, now) && CountsWithin(a, now, sum)
    requires sum.turnsInspected <= |LiveTurns(a)| + sum.stepsClosed + sum.spansClosed
    ensures Due(a) == {} ==> now == a && sum == NOTHING
  {
    if Due(a) == {} {
      AllDoneIsSettled(ObservedActivity, Due(a), a, now);
      assert now.turns == a.turns && now.steps == a.steps && now.spans == a.spans;
    }
  }

  lemma BootResultHolds(a: Db, now: Db, sum: Summary, calm: bool)
    requires PartOf(ObservedActivity, Due(a), a, now) && CountsWithin(a, now, sum) && Listable(a)
    requires sum.turnsInspected <= |LiveTurns(a)| + sum.stepsClosed + sum.spansClosed
    requires calm ==> CleanSweep(a, now) && CountsRead(a, a, now, sum)
    requires calm ==> sum.turnsInspected == |LiveTurns(a)| + |BusyDetached(a)|
    ensures BootResult(a, now, sum, calm)
  {
    PassLeavesACrash(ObservedActivity, Due(a), a, now);
    if calm {
      CancelsExactlyTheReadable(ObservedActivity, Due(a), a, now, LiveTurns(a));
      DetachedAreClosed(a, now);
    }
    NothingDue(a, now, sum);
  }

  lemma AllBusySeen(a: Db, seen: set<TurnId>)
    requires DetachedTurns(a) <= seen
    ensures BusyDetached(a) * seen == BusyDetached(a)
  {
  }

  /** The live phase and the detached phase together: what they counted. */
  lemma PhasesJoin(a: Db, mid: Db, now: Db, rows: seq<(TurnId, Turn)>, seen: set<TurnId>,
                   live: Summary, detached: Summary, calmBefore: bool, calm: bool)
    requires Ids(rows, |rows|) == LiveTurns(a) && |rows| == |LiveTurns(a)|
    requires RecoverCounts(a, rows, |rows|, mid, live, calmBefore)
    requires DetachedCounts(a, mid, seen, now, detached, calm)
    requires calm ==> calmBefore && DetachedTurns(a) <= seen
    ensures CountsWithin(a, now, Plus(live, detached))
    ensures calm ==>
              && CountsRead(a, a, now, Plus(live, detached))
              && Plus(live, detached).turnsInspected == |LiveTurns(a)| + |BusyDetached(a)|
    ensures Plus(live, detached).turnsInspected
            <= |LiveTurns(a)| + Plus(live, detached).stepsClosed + Plus(live, detached).spansClosed
  {
    CountsJoin(a, mid, now, live, detached);
    if calm { AllBusySeen(a, seen); }
  }

  lemma PhasesFinish(a: Db, mid: Db, now: Db, rows: seq<(TurnId, Turn)>, seen: set<TurnId>)
    requires PartOf(ObservedActivity, Due(a), a, now) && Untouched(a, seen, mid, now)
    requires seen !! LiveTurns(a) && DetachedTurns(a) <= seen && Ids(rows, |rows|) == LiveTurns(a)
    requires ListedDone(ObservedActivity, a, rows, |rows|, mid) && SeenDone(a, seen, now) && Listable(a)
    ensures CleanSweep(a, now)
  {
    AllListedDone(ObservedActivity, LiveTurns(a), a, rows, mid);
    forall t | t in LiveTurns(a) && Readable(a, t) ensures TurnDone(ObservedActivity, a, now, t) {
      DoneStays(ObservedActivity, a, seen, t, mid, now);
    }
  }

  /** Both phases together are what a boot sweep owes. */
  lemma {:induction false} PhasesAdd(a: Db, mid: Db, now: Db, rows: seq<(TurnId, Turn)>, seen: set<TurnId>,
                  live: Summary, detached: Summary, calmBefore: bool, calm: bool)
    requires Ids(rows, |rows|) == LiveTurns(a) && |rows| == |LiveTurns(a)| && seen !! LiveTurns(a) && Listable(a)
    requires RecoverLoop(ObservedActivity, Due(a), a, rows, |rows|, mid, live, calmBefore)
    requires DetachedLoop(a, mid, seen, now, detached, calm)
    requires calm ==> calmBefore && DetachedTurns(a) <= seen
    ensures BootResult(a, now, Plus(live, detached), calm)
  {
    PhasesJoin(a, mid, now, rows, seen, live, detached, calmBefore, calm);
    if calm { PhasesFinish(a, mid, now, rows, seen); }
    BootResultHolds(a, now, Plus(live, detached), calm);
  }

  /** The rows that outlived their turn, once the listed live turns are dealt with. */
  method FinishSweep(store: Store, ghost a: Db, rows: seq<(TurnId, Turn)>, swept: set<TurnId>, first: Summary,
                     ghost start: nat, ghost live: Log)
      returns (sum: Summary, ghost rest: Log)
    requires start <= store.calls && swept == Ids(rows, |rows|) == LiveTurns(a) && |rows| == |LiveTurns(a)| && Listable(a)
    requires RecoverLoop(ObservedActivity, Due(a), a, rows, |rows|, store.View(), first, store.Calm(start))
    requires (forall t :: t in live.turns <==> t in LiveTurns(a)) && live.Spans(start, store.calls)
    requires Isolated(ObservedActivity, a, store.View(), store.plan, live)
    modifies store`calls, store`steps, store`spans
    ensures start <= store.calls
    ensures BootResult(a, store.View(), sum, store.Calm(start))
    ensures PhasesIsolated(a, store.View(), store.plan, start, store.calls, live, rest)
  {
    ghost var mid, calm := store.View(), store.Calm(start);
    ghost var seen;
    var detached;
    detached, seen, rest := RecoverDetached(store, a, swept);
    sum := Plus(first, detached);
    PhasesAdd(a, mid, store.View(), rows, seen, first, detached, calm, store.Calm(start));
    IsolatedStays(ObservedActivity, a, seen, mid, store.View(), store.plan, live);
  }

  /** The live turns of one listing, then the rows that outlived their turn. */
  method SweepPhases(store: Store, ghost a: Db, rows: seq<(TurnId, Turn)>)
      returns (sum: Summary, ghost live: Log, ghost rest: Log)
    requires store.View() == a && Lists(rows, a.turns, LiveTurns(a)) && Listable(a)
    modifies store`calls, store`turns, store`steps, store`spans
    ensures old(store.calls) <= store.calls
    ensures BootResult(a, store.View(), sum, store.Calm(old(store.calls)))
    ensures PhasesIsolated(a, store.View(), store.plan, old(store.calls), store.calls, live, rest)
  {
    ghost var start := store.calls;
    ListedIds(rows, a.turns, LiveTurns(a));
    sum, live := RecoverListed(store, ObservedActivity, Due(a), a, rows);
    var swept := set i | 0 <= i < |rows| :: rows[i].0;
    assert swept == Ids(rows, |rows|);
    sum, rest := FinishSweep(store, a, rows, swept, sum, start, live);
  }

  /**
   * Sweeps what an unclean shutdown left open. A readable turn whose own calls went well is
   * finished even when others failed.
   */
  method RecoverOrphans(store: Store)
      returns (sum: Summary, ghost live: Log, ghost rest: Log)
    modifies store`calls, store`turns, store`steps, store`spans
    ensures BootResult(old(store.View()), store.View(), sum, store.Calm(old(store.calls)))
    ensures store.plan(old(store.calls)).Fine? && Listable(old(store.View())) ==>
              PhasesIsolated(old(store.View()), store.View(), store.plan, old(store.calls) + 1, store.calls, live, rest)
  {
    ghost var a, start := store.View(), store.calls;
    var listed := store.ListRecoverable();
    if listed.Failure? {
      NothingWrittenYet(ObservedActivity, Due(a), a);
      PassLeavesACrash(ObservedActivity, Due(a), a, a);
      return NOTHING, Log([], []), Log([], []);
    }
    sum, live, rest := SweepPhases(store, a, listed.value);
    assert store.Calm(start) ==> store.Calm(start + 1);
  }
}
