/**
 * When boot recovery converges: over any number of interrupted sweeps, for exactly which
 * turns, and what it leaves behind for the others.
 */
module RecoveryConvergence {
  import opened Wrappers
  import opened TraceModel
  import opened RecoveryLaws

  // ----- boot sweeps -----

  /** The boot listing succeeds only when every live turn row decodes. */
  ghost predicate Listable(a: Db) { AllDecode(a, LiveTurns(a)) }

  /** One boot sweep, complete or stopped anywhere; it stops at once when its listing fails. */
  ghost predicate Sweep(a: Db, b: Db) {
    PartOf(ObservedActivity, Due(a), a, b) && (!Listable(a) ==> b == a)
  }

  /** A sweep in which no store call went wrong: if it can list, every turn it can read is finished. */
  ghost predicate CleanSweep(a: Db, b: Db) {
    && Sweep(a, b)
    && (Listable(a) ==> forall t :: t in Due(a) && Readable(a, t) ==> TurnDone(ObservedActivity, a, b, t))
  }

  /** Whether the boot listing succeeds does not change from boot to boot. */
  lemma ListableStable(a: Db, b: Db)
    requires Sweep(a, b)
    ensures Listable(b) <==> Listable(a)
  {
    if Listable(a) {
      forall t | t in LiveTurns(b) ensures TurnDecodes(b, t) {
        assert TurnStage(ObservedActivity, Due(a), a, b, t);
        assert t in LiveTurns(a);
      }
    }
  }

  /** A Pending row that already carries an end time. */
  predicate Unpaired(body: Option<Body>) {
    body.Some? && body.value.state.Pending? && body.value.endedAt.Some?
  }

  /** No step of `t` is unpaired, and a span is so only under a step that has no end time itself. */
  ghost predicate Paired(db: Db, t: TurnId) {
    && (forall s :: s in db.steps && db.steps[s].turn == t ==> !Unpaired(db.steps[s].body))
    && (forall p :: SpanInScope({t}, db, p) && Unpaired(db.spans[p].body) ==>
          db.steps[db.spans[p].step].body.value.endedAt.None?)
  }

  /** The turns whose recovery survives interruption: live ones, and paired detached ones. */
  ghost predicate Resumable(db: Db, t: TurnId) {
    t in LiveTurns(db) || Paired(db, t)
  }

  lemma UnfinishedShrinks(c: Clock, ts: set<TurnId>, a: Db, b: Db, s: StepId)
    requires PartOf(c, ts, a, b) && s in b.steps && Unfinished(b, s) && Decoded(b, s)
    ensures Unfinished(a, s)
  {
    assert StepStage(c, ts, a, b, s);
    if !Open(b.steps[s].body, b.steps[s].ended) {
      var p :| p in b.spans && b.spans[p].step == s && Open(b.spans[p].body, b.spans[p].ended);
      assert SpanStage(c, ts, a, b, p);
      assert Open(a.spans[p].body, a.spans[p].ended) && a.spans[p].step == s;
    }
  }

  /** A partial pass never gives the next boot a turn it did not have before. */
  lemma DueShrinks(c: Clock, a: Db, b: Db)
    requires PartOf(c, Due(a), a, b)
    ensures Due(b) <= Due(a)
  {
    forall t | t in Due(b) ensures t in Due(a) {
      assert TurnStage(c, Due(a), a, b, t);
      if t in DetachedTurns(b) {
        var s :| s in UnfinishedSteps(b) && Decoded(b, s) && b.steps[s].turn == t;
        UnfinishedShrinks(c, Due(a), a, b, s);
        assert StepStage(c, Due(a), a, b, s);
        assert s in UnfinishedSteps(a) && Decoded(a, s);
      }
    }
  }

  /** A row with an end time, or one a pass has written, is closed for good. */
  lemma ClosedRowsAreFinal(c: Clock, ts: set<TurnId>, a: Db, b: Db, t: TurnId)
    requires PartOf(c, ts, a, b) && Paired(a, t)
    requires forall s :: s in b.steps && Decoded(b, s) && b.steps[s].turn == t ==> !Unfinished(b, s)
    ensures SubtreeDone(c, a, b, t)
  {
    forall s | s in a.steps && a.steps[s].turn == t ensures b.steps[s] == StepFinal(c, a, s) {
      assert StepStage(c, ts, a, b, s);
    }
    forall p | SpanInScope({t}, a, p) ensures b.spans[p] == SpanFinal(c, a, p) {
      var s := a.spans[p].step;
      assert SpanStage(c, ts, a, b, p) && StepStage(c, ts, a, b, s);
      StepFinalStable(c, ts, a, b, s);
      assert !Unfinished(b, s);
    }
  }

  /** The next boot drops a turn only when an earlier pass has finished it. */
  lemma DroppedTurnsAreDone(c: Clock, a: Db, b: Db, t: TurnId)
    requires PartOf(c, Due(a), a, b) && Resumable(a, t)
    requires t in Due(a) && t !in Due(b)
    ensures TurnDone(c, a, b, t)
  {
    assert TurnStage(c, Due(a), a, b, t);
    if b.turns[t] == a.turns[t] && t !in LiveTurns(a) {
      forall s | s in b.steps && Decoded(b, s) && b.steps[s].turn == t ensures !Unfinished(b, s) {
        assert s in UnfinishedSteps(b) ==> t in DetachedTurns(b);
      }
      ClosedRowsAreFinal(c, Due(a), a, b, t);
    }
  }

  ghost predicate SweepRun(run: seq<Db>) {
    forall i :: 0 <= i < |run| - 1 ==> Sweep(run[i], run[i + 1])
  }

  lemma {:induction false} RunIsOnePartialSweep(run: seq<Db>)
    requires |run| > 0 && SweepRun(run)
    ensures Sweep(run[0], run[|run| - 1])
    ensures Due(run[|run| - 1]) <= Due(run[0])
    decreases |run|
  {
    if |run| > 1 {
      var init := run[..|run| - 1];
      RunIsOnePartialSweep(init);
      var y, z := run[|run| - 2], run[|run| - 1];
      assert Sweep(run[|run| - 2], run[|run| - 2 + 1]);
      PassesCompose(ObservedActivity, Due(run[0]), Due(y), run[0], y, z);
      ListableStable(run[0], y);
      DueShrinks(ObservedActivity, run[0], z);
    }
  }

  /**
   * Interrupted recovery converges. However many boots are cut short, and wherever,
   * one sweep without a failing call leaves each readable, resumable turn exactly as a
   * single uninterrupted sweep of the original store would, and the whole store so when
   * every due turn is such.
   */
  lemma InterruptedRecoveryConverges(run: seq<Db>, last: Db)
    requires |run| > 0 && SweepRun(run) && CleanSweep(run[|run| - 1], last)
    ensures Listable(run[0]) ==>
              forall t :: t in Due(run[0]) && Readable(run[0], t) && Resumable(run[0], t)
                          ==> TurnDone(ObservedActivity, run[0], last, t)
    ensures (forall t :: t in Due(run[0]) ==> Readable(run[0], t) && Resumable(run[0], t))
            ==> last == Settle(ObservedActivity, Due(run[0]), run[0])
  {
    var x, y := run[0], run[|run| - 1];
    RunIsOnePartialSweep(run);
    PassesCompose(ObservedActivity, Due(x), Due(y), x, y, last);
    ListableStable(x, y);
    forall t | Listable(x) && t in Due(x) && Readable(x, t) && Resumable(x, t) ensures TurnDone(ObservedActivity, x, last, t) {
      if t in Due(y) {
        ReadableStable(ObservedActivity, Due(x), x, y, t);
      } else {
        DroppedTurnsAreDone(ObservedActivity, x, y, t);
      }
    }
    if forall t :: t in Due(x) ==> Readable(x, t) && Resumable(x, t) {
      AllDoneIsSettled(ObservedActivity, Due(x), x, last);
    }
  }

  /** A finished readable turn has no open row left under it. */
  lemma DoneTurnsAreClosed(c: Clock, ts: set<TurnId>, a: Db, b: Db, t: TurnId)
    requires PartOf(c, ts, a, b) && TurnDone(c, a, b, t) && Readable(a, t)
    ensures t !in LiveTurns(b) && t !in DetachedTurns(b)
  {
    forall s | s in b.steps && Decoded(b, s) && b.steps[s].turn == t ensures !Unfinished(b, s) {
      StepFinalStable(c, ts, a, b, s);
      forall p | p in b.spans && b.spans[p].step == s ensures !Open(b.spans[p].body, b.spans[p].ended) {
        assert SpanStage(c, ts, a, b, p);
        assert SpanInScope({t}, a, p) && SpanReadable(a, p);
      }
    }
  }

  /** After a clean sweep over readable turns the next boot finds nothing, and writes nothing. */
  lemma CleanSweepIsIdempotent(a: Db, b: Db, again: Db)
    requires CleanSweep(a, b) && Sweep(b, again)
    requires forall t :: t in Due(a) ==> Readable(a, t)
    ensures Due(b) == {} && again == b
  {
    DueShrinks(ObservedActivity, a, b);
    forall t | t in Due(a) ensures t !in Due(b) {
      DoneTurnsAreClosed(ObservedActivity, Due(a), a, b, t);
    }
    assert Due(b) == {};
    AllDoneIsSettled(ObservedActivity, Due(b), b, again);
    assert again.spans == b.spans && again.steps == b.steps && again.turns == b.turns;
  }

  /** A clean sweep has one outcome, whatever order its listings and hash sets came in. */
  lemma CleanSweepsAgree(a: Db, b: Db, b': Db)
    requires CleanSweep(a, b) && CleanSweep(a, b')
    requires forall t :: t in Due(a) ==> Readable(a, t)
    ensures b == b' == Settle(ObservedActivity, Due(a), a)
  {
    AllDoneIsSettled(ObservedActivity, Due(a), a, b);
    AllDoneIsSettled(ObservedActivity, Due(a), a, b');
  }

  lemma NothingIsASweep(a: Db)
    ensures Sweep(a, a)
  {
    assert forall p :: p in a.spans ==> SpanStage(ObservedActivity, Due(a), a, a, p);
    assert forall s :: s in a.steps ==> StepStage(ObservedActivity, Due(a), a, a, s);
    assert forall t :: t in a.turns ==> TurnStage(ObservedActivity, Due(a), a, a, t);
  }

  /** An ended turn with an open step and a Pending one that already has an end. */
  function Unpairing(): Db {
    var open := StepRow(0, Some(Body("", 1, None, Pending)), false);
    var unpaired := StepRow(0, Some(Body("", 1, Some(2), Pending)), false);
    Db(map[0 := Turn(0, Completed, 0, None, Some(0), true)], map[0 := open, 1 := unpaired], map[], map[])
  }

  /** The pass stopped behind the first of them. */
  ghost function HalfSwept(): Db {
    Unpairing().(steps := Unpairing().steps[0 := StepFinal(ObservedActivity, Unpairing(), 0)])
  }

  lemma HalfSweptIsASweep()
    ensures Due(Unpairing()) == {0} && Sweep(Unpairing(), HalfSwept())
  {
    var a, b := Unpairing(), HalfSwept();
    assert Unfinished(a, 0) && 0 in UnfinishedSteps(a) && Decoded(a, 0);
    assert Due(a) == {0};
    assert StepStage(ObservedActivity, {0}, a, b, 0) && StepStage(ObservedActivity, {0}, a, b, 1);
    assert TurnStage(ObservedActivity, {0}, a, b, 0);
  }

  lemma UnpairedStaysPending()
    requires Due(Unpairing()) == {0}
    ensures HalfSwept() != Settle(ObservedActivity, Due(Unpairing()), Unpairing())
  {
    assert HalfSwept().steps[1].body.value.state.Pending?;
    assert !Settle(ObservedActivity, {0}, Unpairing()).steps[1].body.value.state.Pending?;
  }

  lemma HalfSweptIsNotDue()
    ensures Due(HalfSwept()) == {}
  {
    assert !Unfinished(HalfSwept(), 0) && !Unfinished(HalfSwept(), 1);
  }

  /**
   * Why a detached turn needs its rows paired: a Completed turn with one open step and one
   * Pending step that already carries an end time. Stopping after the first write hides
   * the second row from every later listing, so later clean sweeps leave it Pending.
   */
  lemma UnpairedDetachedRowIsLost()
    ensures exists a, b, last ::
              && Sweep(a, b) && CleanSweep(b, last)
              && (forall t :: t in Due(a) ==> Readable(a, t))
              && last != Settle(ObservedActivity, Due(a), a)
  {
    var a, b := Unpairing(), HalfSwept();
    HalfSweptIsASweep();
    HalfSweptIsNotDue();
    NothingIsASweep(b);
    UnpairedStaysPending();
    assert CleanSweep(b, b) && forall t :: t in Due(a) ==> Readable(a, t);
  }

  // ----- turns that cannot be read -----

  /** A sweep in which no store call went wrong finishes exactly the live turns it can read, if it can list. */
  lemma CleanSweepFinishesIff(a: Db, b: Db, t: TurnId)
    requires CleanSweep(a, b) && t in LiveTurns(a)
    ensures t !in LiveTurns(b) <==> Listable(a) && Readable(a, t)
  {
    assert TurnStage(ObservedActivity, Due(a), a, b, t);
  }

  /** However many boots there are, a live turn with a span that cannot be read stays as it is. */
  lemma UnreadableTurnStaysLive(run: seq<Db>, t: TurnId)
    requires |run| > 0 && SweepRun(run) && t in LiveTurns(run[0]) && !Readable(run[0], t)
    ensures t in LiveTurns(run[|run| - 1]) && run[|run| - 1].turns[t] == run[0].turns[t]
  {
    RunIsOnePartialSweep(run);
    assert TurnStage(ObservedActivity, Due(run[0]), run[0], run[|run| - 1], t);
  }

  /** Such a store: one turn in progress, one open step, one span whose row does not decode. */
  lemma UndecodableSpanBlocksItsTurn()
    ensures exists a :: 0 in LiveTurns(a) && Decoded(a, 0) && !Readable(a, 0) && CleanSweep(a, a)
  {
    var step := StepRow(0, Some(Body("", 1, None, Pending)), false);
    var a := Db(map[0 := Turn(0, InProgress, 0, None, None, true)], map[0 := step], map[0 := SpanRow(0, None, false)], map[]);
    assert SpanInScope({0}, a, 0) && !SpanReadable(a, 0);
    assert Due(a) == {0};
    assert Sweep(a, a) by {
      assert SpanStage(ObservedActivity, {0}, a, a, 0) && StepStage(ObservedActivity, {0}, a, a, 0);
      assert TurnStage(ObservedActivity, {0}, a, a, 0);
    }
  }

  /** However many boots there are, one live turn row that does not decode keeps the whole store as it is. */
  lemma UndecodableTurnStopsRecovery(run: seq<Db>, t: TurnId)
    requires |run| > 0 && SweepRun(run) && t in LiveTurns(run[0]) && !TurnDecodes(run[0], t)
    ensures run[|run| - 1] == run[0]
  {
    RunIsOnePartialSweep(run);
    assert !Listable(run[0]);
  }

  /** Such a store: beside the bad row, a turn with nothing under it that no boot will ever cancel. */
  lemma UndecodableTurnBlocksAnother()
    ensures exists a :: 1 in LiveTurns(a) && Readable(a, 1) && Resumable(a, 1) && !Listable(a) && CleanSweep(a, a)
  {
    var bad, good := Turn(0, InProgress, 0, None, None, false), Turn(0, InProgress, 0, None, None, true);
    var a := Db(map[0 := bad, 1 := good], map[], map[], map[]);
    assert 0 in LiveTurns(a) && !TurnDecodes(a, 0);
    assert forall t :: t in a.turns ==> TurnStage(ObservedActivity, Due(a), a, a, t);
    assert CleanSweep(a, a);
  }

  // ----- exactly which turns converge -----

  /** The sweep's work on a due turn is complete and the next boot has nothing to do for it. */
  ghost predicate Finished(a: Db, last: Db, t: TurnId) {
    TurnDone(ObservedActivity, a, last, t) && t !in Due(last)
  }

  /** From `a`, some interrupted boots and then one without a failing call. */
  ghost predicate Recovery(a: Db, run: seq<Db>, last: Db) {
    |run| > 0 && run[0] == a && SweepRun(run) && CleanSweep(run[|run| - 1], last)
  }

  ghost predicate AlwaysFinished(a: Db, t: TurnId) {
    forall run, last :: Recovery(a, run, last) ==> Finished(a, last, t)
  }

  ghost function ReadableDue(a: Db): set<TurnId> { set t | t in Due(a) && Readable(a, t) }

  /** From every store that can be listed a clean sweep exists: it settles what it can read. */
  lemma SettlingIsClean(a: Db)
    requires Listable(a)
    ensures CleanSweep(a, Settle(ObservedActivity, ReadableDue(a), a))
  {
    var c, ts := ObservedActivity, ReadableDue(a);
    var b := Settle(c, ts, a);
    forall s | s in a.steps && a.steps[s].turn in ts && Decoded(a, s) ensures SpansReadable(a, s) && SpansDone(c, a, b, s) {
      forall p | p in a.spans && a.spans[p].step == s ensures SpanReadable(a, p) && SpanInScope(ts, a, p) {
        assert SpanInScope({a.steps[s].turn}, a, p);
      }
    }
    forall p | p in a.spans ensures SpanStage(c, Due(a), a, b, p) {
      if SpanInScope(ts, a, p) { assert SpansReadable(a, a.spans[p].step); }
    }
    assert forall s :: s in a.steps ==> StepStage(c, Due(a), a, b, s);
    forall t | t in a.turns ensures TurnStage(c, Due(a), a, b, t) && (t in ts ==> TurnDone(c, a, b, t)) {
      if t in ts { assert SubtreeDone(c, a, b, t); }
    }
  }

  /** Nothing recovery could touch under `t` differs. */
  ghost predicate SameTurn(a: Db, b: Db, t: TurnId) {
    && SameKeys(a, b) && t in a.turns && b.turns[t] == a.turns[t]
    && (forall s :: s in a.steps && a.steps[s].turn == t ==> b.steps[s] == a.steps[s])
    && (forall p :: SpanInScope({t}, a, p) ==> b.spans[p] == a.spans[p])
  }

  lemma SettlingSkipsOthers(a: Db, t: TurnId)
    requires t in a.turns && t !in ReadableDue(a)
    ensures SameTurn(a, Settle(ObservedActivity, ReadableDue(a), a), t)
  {
  }

  /** A due turn nothing was done for is still due. */
  lemma UntouchedStaysDue(a: Db, b: Db, t: TurnId)
    requires PartOf(ObservedActivity, Due(a), a, b) && SameTurn(a, b, t) && t in Due(a)
    ensures t in Due(b)
  {
    if t in DetachedTurns(a) {
      var s :| s in UnfinishedSteps(a) && Decoded(a, s) && a.steps[s].turn == t;
      assert SpansUnder(b, s) == SpansUnder(a, s) by {
        assert forall p :: p in a.spans ==> SpanStage(ObservedActivity, Due(a), a, b, p);
      }
      if !Open(a.steps[s].body, a.steps[s].ended) {
        var p :| p in SpansUnder(a, s) && Open(a.spans[p].body, a.spans[p].ended);
        assert SpanInScope({t}, a, p) && p in SpansUnder(b, s);
      }
      assert s in UnfinishedSteps(b);
    }
  }

  /** `a` with everything under `t` closed but step `s` and the spans `ps`. */
  ghost function AllBut(a: Db, t: TurnId, s: StepId, ps: set<SpanId>): Db {
    var c := ObservedActivity;
    a.(steps := map q | q in a.steps :: if a.steps[q].turn == t && q != s then StepFinal(c, a, q) else a.steps[q],
       spans := map p | p in a.spans :: if SpanInScope({t}, a, p) && p !in ps then SpanFinal(c, a, p) else a.spans[p])
  }

  /** `s` is a step of `t` with an end time, and `ps` are spans of it with end times. */
  ghost predicate Ended(a: Db, t: TurnId, s: StepId, ps: set<SpanId>) {
    && Decoded(a, s) && a.steps[s].turn == t && a.steps[s].body.value.endedAt.Some?
    && forall p :: p in ps ==> p in SpansUnder(a, s) && a.spans[p].body.Some? && a.spans[p].body.value.endedAt.Some?
  }

  /** Leaving out such rows is a possible interruption. */
  lemma LeavingOutIsASweep(a: Db, t: TurnId, s: StepId, ps: set<SpanId>)
    requires Listable(a) && t in Due(a) && Readable(a, t) && Ended(a, t, s, ps)
    ensures Sweep(a, AllBut(a, t, s, ps))
  {
    var c, b := ObservedActivity, AllBut(a, t, s, ps);
    forall p | p in a.spans ensures SpanStage(c, Due(a), a, b, p) {
      assert SpanInScope({t}, a, p) ==> SpanInScope(Due(a), a, p);
    }
    forall q | q in a.steps ensures StepStage(c, Due(a), a, b, q) {
      if a.steps[q].turn == t && q != s && Decoded(a, q) {
        assert forall p :: p in a.spans && a.spans[p].step == q ==> SpanInScope({t}, a, p);
      }
    }
    assert forall u :: u in a.turns ==> TurnStage(c, Due(a), a, b, u);
  }

  lemma EndedStepIsFinished(a: Db, t: TurnId, s: StepId, ps: set<SpanId>, q: StepId)
    requires Readable(a, t) && Ended(a, t, s, ps) && Decoded(a, q) && a.steps[q].turn == t
    ensures !Unfinished(AllBut(a, t, s, ps), q)
  {
    var b := AllBut(a, t, s, ps);
    forall p | p in b.spans && b.spans[p].step == q ensures !Open(b.spans[p].body, b.spans[p].ended) {
      assert SpanInScope({t}, a, p) && SpanReadable(a, p);
    }
  }

  /** After it the turn is no longer listed. */
  lemma LeftOutIsHidden(a: Db, t: TurnId, s: StepId, ps: set<SpanId>)
    requires t in DetachedTurns(a) && Readable(a, t) && Ended(a, t, s, ps)
    ensures t !in Due(AllBut(a, t, s, ps))
  {
    var b := AllBut(a, t, s, ps);
    forall q | q in b.steps && Decoded(b, q) && b.steps[q].turn == t ensures !Unfinished(b, q) {
      EndedStepIsFinished(a, t, s, ps, q);
    }
  }

  /** A row of `t` an interruption can hide: the step it belongs to and the spans left out. */
  lemma UnpairedRow(a: Db, t: TurnId) returns (s: StepId, ps: set<SpanId>)
    requires Readable(a, t) && !Paired(a, t)
    ensures Decoded(a, s) && a.steps[s].turn == t && a.steps[s].body.value.endedAt.Some?
    ensures forall p :: p in ps ==> p in SpansUnder(a, s) && Unpaired(a.spans[p].body)
    ensures Unpaired(a.steps[s].body) || ps != {}
  {
    if s' :| s' in a.steps && a.steps[s'].turn == t && Unpaired(a.steps[s'].body) {
      s, ps := s', {};
    } else {
      var p :| SpanInScope({t}, a, p) && Unpaired(a.spans[p].body) && a.steps[a.spans[p].step].body.value.endedAt.Some?;
      s, ps := a.spans[p].step, {p};
    }
  }

  /** While an unpaired row stays as it was, its turn is not done. */
  lemma LeftOutIsNotDone(a: Db, last: Db, t: TurnId, s: StepId, ps: set<SpanId>)
    requires SameTurn(AllBut(a, t, s, ps), last, t) && Ended(a, t, s, ps)
    requires (forall p :: p in ps ==> Unpaired(a.spans[p].body)) && (Unpaired(a.steps[s].body) || ps != {})
    ensures !TurnDone(ObservedActivity, a, last, t)
  {
    var b := AllBut(a, t, s, ps);
    if ps != {} {
      var p :| p in ps;
      assert SpanInScope({t}, a, p) && SpanInScope({t}, b, p);
      assert last.spans[p] == a.spans[p] != SpanFinal(ObservedActivity, a, p);
    } else {
      assert last.steps[s] == a.steps[s] != StepFinal(ObservedActivity, a, s);
    }
  }

  /** A boot that does not list the turn, after one cut short, leaves it as the cut did. */
  lemma HiddenTurnStays(a: Db, b: Db, t: TurnId) returns (last: Db)
    requires Listable(a) && Sweep(a, b) && t in b.turns && t !in Due(b)
    ensures Recovery(a, [a, b], last) && SameTurn(b, last, t)
  {
    ListableStable(a, b);
    SettlingIsClean(b);
    SettlingSkipsOthers(b, t);
    last := Settle(ObservedActivity, ReadableDue(b), b);
  }

  /** An unpaired detached turn can be cut short so that the next boot misses it and leaves it unfinished. */
  lemma UnpairedTurnCanBeLost(a: Db, t: TurnId)
    requires Listable(a) && t in DetachedTurns(a) && Readable(a, t) && !Paired(a, t)
    ensures !AlwaysFinished(a, t)
  {
    var s, ps := UnpairedRow(a, t);
    var b := AllBut(a, t, s, ps);
    LeavingOutIsASweep(a, t, s, ps);
    LeftOutIsHidden(a, t, s, ps);
    var last := HiddenTurnStays(a, b, t);
    LeftOutIsNotDone(a, last, t, s, ps);
  }

  /** From every store a sweep in which no call goes wrong may leave a turn it cannot work on as it is. */
  lemma BlockedTurnStaysDue(a: Db, t: TurnId) returns (last: Db)
    requires t in Due(a) && !(Listable(a) && Readable(a, t))
    ensures CleanSweep(a, last) && t in Due(last)
  {
    if Listable(a) {
      SettlingIsClean(a);
      SettlingSkipsOthers(a, t);
      last := Settle(ObservedActivity, ReadableDue(a), a);
      UntouchedStaysDue(a, last, t);
    } else {
      last := a;
      NothingIsASweep(a);
    }
  }

  /**
   * Exactly which due turns every interrupted recovery finishes: when every live turn row
   * decodes, those that can be read and are live or paired; otherwise none.
   */
  lemma RecoveryConvergesIff(a: Db, t: TurnId)
    requires t in Due(a)
    ensures AlwaysFinished(a, t) <==> Listable(a) && Readable(a, t) && Resumable(a, t)
  {
    if !(Listable(a) && Readable(a, t)) {
      var last := BlockedTurnStaysDue(a, t);
      assert Recovery(a, [a], last);
    } else if !Resumable(a, t) {
      UnpairedTurnCanBeLost(a, t);
    } else {
      forall run, last | Recovery(a, run, last) ensures Finished(a, last, t) {
        InterruptedRecoveryConverges(run, last);
        RunIsOnePartialSweep(run);
        PassesCompose(ObservedActivity, Due(a), Due(run[|run| - 1]), a, run[|run| - 1], last);
        DoneTurnsAreClosed(ObservedActivity, Due(a), a, last, t);
      }
    }
  }
}
