/**
 * The turn / step / span tables that crash recovery works on, and the state
 * recovery is meant to reach, written as functions of the state it started from.
 */
module TraceModel {
  import opened Wrappers

  type Time = int

  type TurnId = nat

  type StepId = nat

  type SpanId = nat

  type SessionId = nat

  datatype CancelReason = SystemCrash | OtherReason(tag: string)

  datatype Outcome = Ok | Failed(why: string) | Cancelled(reason: CancelReason)

  datatype LifeState = Pending | Done(outcome: Outcome)

  /** The decoded part shared by step and span rows; `kind` is the payload recovery never edits. */
  datatype Body = Body(kind: string, startedAt: Time, endedAt: Option<Time>, state: LifeState)

  // `body == None` is a row whose JSON does not decode. Its indexed columns are still readable:
  // the parent, and whether there is an end time. A decodable row's end column is its body's.
  datatype StepRow = StepRow(turn: TurnId, body: Option<Body>, ended: bool)

  datatype SpanRow = SpanRow(step: StepId, body: Option<Body>, ended: bool)

  datatype TurnStatus =
    | TurnPending
    | InProgress
    | Stuck(why: string)
    | TurnCancelled(reason: CancelReason)
    | TurnFailed(why: string)
    | Completed
  {
    predicate Terminal() { TurnCancelled? || TurnFailed? || Completed? }
  }

  // A turn row whose JSON does not decode still has its columns: session, status and times.
  datatype Turn = Turn(session: SessionId, status: TurnStatus,
                       createdAt: Time, startedAt: Option<Time>, endedAt: Option<Time>, decodes: bool)
  {
    function Start(): Time { if startedAt.Some? then startedAt.value else createdAt }

    function CancelAt(at: Time): Turn {
      if status.Terminal() then this
      else this.(status := TurnCancelled(SystemCrash), endedAt := Some(at))
    }
  }

  datatype Db = Db(turns: map<TurnId, Turn>,
                   steps: map<StepId, StepRow>,
                   spans: map<SpanId, SpanRow>,
                   events: map<SpanId, seq<Option<Time>>>)

  /** Boot recovery only knows observed activity; panic recovery knows the crash instant. */
  datatype Clock = ObservedActivity | CrashAt(at: Time)
  {
    function CloseTime(floor: Time): Time {
      match this
      case ObservedActivity => floor
      case CrashAt(at) => if at > floor then at else floor
    }
  }

  // ----- the latest of a set of instants -----

  ghost predicate IsLatest(m: Time, base: Time, ts: set<Time>) {
    && base <= m
    && (forall t :: t in ts ==> t <= m)
    && (m == base || m in ts)
  }

  ghost function Latest(base: Time, ts: set<Time>): (m: Time)
    ensures IsLatest(m, base, ts)
  {
    if exists t :: t in ts then
      var t :| t in ts;
      var rest := Latest(base, ts - {t});
      assert ts == ts - {t} + {t};
      if t > rest then t else rest
    else base
  }

  // ----- rows and who they belong to -----

  function EventsOf(db: Db, p: SpanId): seq<Option<Time>> {
    if p in db.events then db.events[p] else []
  }

  ghost function EventTimes(evs: seq<Option<Time>>): set<Time> {
    set i | 0 <= i < |evs| && evs[i].Some? :: evs[i].value
  }

  function SpansUnder(db: Db, s: StepId): set<SpanId> {
    set p | p in db.spans && db.spans[p].step == s
  }

  function StepsUnder(db: Db, t: TurnId): set<StepId> {
    set s | s in db.steps && db.steps[s].turn == t
  }

  ghost predicate Decoded(db: Db, s: StepId) { s in db.steps && db.steps[s].body.Some? }

  /** The spans recovery may touch for the turns `ts`: those under a decodable step. */
  ghost predicate SpanInScope(ts: set<TurnId>, db: Db, p: SpanId) {
    p in db.spans && Decoded(db, db.spans[p].step) && db.steps[db.spans[p].step].turn in ts
  }

  // ----- what each row is closed to -----

  ghost function SpanClosed(c: Clock, b: Body, evs: seq<Option<Time>>): Body {
    match b.state
    case Done(_) => if b.endedAt.Some? then b else b.(endedAt := Some(b.startedAt))
    case Pending =>
      b.(state := Done(Cancelled(SystemCrash)),
         endedAt := Some(c.CloseTime(Latest(b.startedAt, EventTimes(evs)))))
  }

  ghost function SpanFinal(c: Clock, db: Db, p: SpanId): (r: SpanRow)
    requires p in db.spans
    ensures db.spans[p].body.Some? ==> r.body.Some? && r.body.value.endedAt.Some?
  {
    var row := db.spans[p];
    if row.body.None? then row
    else row.(body := Some(SpanClosed(c, row.body.value, EventsOf(db, p))))
  }

  ghost function SpanEnds(c: Clock, db: Db, s: StepId): set<Time> {
    set p | p in SpansUnder(db, s) && db.spans[p].body.Some? :: SpanFinal(c, db, p).body.value.endedAt.value
  }

  ghost function StepFloor(c: Clock, db: Db, s: StepId): Time
    requires Decoded(db, s)
  {
    Latest(c.CloseTime(db.steps[s].body.value.startedAt), SpanEnds(c, db, s))
  }

  ghost function StepClosed(c: Clock, b: Body, floor: Time): Body {
    match b.state
    case Done(_) => if b.endedAt.Some? then b else b.(endedAt := Some(floor))
    case Pending => b.(state := Done(Cancelled(SystemCrash)), endedAt := Some(c.CloseTime(floor)))
  }

  ghost function StepFinal(c: Clock, db: Db, s: StepId): (r: StepRow)
    requires s in db.steps
    ensures Decoded(db, s) ==> r.body.Some? && r.body.value.endedAt.Some?
  {
    if !Decoded(db, s) then db.steps[s]
    else db.steps[s].(body := Some(StepClosed(c, db.steps[s].body.value, StepFloor(c, db, s))))
  }

  ghost function StepEnds(c: Clock, db: Db, t: TurnId): set<Time> {
    set s | s in StepsUnder(db, t) && Decoded(db, s) :: StepFinal(c, db, s).body.value.endedAt.value
  }

  ghost function TurnFloor(c: Clock, db: Db, t: TurnId): Time
    requires t in db.turns
  {
    Latest(c.CloseTime(db.turns[t].Start()), StepEnds(c, db, t))
  }

  ghost function TurnFinal(c: Clock, db: Db, t: TurnId): Turn
    requires t in db.turns
  {
    db.turns[t].CancelAt(TurnFloor(c, db, t))
  }

  /** The state an uninterrupted pass over the turns `ts` is meant to leave behind. */
  ghost function Settle(c: Clock, ts: set<TurnId>, db: Db): Db {
    Db(map t | t in db.turns :: if t in ts then TurnFinal(c, db, t) else db.turns[t],
       map s | s in db.steps :: if db.steps[s].turn in ts then StepFinal(c, db, s) else db.steps[s],
       map p | p in db.spans ::
         if SpanInScope(ts, db, p) then SpanFinal(c, db, p) else db.spans[p],
       db.events)
  }

  // ----- which turns a boot sweep is about -----

  function LiveTurns(db: Db): set<TurnId> {
    set t | t in db.turns && !db.turns[t].status.Terminal()
  }

  function LiveIn(db: Db, session: SessionId): set<TurnId> {
    set t | t in db.turns && db.turns[t].session == session && !db.turns[t].status.Terminal()
  }

  /** The row's end column is null. */
  predicate Open(body: Option<Body>, ended: bool) { if body.Some? then body.value.endedAt.None? else !ended }

  /** A step row is listed as unfinished when it, or a span under it, has no end time. */
  predicate Unfinished(db: Db, s: StepId)
    requires s in db.steps
  {
    || Open(db.steps[s].body, db.steps[s].ended)
    || exists p :: p in db.spans && db.spans[p].step == s && Open(db.spans[p].body, db.spans[p].ended)
  }

  function UnfinishedSteps(db: Db): set<StepId> {
    set s | s in db.steps && Unfinished(db, s)
  }

  /** Terminal turns that still own an open row: work that outlived its turn. */
  ghost function DetachedTurns(db: Db): set<TurnId> {
    set s | s in UnfinishedSteps(db) && Decoded(db, s)
            && db.steps[s].turn in db.turns && db.turns[db.steps[s].turn].status.Terminal()
      :: db.steps[s].turn
  }

  ghost function Due(db: Db): set<TurnId> { LiveTurns(db) + DetachedTurns(db) }

  predicate EventsReadable(evs: seq<Option<Time>>) {
    forall i :: 0 <= i < |evs| ==> evs[i].Some?
  }

  predicate TurnDecodes(db: Db, t: TurnId) { t in db.turns ==> db.turns[t].decodes }

  /** A listing of live turns decodes all of them or fails. */
  ghost predicate AllDecode(db: Db, ts: set<TurnId>) { forall t :: t in ts ==> TurnDecodes(db, t) }

  ghost predicate SpanReadable(db: Db, p: SpanId)
    requires p in db.spans
  {
    && db.spans[p].body.Some?
    && (db.spans[p].body.value.state.Pending? ==> EventsReadable(EventsOf(db, p)))
  }

  /** Every span recovery must read under `t` decodes, and so do the events of the pending ones. */
  ghost predicate Readable(db: Db, t: TurnId) {
    TurnDecodes(db, t) && forall p :: SpanInScope({t}, db, p) ==> SpanReadable(db, p)
  }

  ghost predicate SpansReadable(db: Db, s: StepId) {
    forall p {:trigger SpanReadable(db, p)} :: p in db.spans && db.spans[p].step == s ==> SpanReadable(db, p)
  }

  // ----- how far a pass may have got -----

  ghost predicate SpansDone(c: Clock, a: Db, b: Db, s: StepId)
    requires a.spans.Keys == b.spans.Keys
  {
    forall p {:trigger SpanFinal(c, a, p)} :: p in a.spans && a.spans[p].step == s ==> b.spans[p] == SpanFinal(c, a, p)
  }

  ghost predicate SameKeys(a: Db, b: Db) {
    a.turns.Keys == b.turns.Keys && a.steps.Keys == b.steps.Keys && a.spans.Keys == b.spans.Keys
  }

  ghost predicate SubtreeDone(c: Clock, a: Db, b: Db, t: TurnId)
    requires SameKeys(a, b)
  {
    && (forall s {:trigger StepFinal(c, a, s)} :: s in a.steps && a.steps[s].turn == t ==> b.steps[s] == StepFinal(c, a, s))
    && (forall p {:trigger SpanFinal(c, a, p)} :: SpanInScope({t}, a, p) ==> b.spans[p] == SpanFinal(c, a, p))
  }

  ghost predicate TurnDone(c: Clock, a: Db, b: Db, t: TurnId)
  {
    SameKeys(a, b) && t in a.turns && SubtreeDone(c, a, b, t) && b.turns[t] == TurnFinal(c, a, t)
  }

  ghost predicate SpanStage(c: Clock, ts: set<TurnId>, a: Db, b: Db, p: SpanId)
    requires p in a.spans && p in b.spans
  {
    || b.spans[p] == a.spans[p]
    || (SpanInScope(ts, a, p) && SpanReadable(a, p) && b.spans[p] == SpanFinal(c, a, p))
  }

  ghost predicate StepStage(c: Clock, ts: set<TurnId>, a: Db, b: Db, s: StepId)
    requires SameKeys(a, b) && s in a.steps
  {
    || b.steps[s] == a.steps[s]
    || (Decoded(a, s) && a.steps[s].turn in ts && SpansReadable(a, s)
        && b.steps[s] == StepFinal(c, a, s) && SpansDone(c, a, b, s))
  }

  ghost predicate TurnStage(c: Clock, ts: set<TurnId>, a: Db, b: Db, t: TurnId)
    requires SameKeys(a, b) && t in a.turns
  {
    b.turns[t] == a.turns[t] || (t in ts && Readable(a, t) && TurnDone(c, a, b, t))
  }

  /**
   * `b` is reached from `a` by some of the writes of a pass over `ts`: every row is as it
   * was or closed for good, a step is closed only over closed spans and a turn is
   * cancelled only over a closed subtree. Nothing is closed over a span that cannot be read.
   */
  ghost predicate PartOf(c: Clock, ts: set<TurnId>, a: Db, b: Db) {
    && SameKeys(a, b)
    && a.events == b.events
    && (forall p {:trigger SpanStage(c, ts, a, b, p)} :: p in a.spans ==> SpanStage(c, ts, a, b, p))
    && (forall s {:trigger StepStage(c, ts, a, b, s)} :: s in a.steps ==> StepStage(c, ts, a, b, s))
    && (forall t {:trigger TurnStage(c, ts, a, b, t)} :: t in a.turns ==> TurnStage(c, ts, a, b, t))
  }

  // ----- progress counters -----

  ghost function PendingSteps(db: Db): set<StepId> {
    set s | s in db.steps && db.steps[s].body.Some? && db.steps[s].body.value.state.Pending?
  }

  ghost function PendingSpans(db: Db): set<SpanId> {
    set p | p in db.spans && db.spans[p].body.Some? && db.spans[p].body.value.state.Pending?
  }
}
