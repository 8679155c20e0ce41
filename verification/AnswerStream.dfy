/** One-shot answers: two event sources, one consumer loop each, and the single meaning both have. */
module AnswerStream {
  import opened Wrappers
  import opened Lines

  datatype Level = Info | Warn | Alarm

  datatype Block = Text(text: string) | Media

  function BlocksText(blocks: seq<Block>): string {
    if blocks == [] then ""
    else (if blocks[0].Text? then blocks[0].text else "") + BlocksText(blocks[1..])
  }

  // ----- the two event types -----

  datatype TransportEvent =
    | StreamDelta(delta: string)
    | Response(blocks: seq<Block>)
    | ApprovalRequested
    | TransportNotice(level: Level, text: string)
    | TransportToolStarted
    | TransportToolCompleted
    | TransportStatus
    | ApprovalResolved

  datatype TransportItem = Received(event: TransportEvent) | Broken(reason: string)

  datatype AgentEvent =
    | AnswerDelta(delta: string)
    | Message(content: seq<Block>)
    | AgentNotice(level: Level, text: string)
    | Reasoning
    | ToolStarted
    | ToolCompleted
    | Status
    | ToolProgress
    | TaskList
    | TurnState

  datatype SessionEvent = Agent(event: AgentEvent) | UserEcho | SessionApprovalRequested | SessionApprovalResolved

  /** What an event is to a one-shot caller. */
  datatype Signal =
    | Delta(text: string)
    | Final(text: string)
    | Notice(level: Level, text: string)
    | Quiet
    | Fault(reason: string)

  function TransportSignal(item: TransportItem): Signal {
    match item
    case Broken(reason) => Fault(reason)
    case Received(StreamDelta(t)) => Delta(t)
    case Received(Response(blocks)) => Final(BlocksText(blocks))
    case Received(TransportNotice(level, t)) => Notice(level, t)
    case _ => Quiet
  }

  function SessionSignal(event: SessionEvent): Signal {
    match event
    case Agent(AnswerDelta(t)) => Delta(t)
    case Agent(Message(content)) => Final(BlocksText(content))
    case Agent(AgentNotice(level, t)) => Notice(level, t)
    case _ => Quiet
  }

  function Signals<T>(of: T -> Signal, items: seq<T>): (r: seq<Signal>)
    ensures |r| == |items| && forall i :: 0 <= i < |items| ==> r[i] == of(items[i])
  {
    seq(|items|, i requires 0 <= i < |items| => of(items[i]))
  }

  // ----- their meaning -----

  predicate Ends(s: Signal) { s.Final? || s.Fault? }

  predicate NoEnd(sig: seq<Signal>) { forall i :: 0 <= i < |sig| ==> !Ends(sig[i]) }

  /** Where the first final or failing signal stands; the length when there is none. */
  function Stop(sig: seq<Signal>): (n: nat)
    ensures n <= |sig| && (n < |sig| ==> Ends(sig[n])) && forall i :: 0 <= i < n ==> !Ends(sig[i])
  {
    if sig == [] || Ends(sig[0]) then 0 else 1 + Stop(sig[1..])
  }

  function Joined(sig: seq<Signal>): string {
    if sig == [] then ""
    else
      var last := sig[|sig| - 1];
      Joined(sig[..|sig| - 1]) + (if last.Delta? then last.text else "")
  }

  predicate Streamed(sig: seq<Signal>) { exists i :: 0 <= i < |sig| && sig[i].Delta? }

  function Notices(sig: seq<Signal>): seq<(Level, string)> {
    if sig == [] then []
    else
      var last := sig[|sig| - 1];
      Notices(sig[..|sig| - 1]) + (if last.Notice? then [(last.level, last.text)] else [])
  }

  datatype Outcome = Answered(answer: string) | EndedEarly | StreamFailed(reason: string)

  /** The signals before the turn ends, and the one that ends it. */
  function Before(sig: seq<Signal>): seq<Signal> { sig[..Stop(sig)] }

  function Ending(sig: seq<Signal>): Option<Signal> { if Stop(sig) == |sig| then None else Some(sig[Stop(sig)]) }

  /** The final text if it has any, else the joined deltas; a source that ends early needs some text. */
  function OutcomeOf(sig: seq<Signal>): Outcome {
    var streamed := Joined(Before(sig));
    match Ending(sig)
    case None => if streamed == "" then EndedEarly else Answered(streamed)
    case Some(end) =>
      if end.Final? then Answered(if end.text != "" then end.text else streamed)
      else if end.Fault? then StreamFailed(end.reason)
      else EndedEarly
  }

  function LineEnd(s: string): string { if s != "" && s[|s| - 1] == '\n' then "" else "\n" }

  function Shown(streamed: string, any: bool, ending: Option<Signal>): string {
    match ending
    case None => streamed + (if streamed == "" then "" else LineEnd(streamed))
    case Some(end) =>
      if !end.Final? then streamed
      else if any then streamed + LineEnd(streamed)
      else if end.text != "" then end.text + "\n"
      else ""
  }

  /** Standard output in text mode. */
  function Printed(sig: seq<Signal>): string { Shown(Joined(Before(sig)), Streamed(Before(sig)), Ending(sig)) }

  function Warned(sig: seq<Signal>): seq<(Level, string)> { Notices(Before(sig)) }

  function AfterStop<T>(of: T -> Signal, items: seq<T>): seq<T> {
    var n := Stop(Signals(of, items));
    if n == |items| then [] else items[n + 1..]
  }

  // ----- laws of the meaning -----

  /** The signals `keep` lets through. */
  function Only(keep: Signal -> bool, sig: seq<Signal>): seq<Signal> {
    if sig == [] then []
    else
      var last := sig[|sig| - 1];
      Only(keep, sig[..|sig| - 1]) + (if keep(last) then [last] else [])
  }

  /** What decides the answer: deltas, finals and failures. */
  const ANSWERING: Signal -> bool := (s: Signal) => s.Delta? || s.Final? || s.Fault?

  /** What shows anywhere: these and notices. */
  const VISIBLE: Signal -> bool := (s: Signal) => !s.Quiet?

  ghost predicate KeepsAnswer(keep: Signal -> bool) { forall s: Signal :: s.Delta? || Ends(s) ==> keep(s) }

  lemma {:induction false} OnlyConcat(keep: Signal -> bool, x: seq<Signal>, y: seq<Signal>)
    ensures Only(keep, x + y) == Only(keep, x) + Only(keep, y)
    decreases |y|
  {
    if y == [] {
      assert x + y == x;
    } else {
      var n := |y| - 1;
      OnlyConcat(keep, x, y[..n]);
      assert (x + y)[..|x + y| - 1] == x + y[..n] && (x + y)[|x + y| - 1] == y[n];
      Assoc(Only(keep, x), Only(keep, y[..n]), if keep(y[n]) then [y[n]] else []);
    }
  }

  /** One more signal at the end. */
  lemma OneMoreSignal(sig: seq<Signal>, s: Signal)
    ensures Joined(sig + [s]) == Joined(sig) + (if s.Delta? then s.text else "")
    ensures Notices(sig + [s]) == Notices(sig) + (if s.Notice? then [(s.level, s.text)] else [])
    ensures Streamed(sig + [s]) <==> Streamed(sig) || s.Delta?
  {
    var now := sig + [s];
    assert now[..|now| - 1] == sig && now[|now| - 1] == s;
    if Streamed(sig) {
      var i :| 0 <= i < |sig| && sig[i].Delta?;
      assert now[i].Delta?;
    }
    if Streamed(now) {
      var i :| 0 <= i < |now| && now[i].Delta?;
      assert i < |sig| ==> sig[i].Delta?;
    }
  }

  /** Dropping signals that are no deltas keeps the streamed text, dropping no notices keeps those. */
  lemma {:induction false} DroppedIsSilent(keep: Signal -> bool, sig: seq<Signal>)
    requires KeepsAnswer(keep)
    ensures Joined(Only(keep, sig)) == Joined(sig) && (Streamed(Only(keep, sig)) <==> Streamed(sig))
    ensures NoEnd(sig) ==> NoEnd(Only(keep, sig))
    ensures (forall s: Signal :: s.Notice? ==> keep(s)) ==> Notices(Only(keep, sig)) == Notices(sig)
  {
    if sig != [] {
      var n := |sig| - 1;
      DroppedIsSilent(keep, sig[..n]);
      assert sig == sig[..n] + [sig[n]];
      OneMoreSignal(sig[..n], sig[n]);
      if keep(sig[n]) {
        OneMoreSignal(Only(keep, sig[..n]), sig[n]);
      } else {
        assert Only(keep, sig) == Only(keep, sig[..n]);
      }
    }
  }

  lemma StopIs(sig: seq<Signal>, n: nat)
    requires n <= |sig| && (n < |sig| ==> Ends(sig[n])) && NoEnd(sig[..n])
    ensures Stop(sig) == n
  {
    forall k | 0 <= k < n ensures !Ends(sig[k]) { assert sig[..n][k] == sig[k]; }
  }

  lemma CutIs(before: seq<Signal>, end: Signal, tail: seq<Signal>)
    requires NoEnd(before) && Ends(end)
    ensures var sig := before + [end] + tail;
            Before(sig) == before && Ending(sig) == Some(end) && Stop(sig) == |before|
  {
    StopIs(before + [end] + tail, |before|);
  }

  /** Dropping signals that are no deltas and end nothing keeps the cut. */
  lemma OnlyKeepsCut(keep: Signal -> bool, sig: seq<Signal>)
    requires KeepsAnswer(keep)
    ensures Before(Only(keep, sig)) == Only(keep, Before(sig)) && Ending(Only(keep, sig)) == Ending(sig)
  {
    var n, before := Stop(sig), Before(sig);
    DroppedIsSilent(keep, before);
    if n == |sig| {
      assert before == sig;
      var seen := Only(keep, sig);
      assert seen[..|seen|] == seen;
      StopIs(seen, |seen|);
    } else {
      var end, tail := [sig[n]], sig[n + 1..];
      assert sig == before + end + tail;
      OnlyConcat(keep, before + end, tail);
      OnlyConcat(keep, before, end);
      assert end[..0] == [] && Only(keep, end) == end;
      CutIs(Only(keep, before), sig[n], Only(keep, tail));
    }
  }

  /** Dropping such signals changes neither the outcome nor standard output; keeping notices keeps the warnings. */
  lemma OnlyMeansTheSame(keep: Signal -> bool, sig: seq<Signal>)
    requires KeepsAnswer(keep)
    ensures OutcomeOf(Only(keep, sig)) == OutcomeOf(sig) && Printed(Only(keep, sig)) == Printed(sig)
    ensures (forall s: Signal :: s.Notice? ==> keep(s)) ==> Warned(Only(keep, sig)) == Warned(sig)
  {
    OnlyKeepsCut(keep, sig);
    DroppedIsSilent(keep, Before(sig));
  }

  /** The outcome and standard output are decided by the deltas before the end and what ended the turn. */
  lemma SameAnswer(x: seq<Signal>, y: seq<Signal>)
    requires Only(ANSWERING, Before(x)) == Only(ANSWERING, Before(y)) && Ending(x) == Ending(y)
    ensures OutcomeOf(x) == OutcomeOf(y) && Printed(x) == Printed(y)
  {
    DroppedIsSilent(ANSWERING, Before(x));
    DroppedIsSilent(ANSWERING, Before(y));
  }

  /**
   * Two sources with the same deltas, finals and failures give the same answer or failure and print
   * the same text, whatever notices and other events stand between them.
   */
  lemma SourcesAgree(items: seq<TransportItem>, events: seq<SessionEvent>)
    requires Only(ANSWERING, Signals(TransportSignal, items)) == Only(ANSWERING, Signals(SessionSignal, events))
    ensures OutcomeOf(Signals(TransportSignal, items)) == OutcomeOf(Signals(SessionSignal, events))
    ensures Printed(Signals(TransportSignal, items)) == Printed(Signals(SessionSignal, events))
  {
    OnlyMeansTheSame(ANSWERING, Signals(TransportSignal, items));
    OnlyMeansTheSame(ANSWERING, Signals(SessionSignal, events));
  }

  /** When their notices are in step as well, so is what they warn of. */
  lemma SourcesWarnAlike(items: seq<TransportItem>, events: seq<SessionEvent>)
    requires Only(VISIBLE, Signals(TransportSignal, items)) == Only(VISIBLE, Signals(SessionSignal, events))
    ensures Warned(Signals(TransportSignal, items)) == Warned(Signals(SessionSignal, events))
  {
    OnlyMeansTheSame(VISIBLE, Signals(TransportSignal, items));
    OnlyMeansTheSame(VISIBLE, Signals(SessionSignal, events));
  }

  /** Whatever follows the signal that ends the turn is irrelevant. */
  lemma TailIsIrrelevant(before: seq<Signal>, end: Signal, x: seq<Signal>, y: seq<Signal>)
    requires NoEnd(before) && Ends(end)
    ensures OutcomeOf(before + [end] + x) == OutcomeOf(before + [end] + y)
    ensures Printed(before + [end] + x) == Printed(before + [end] + y)
    ensures Warned(before + [end] + x) == Warned(before + [end] + y)
  {
    CutIs(before, end, x);
    CutIs(before, end, y);
  }

  /** Once a delta has streamed the final text is never printed, though it is still the answer. */
  lemma FinalIsNotRepeated(before: seq<Signal>, t: string, tail: seq<Signal>)
    requires Streamed(before) && NoEnd(before)
    ensures Printed(before + [Final(t)] + tail) == Joined(before) + LineEnd(Joined(before))
    ensures OutcomeOf(before + [Final(t)] + tail) == Answered(if t != "" then t else Joined(before))
  {
    CutIs(before, Final(t), tail);
  }

  lemma LineEndCases(d: string, t: string)
    requires t != ""
    ensures d + LineEnd(d) == t || d + LineEnd(d) == t + "\n" <==> t == d || t + "\n" == d || t == d + LineEnd(d)
  {
    if LineEnd(d) == "" {
      assert d + "" == d;
      assert d[..|d| - 1] + "\n" == d;
      assert (t + "\n")[..|t|] == t;
    } else {
      assert (d + "\n")[..|d|] == d && (t + "\n")[..|t|] == t;
      assert (t + "\n")[|t|] == '\n';
    }
  }

  lemma {:induction false} NothingStreamed(sig: seq<Signal>)
    requires !Streamed(sig)
    ensures Joined(sig) == ""
  {
    if sig != [] {
      var n := |sig| - 1;
      assert sig == sig[..n] + [sig[n]];
      OneMoreSignal(sig[..n], sig[n]);
      NothingStreamed(sig[..n]);
    }
  }

  /**
   * The shown text is the answer, up to one line end, exactly when nothing was streamed
   * or the final text adds nothing to what was.
   */
  lemma {:induction false} ShownIsAnswered(before: seq<Signal>, t: string, tail: seq<Signal>)
    requires NoEnd(before)
    ensures var sig, d := before + [Final(t)] + tail, Joined(before);
            var a := if t != "" then t else d;
            && OutcomeOf(sig) == Answered(a)
            && (Printed(sig) == a || Printed(sig) == a + "\n"
                <==> !Streamed(before) || t == "" || t == d || t + "\n" == d || t == d + LineEnd(d))
  {
    CutIs(before, Final(t), tail);
    if !Streamed(before) { NothingStreamed(before); }
    if t != "" { LineEndCases(Joined(before), t); } else { assert Joined(before) + "" == Joined(before); }
  }

  // ----- the consumers -----

  class Console {
    var out: string
    var err: seq<(Level, string)>

    constructor ()
      ensures out == "" && err == []
    {
      out, err := "", [];
    }

    method Print(text: string)
      modifies this`out
      ensures out == old(out) + text
    {
      out := out + text;
    }

    method Warn(level: Level, text: string)
      modifies this`err
      ensures err == old(err) + [(level, text)]
    {
      err := err + [(level, text)];
    }
  }

  class EventStream<T> {
    var rest: seq<T>

    constructor (items: seq<T>)
      ensures rest == items
    {
      rest := items;
    }

    method Next() returns (item: Option<T>)
      modifies this
      ensures old(rest) == [] ==> item == None && rest == []
      ensures old(rest) != [] ==> item == Some(old(rest)[0]) && rest == old(rest)[1..]
    {
      if rest == [] { return None; }
      item, rest := Some(rest[0]), rest[1..];
    }
  }

  /** What a writer holds, and its console shows, after the non-ending signals `sig`. */
  datatype Progress = Progress(json: bool, answer: string, printed: bool, out: string, err: seq<(Level, string)>)

  ghost predicate Wrote(sig: seq<Signal>, out0: string, err0: seq<(Level, string)>, p: Progress) {
    && NoEnd(sig)
    && p.answer == Joined(sig)
    && p.printed == (!p.json && Streamed(sig))
    && p.out == out0 + (if p.json then "" else Joined(sig))
    && p.err == err0 + Notices(sig)
  }

  /** What taking one non-ending signal does. */
  function Advance(p: Progress, s: Signal): Progress {
    match s
    case Delta(t) => Progress(p.json, p.answer + t, p.printed || !p.json, p.out + (if p.json then "" else t), p.err)
    case Notice(level, t) => p.(err := p.err + [(level, t)])
    case _ => p
  }

  lemma WroteOne(sig: seq<Signal>, i: nat, out0: string, err0: seq<(Level, string)>, p: Progress)
    requires i < |sig| && !Ends(sig[i]) && Wrote(sig[..i], out0, err0, p)
    ensures Wrote(sig[..i + 1], out0, err0, Advance(p, sig[i]))
  {
    assert sig[..i + 1] == sig[..i] + [sig[i]];
    OneMoreSignal(sig[..i], sig[i]);
  }

  /** What the writer's last act adds to the console when the turn ends. */
  function Closing(p: Progress, ending: Option<Signal>): string {
    if p.json then ""
    else match ending
      case None => if p.answer != "" && p.printed then LineEnd(p.answer) else ""
      case Some(end) =>
        if !end.Final? then ""
        else if p.printed then LineEnd(p.answer)
        else if end.text != "" then end.text + "\n"
        else ""
  }

  lemma ClosingCompletes(before: seq<Signal>, ending: Option<Signal>, p: Progress)
    requires !p.json && p.answer == Joined(before) && p.printed == Streamed(before)
    ensures Shown(Joined(before), Streamed(before), ending) == Joined(before) + Closing(p, ending)
  {
    if !Streamed(before) { NothingStreamed(before); }
  }

  lemma WroteAll(sig: seq<Signal>, i: nat, out0: string, err0: seq<(Level, string)>, p: Progress)
    requires i <= |sig| && (i < |sig| ==> Ends(sig[i])) && Wrote(sig[..i], out0, err0, p)
    ensures Stop(sig) == i && Before(sig) == sig[..i]
    ensures p.out + Closing(p, Ending(sig)) == out0 + (if p.json then "" else Printed(sig))
    ensures p.err == err0 + Warned(sig)
  {
    StopIs(sig, i);
    if !p.json {
      ClosingCompletes(sig[..i], Ending(sig), p);
      Assoc(out0, Joined(sig[..i]), Closing(p, Ending(sig)));
    }
  }

  class AnswerWriter {
    ghost function Now(): Progress reads this, console { Progress(json, answer, printed, console.out, console.err) }

    var answer: string
    var printed: bool
    const json: bool
    const console: Console

    constructor (json: bool, console: Console)
      ensures this.json == json && this.console == console && answer == "" && !printed
    {
      this.json, this.console := json, console;
      answer, printed := "", false;
    }

    method AddDelta(text: string)
      modifies this, console`out
      ensures answer == old(answer) + text && printed == (old(printed) || !json)
      ensures console.out == old(console.out) + (if json then "" else text)
    {
      answer := answer + text;
      if !json {
        printed := true;
        console.Print(text);
      }
    }

    method Finalize(finalText: string)
      modifies this, console`out
      ensures answer == (if finalText != "" then finalText else old(answer)) && printed == old(printed)
      ensures console.out == old(console.out)
        + (if json then ""
           else if old(printed) then LineEnd(old(answer))
           else if finalText != "" then finalText + "\n"
           else "")
    {
      if !json {
        if printed {
          if answer == "" || answer[|answer| - 1] != '\n' { console.Print("\n"); }
        } else if finalText != "" {
          console.Print(finalText + "\n");
        }
      }
      if finalText != "" { answer := finalText; }
    }

    method FinishIncomplete() returns (r: Outcome)
      modifies console`out
      ensures r == if answer == "" then EndedEarly else Answered(answer)
      ensures console.out == old(console.out) + (if answer != "" && !json && printed then LineEnd(answer) else "")
    {
      if answer == "" { return EndedEarly; }
      if !json && printed && answer[|answer| - 1] != '\n' { console.Print("\n"); }
      r := Answered(answer);
    }
  }

  /** Taking signal `s` moved the writer from `p` to `q`; an ending signal settles the outcome. */
  ghost predicate Took(s: Signal, p: Progress, q: Progress, done: Option<Outcome>) {
    if !Ends(s) then done == None && q == Advance(p, s)
    else
      && done == Some(if s.Fault? then StreamFailed(s.reason) else Answered(if s.text != "" then s.text else p.answer))
      && q.json == p.json && q.out == p.out + Closing(p, Some(s)) && q.err == p.err
  }

  /** `item` is the i-th event, just read; the later ones are still unread. */
  ghost predicate Reading<T>(items: seq<T>, i: nat, item: Option<T>, rest: seq<T>) {
    && i <= |items|
    && (item.Some? <==> i < |items|)
    && (item.Some? ==> item.value == items[i] && rest == items[i + 1..])
    && (item.None? ==> rest == [])
  }

  lemma AfterStopIs<T>(of: T -> Signal, items: seq<T>, i: nat)
    requires Stop(Signals(of, items)) == i
    ensures AfterStop(of, items) == if i == |items| then [] else items[i + 1..]
  {
  }

  /** What a consumer leaves behind: outcome, both output streams and the unread events. */
  ghost predicate Meant<T>(of: T -> Signal, items: seq<T>, json: bool, out0: string, err0: seq<(Level, string)>,
                           r: Outcome, out: string, err: seq<(Level, string)>, rest: seq<T>) {
    var sig := Signals(of, items);
    && r == OutcomeOf(sig)
    && out == out0 + (if json then "" else Printed(sig))
    && err == err0 + Warned(sig)
    && rest == AfterStop(of, items)
  }

  /** Where a consumer's loop stands: the first `i` events are taken, none of them ended the turn. */
  ghost predicate At<T>(of: T -> Signal, items: seq<T>, i: nat, out0: string, err0: seq<(Level, string)>, p: Progress) {
    i <= |items| && Wrote(Signals(of, items)[..i], out0, err0, p)
  }

  lemma AtStart<T>(of: T -> Signal, items: seq<T>, p: Progress)
    requires p.answer == "" && !p.printed
    ensures At(of, items, 0, p.out, p.err, p)
  {
    assert Signals(of, items)[..0] == [];
  }

  lemma AtNext<T>(of: T -> Signal, items: seq<T>, i: nat, out0: string, err0: seq<(Level, string)>, p: Progress, q: Progress)
    requires At(of, items, i, out0, err0, p) && i < |items|
    requires !Ends(of(items[i])) && q == Advance(p, of(items[i]))
    ensures At(of, items, i + 1, out0, err0, q)
  {
    WroteOne(Signals(of, items), i, out0, err0, p);
  }

  /** The turn is over at an ending event. */
  lemma AtEnding<T>(of: T -> Signal, items: seq<T>, i: nat, out0: string, err0: seq<(Level, string)>,
                    p: Progress, q: Progress, done: Option<Outcome>, rest: seq<T>)
    requires At(of, items, i, out0, err0, p) && i < |items| && rest == items[i + 1..]
    requires Ends(of(items[i])) && Took(of(items[i]), p, q, done)
    ensures done.Some? && Meant(of, items, p.json, out0, err0, done.value, q.out, q.err, rest)
  {
    WroteAll(Signals(of, items), i, out0, err0, p);
    AfterStopIs(of, items, i);
  }

  /** The events ran out. */
  lemma AtLast<T>(of: T -> Signal, items: seq<T>, out0: string, err0: seq<(Level, string)>, p: Progress, r: Outcome, out: string)
    requires At(of, items, |items|, out0, err0, p)
    requires r == (if p.answer == "" then EndedEarly else Answered(p.answer)) && out == p.out + Closing(p, None)
    ensures Meant(of, items, p.json, out0, err0, r, out, p.err, [])
  {
    WroteAll(Signals(of, items), |items|, out0, err0, p);
    AfterStopIs(of, items, |items|);
  }

  // ----- approvals -----

  datatype Decision = Approve | Deny

  datatype Queue = Queue(pending: seq<string>, answered: seq<(string, Decision)>)

  function Resolve(q: Queue, d: Decision): Queue {
    if q.pending == [] then q else Queue(q.pending[1..], q.answered + [(q.pending[0], d)])
  }

  function ResolveTimes(q: Queue, d: Decision, k: nat): Queue {
    if k == 0 then q else Resolve(ResolveTimes(q, d, k - 1), d)
  }

  function Asks(items: seq<TransportItem>): nat {
    if items == [] then 0
    else Asks(items[..|items| - 1]) + (if items[|items| - 1] == Received(ApprovalRequested) then 1 else 0)
  }

  /** That many heads leave the queue, each answered alike and in order; the others stay. */
  lemma {:induction false} ResolvesHeads(q: Queue, d: Decision, k: nat)
    ensures var m := if k <= |q.pending| then k else |q.pending|;
            var r := ResolveTimes(q, d, k);
            && r.pending == q.pending[m..]
            && |r.answered| == |q.answered| + m && q.answered <= r.answered
            && forall i :: 0 <= i < m ==> r.answered[|q.answered| + i] == (q.pending[i], d)
  {
    if k > 0 { ResolvesHeads(q, d, k - 1); }
  }

  /** The events before the one that ends the turn. */
  function ItemsBefore<T>(of: T -> Signal, items: seq<T>): seq<T> { items[..Stop(Signals(of, items))] }

  lemma BeforeIs<T>(of: T -> Signal, items: seq<T>, i: nat, out0: string, err0: seq<(Level, string)>, p: Progress)
    requires At(of, items, i, out0, err0, p) && (i < |items| ==> Ends(of(items[i])))
    ensures ItemsBefore(of, items) == items[..i] && |ItemsBefore(of, items)| == i
  {
    WroteAll(Signals(of, items), i, out0, err0, p);
  }

  /** The queue after the first `i` events. */
  ghost predicate AnsweredUpTo(q0: Queue, d: Decision, items: seq<TransportItem>, i: nat, q: Queue) {
    i <= |items| && q == ResolveTimes(q0, d, Asks(items[..i]))
  }

  lemma AnsweredStart(q0: Queue, d: Decision, items: seq<TransportItem>)
    ensures AnsweredUpTo(q0, d, items, 0, q0)
  {
  }

  function AfterItem(q: Queue, d: Decision, item: TransportItem): Queue {
    if item == Received(ApprovalRequested) then Resolve(q, d) else q
  }

  lemma AnsweredNext(q0: Queue, d: Decision, items: seq<TransportItem>, i: nat, q: Queue)
    requires i < |items| && AnsweredUpTo(q0, d, items, i, q)
    ensures AnsweredUpTo(q0, d, items, i + 1, AfterItem(q, d, items[i]))
  {
    var now := items[..i + 1];
    assert now[..|now| - 1] == items[..i];
  }

  class ApprovalQueue {
    var pending: seq<string>
    var answered: seq<(string, Decision)>

    function View(): Queue reads this { Queue(pending, answered) }

    constructor (pending: seq<string>)
      ensures View() == Queue(pending, [])
    {
      this.pending, answered := pending, [];
    }

    method ResolveHead(d: Decision)
      modifies this
      ensures View() == Resolve(old(View()), d)
    {
      if pending != [] {
        answered := answered + [(pending[0], d)];
        pending := pending[1..];
      }
    }
  }

  // ----- the two loops -----

  /** One turn of the gateway loop: `done` says the turn is over and how. */
  method TakeTransport(writer: AnswerWriter, approvals: ApprovalQueue, decision: Decision, item: TransportItem)
      returns (done: Option<Outcome>)
    modifies writer, writer.console, approvals
    ensures Took(TransportSignal(item), old(writer.Now()), writer.Now(), done)
    ensures approvals.View() == AfterItem(old(approvals.View()), decision, item)
  {
    done := None;
    match item {
      case Broken(reason) => done := Some(StreamFailed(reason));
      case Received(StreamDelta(text)) => writer.AddDelta(text);
      case Received(Response(blocks)) =>
        writer.Finalize(BlocksText(blocks));
        done := Some(Answered(writer.answer));
      case Received(ApprovalRequested) => approvals.ResolveHead(decision);
      case Received(TransportNotice(level, text)) => writer.console.Warn(level, text);
      case _ =>
    }
  }

  /** The same, in the loop's terms. */
  method StepTransport(writer: AnswerWriter, approvals: ApprovalQueue, decision: Decision, item: TransportItem,
                       ghost items: seq<TransportItem>, ghost i: nat, ghost out0: string, ghost err0: seq<(Level, string)>)
      returns (done: Option<Outcome>)
    requires i < |items| && item == items[i] && At(TransportSignal, items, i, out0, err0, writer.Now())
    modifies writer, writer.console, approvals
    ensures done.None? ==> At(TransportSignal, items, i + 1, out0, err0, writer.Now())
    ensures done.Some? ==> Meant(TransportSignal, items, writer.json, out0, err0,
                                 done.value, writer.console.out, writer.console.err, items[i + 1..])
    ensures done.Some? ==> item != Received(ApprovalRequested) && |ItemsBefore(TransportSignal, items)| == i
    ensures approvals.View() == AfterItem(old(approvals.View()), decision, item)
  {
    ghost var p := writer.Now();
    done := TakeTransport(writer, approvals, decision, item);
    if done.Some? {
      AtEnding(TransportSignal, items, i, out0, err0, p, writer.Now(), done, items[i + 1..]);
      BeforeIs(TransportSignal, items, i, out0, err0, p);
    } else {
      AtNext(TransportSignal, items, i, out0, err0, p, writer.Now());
    }
  }

  /** The source ended: what is left to say. */
  method FinishTurn<T>(writer: AnswerWriter, ghost of: T -> Signal, ghost items: seq<T>,
                       ghost out0: string, ghost err0: seq<(Level, string)>)
      returns (r: Outcome)
    requires At(of, items, |items|, out0, err0, writer.Now())
    modifies writer.console`out
    ensures Meant(of, items, writer.json, out0, err0, r, writer.console.out, writer.console.err, [])
    ensures |ItemsBefore(of, items)| == |items| && !r.StreamFailed?
  {
    ghost var last := writer.Now();
    BeforeIs(of, items, |items|, out0, err0, last);
    r := writer.FinishIncomplete();
    AtLast(of, items, out0, err0, last, r, writer.console.out);
  }

  method TransportLoop(writer: AnswerWriter, approvals: ApprovalQueue, decision: Decision,
                       events: EventStream<TransportItem>, ghost items: seq<TransportItem>)
      returns (r: Outcome)
    requires events.rest == items && writer.answer == "" && !writer.printed
    modifies events, writer, writer.console, approvals
    ensures Meant(TransportSignal, items, writer.json, old(writer.console.out), old(writer.console.err),
                  r, writer.console.out, writer.console.err, events.rest)
    ensures AnsweredUpTo(old(approvals.View()), decision, items, |ItemsBefore(TransportSignal, items)|, approvals.View())
  {
    ghost var out0, err0, asked := writer.console.out, writer.console.err, approvals.View();
    ghost var i := 0;
    AtStart(TransportSignal, items, writer.Now());
    AnsweredStart(asked, decision, items);
    var item := events.Next();
    while item.Some?
      invariant Reading(items, i, item, events.rest) && At(TransportSignal, items, i, out0, err0, writer.Now())
      invariant AnsweredUpTo(asked, decision, items, i, approvals.View())
      decreases |items| - i
    {
      AnsweredNext(asked, decision, items, i, approvals.View());
      var done := StepTransport(writer, approvals, decision, item.value, items, i, out0, err0);
      if done.Some? { return done.value; }
      i := i + 1;
      item := events.Next();
    }
    r := FinishTurn(writer, TransportSignal, items, out0, err0);
  }

  method ConsumeTransportTurn(approvals: ApprovalQueue, decision: Decision,
                              events: EventStream<TransportItem>, console: Console, json: bool)
      returns (r: Outcome)
    modifies events, console, approvals
    ensures Meant(TransportSignal, old(events.rest), json, old(console.out), old(console.err),
                  r, console.out, console.err, events.rest)
    ensures approvals.View() ==
            ResolveTimes(old(approvals.View()), decision, Asks(ItemsBefore(TransportSignal, old(events.rest))))
  {
    var writer := new AnswerWriter(json, console);
    r := TransportLoop(writer, approvals, decision, events, events.rest);
  }

  /** One turn of the in-process loop. */
  method TakeSession(writer: AnswerWriter, item: SessionEvent) returns (done: Option<Outcome>)
    modifies writer, writer.console
    ensures Took(SessionSignal(item), old(writer.Now()), writer.Now(), done)
  {
    done := None;
    match item {
      case Agent(AnswerDelta(text)) => writer.AddDelta(text);
      case Agent(Message(content)) =>
        writer.Finalize(BlocksText(content));
        done := Some(Answered(writer.answer));
      case Agent(AgentNotice(level, text)) => writer.console.Warn(level, text);
      case _ =>
    }
  }

  method StepSession(writer: AnswerWriter, item: SessionEvent, ghost items: seq<SessionEvent>, ghost i: nat,
                     ghost out0: string, ghost err0: seq<(Level, string)>)
      returns (done: Option<Outcome>)
    requires i < |items| && item == items[i] && At(SessionSignal, items, i, out0, err0, writer.Now())
    modifies writer, writer.console
    ensures done.None? ==> At(SessionSignal, items, i + 1, out0, err0, writer.Now())
    ensures done.Some? ==> Meant(SessionSignal, items, writer.json, out0, err0,
                                 done.value, writer.console.out, writer.console.err, items[i + 1..])
    ensures done.Some? ==> !done.value.StreamFailed?
  {
    ghost var p := writer.Now();
    done := TakeSession(writer, item);
    if done.Some? {
      AtEnding(SessionSignal, items, i, out0, err0, p, writer.Now(), done, items[i + 1..]);
    } else {
      AtNext(SessionSignal, items, i, out0, err0, p, writer.Now());
    }
  }

  method ConsumeSessionTurn(events: EventStream<SessionEvent>, console: Console, json: bool) returns (r: Outcome)
    modifies events, console
    ensures Meant(SessionSignal, old(events.rest), json, old(console.out), old(console.err),
                  r, console.out, console.err, events.rest)
    ensures !r.StreamFailed?
  {
    var writer := new AnswerWriter(json, console);
    ghost var items, out0, err0 := events.rest, console.out, console.err;
    ghost var i := 0;
    AtStart(SessionSignal, items, writer.Now());
    var item := events.Next();
    while item.Some?
      invariant writer.console == console && writer.json == json
      invariant Reading(items, i, item, events.rest) && At(SessionSignal, items, i, out0, err0, writer.Now())
      decreases |items| - i
    {
      var done := StepSession(writer, item.value, items, i, out0, err0);
      if done.Some? { return done.value; }
      i := i + 1;
      item := events.Next();
    }
    r := FinishTurn(writer, SessionSignal, items, out0, err0);
  }
}
