/** What a turn's events come to, said over the events of either source. */
module AnswerEvents {
  import opened Wrappers
  import opened Lines
  import opened AnswerStream

  // ----- the text of a message -----

  lemma BlocksTextOne(b: Block)
    ensures BlocksText([b]) == match b case Text(t) => t case Media => ""
  {
    assert [b][1..] == [];
  }

  /** A message's text is the texts of its text blocks, joined in order. */
  lemma {:induction false} BlocksTextJoins(x: seq<Block>, y: seq<Block>)
    ensures BlocksText(x + y) == BlocksText(x) + BlocksText(y)
  {
    if x == [] {
      assert x + y == y;
    } else {
      assert (x + y)[1..] == x[1..] + y;
      BlocksTextJoins(x[1..], y);
      Assoc(if x[0].Text? then x[0].text else "", BlocksText(x[1..]), BlocksText(y));
    }
  }

  // ----- the gateway's events -----

  /** The streamed text of the gateway's events. */
  function TransportText(items: seq<TransportItem>): string {
    if items == [] then ""
    else
      TransportText(items[..|items| - 1])
      + match items[|items| - 1] case Received(StreamDelta(t)) => t case _ => ""
  }

  function TransportNotices(items: seq<TransportItem>): seq<(Level, string)> {
    if items == [] then []
    else
      TransportNotices(items[..|items| - 1])
      + match items[|items| - 1] case Received(TransportNotice(level, t)) => [(level, t)] case _ => []
  }

  predicate SomeTransportDelta(items: seq<TransportItem>) {
    exists i :: 0 <= i < |items| && items[i].Received? && items[i].event.StreamDelta?
  }

  /** No item ends the turn. */
  predicate TransportGoesOn(items: seq<TransportItem>) {
    forall i :: 0 <= i < |items| ==> items[i].Received? && !items[i].event.Response?
  }

  lemma SignalsOf<T>(of: T -> Signal, x: seq<T>, end: T, y: seq<T>)
    ensures Signals(of, x + [end] + y) == Signals(of, x) + [of(end)] + Signals(of, y)
  {
  }

  lemma SignalsShorter<T>(of: T -> Signal, x: seq<T>)
    requires x != []
    ensures Signals(of, x)[..|x| - 1] == Signals(of, x[..|x| - 1])
  {
  }

  lemma {:induction false} TransportSays(items: seq<TransportItem>)
    requires TransportGoesOn(items)
    ensures NoEnd(Signals(TransportSignal, items))
    ensures Joined(Signals(TransportSignal, items)) == TransportText(items)
    ensures Notices(Signals(TransportSignal, items)) == TransportNotices(items)
    ensures Streamed(Signals(TransportSignal, items)) <==> SomeTransportDelta(items)
  {
    if items != [] {
      SignalsShorter(TransportSignal, items);
      TransportSays(items[..|items| - 1]);
      var sig := Signals(TransportSignal, items);
      assert forall i :: 0 <= i < |items| ==> sig[i] == TransportSignal(items[i]);
      assert forall i :: 0 <= i < |items| ==> (sig[i].Delta? <==> items[i].Received? && items[i].event.StreamDelta?);
    }
  }

  /** What standard output shows of a finished turn. */
  function PrintedAnswer(streamed: string, any: bool, final: string): string {
    if any then streamed + (if streamed != "" && streamed[|streamed| - 1] == '\n' then "" else "\n")
    else if final == "" then "" else final + "\n"
  }

  lemma FinalAnswers(before: seq<Signal>, final: string, after: seq<Signal>)
    requires NoEnd(before)
    ensures var sig := before + [Final(final)] + after;
            && OutcomeOf(sig) == Answered(if final != "" then final else Joined(before))
            && Printed(sig) == PrintedAnswer(Joined(before), Streamed(before), final)
            && Warned(sig) == Notices(before)
  {
    CutIs(before, Final(final), after);
  }

  /** A gateway turn that ends with a response answers its text, or the streamed text when it has none. */
  lemma TransportAnswers(before: seq<TransportItem>, blocks: seq<Block>, after: seq<TransportItem>)
    requires TransportGoesOn(before)
    ensures var sig, final := Signals(TransportSignal, before + [Received(Response(blocks))] + after), BlocksText(blocks);
            && OutcomeOf(sig) == Answered(if final != "" then final else TransportText(before))
            && Printed(sig) == PrintedAnswer(TransportText(before), SomeTransportDelta(before), final)
            && Warned(sig) == TransportNotices(before)
  {
    SignalsOf(TransportSignal, before, Received(Response(blocks)), after);
    TransportSays(before);
    FinalAnswers(Signals(TransportSignal, before), BlocksText(blocks), Signals(TransportSignal, after));
  }

  /** One that breaks fails with the reason, and has shown what was streamed. */
  lemma TransportBreaks(before: seq<TransportItem>, reason: string, after: seq<TransportItem>)
    requires TransportGoesOn(before)
    ensures var sig := Signals(TransportSignal, before + [Broken(reason)] + after);
            OutcomeOf(sig) == StreamFailed(reason) && Printed(sig) == TransportText(before) && Warned(sig) == TransportNotices(before)
  {
    SignalsOf(TransportSignal, before, Broken(reason), after);
    TransportSays(before);
    CutIs(Signals(TransportSignal, before), Fault(reason), Signals(TransportSignal, after));
  }

  lemma NothingEnds(sig: seq<Signal>)
    requires NoEnd(sig)
    ensures Before(sig) == sig && Ending(sig) == None
  {
    StopIs(sig, |sig|);
  }

  /** One that just stops answers what was streamed, if anything was. */
  lemma TransportRunsDry(items: seq<TransportItem>)
    requires TransportGoesOn(items)
    ensures var sig, text := Signals(TransportSignal, items), TransportText(items);
            && OutcomeOf(sig) == (if text == "" then EndedEarly else Answered(text))
            && Printed(sig) == (if text == "" then "" else PrintedAnswer(text, true, ""))
            && Warned(sig) == TransportNotices(items)
  {
    TransportSays(items);
    NothingEnds(Signals(TransportSignal, items));
  }

  /** The approval requests counted are the places of such events. */
  lemma {:induction false} AsksAre(items: seq<TransportItem>)
    ensures Asks(items) == |set i | 0 <= i < |items| && items[i] == Received(ApprovalRequested)|
  {
    if items != [] {
      var n := |items| - 1;
      var init := items[..n];
      AsksAre(init);
      var before := set i | 0 <= i < n && init[i] == Received(ApprovalRequested);
      var all := set i | 0 <= i < |items| && items[i] == Received(ApprovalRequested);
      if items[n] == Received(ApprovalRequested) { assert all == before + {n}; } else { assert all == before; }
    }
  }

  /** The events before the end are those in front of the first response or failure. */
  lemma BeforeTheEnd(before: seq<TransportItem>, end: TransportItem, after: seq<TransportItem>)
    requires TransportGoesOn(before) && (end.Broken? || end.event.Response?)
    ensures ItemsBefore(TransportSignal, before + [end] + after) == before
  {
    SignalsOf(TransportSignal, before, end, after);
    TransportSays(before);
    StopIs(Signals(TransportSignal, before + [end] + after), |before|);
    assert (before + [end] + after)[..|before|] == before;
  }

  // ----- the session's events -----

  function SessionText(events: seq<SessionEvent>): string {
    if events == [] then ""
    else
      SessionText(events[..|events| - 1])
      + match events[|events| - 1] case Agent(AnswerDelta(t)) => t case _ => ""
  }

  function SessionNotices(events: seq<SessionEvent>): seq<(Level, string)> {
    if events == [] then []
    else
      SessionNotices(events[..|events| - 1])
      + match events[|events| - 1] case Agent(AgentNotice(level, t)) => [(level, t)] case _ => []
  }

  predicate SomeSessionDelta(events: seq<SessionEvent>) {
    exists i :: 0 <= i < |events| && events[i].Agent? && events[i].event.AnswerDelta?
  }

  predicate SessionGoesOn(events: seq<SessionEvent>) {
    forall i :: 0 <= i < |events| ==> !(events[i].Agent? && events[i].event.Message?)
  }

  lemma {:induction false} SessionSays(events: seq<SessionEvent>)
    requires SessionGoesOn(events)
    ensures NoEnd(Signals(SessionSignal, events))
    ensures Joined(Signals(SessionSignal, events)) == SessionText(events)
    ensures Notices(Signals(SessionSignal, events)) == SessionNotices(events)
    ensures Streamed(Signals(SessionSignal, events)) <==> SomeSessionDelta(events)
  {
    if events != [] {
      SignalsShorter(SessionSignal, events);
      SessionSays(events[..|events| - 1]);
      var sig := Signals(SessionSignal, events);
      assert forall i :: 0 <= i < |events| ==> sig[i] == SessionSignal(events[i]);
      assert forall i :: 0 <= i < |events| ==> (sig[i].Delta? <==> events[i].Agent? && events[i].event.AnswerDelta?);
    }
  }

  /** A session turn that ends with a message answers its text, or the streamed text when it has none. */
  lemma SessionAnswers(before: seq<SessionEvent>, content: seq<Block>, after: seq<SessionEvent>)
    requires SessionGoesOn(before)
    ensures var sig, final := Signals(SessionSignal, before + [Agent(Message(content))] + after), BlocksText(content);
            && OutcomeOf(sig) == Answered(if final != "" then final else SessionText(before))
            && Printed(sig) == PrintedAnswer(SessionText(before), SomeSessionDelta(before), final)
            && Warned(sig) == SessionNotices(before)
  {
    SignalsOf(SessionSignal, before, Agent(Message(content)), after);
    SessionSays(before);
    FinalAnswers(Signals(SessionSignal, before), BlocksText(content), Signals(SessionSignal, after));
  }

  lemma SessionRunsDry(events: seq<SessionEvent>)
    requires SessionGoesOn(events)
    ensures var sig, text := Signals(SessionSignal, events), SessionText(events);
            && OutcomeOf(sig) == (if text == "" then EndedEarly else Answered(text))
            && Printed(sig) == (if text == "" then "" else PrintedAnswer(text, true, ""))
            && Warned(sig) == SessionNotices(events)
  {
    SessionSays(events);
    NothingEnds(Signals(SessionSignal, events));
  }
}
