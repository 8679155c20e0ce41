/** Rounds of one punch burst, spaced over a clock that only promises not to run backwards. */
module PunchPacing {
  import opened Wrappers
  import opened Counting

  const PUNCH_BURST: nat := 5

  /** 200 ms; instants and durations are whole nanoseconds. */
  const PUNCH_INTERVAL: nat := 200_000_000

  datatype Pace = Pace(released: nat, nextAt: Option<nat>)

  const START: Pace := Pace(0, None)

  /** How one call ends: its wait is cancelled, or it goes on and reads the clock at `now`. */
  datatype Poll = Cancelled | Goes(now: nat)

  datatype Release = Release(round: nat, at: nat)

  /** What the timer and the clock guarantee: no wake-up before the due instant, no time before `since`. */
  predicate Allowed(p: Pace, poll: Poll, since: nat) {
    poll.Goes? ==> poll.now >= since && (p.released < PUNCH_BURST && p.nextAt.Some? ==> poll.now >= p.nextAt.value)
  }

  predicate Fires(p: Pace, poll: Poll) { p.released < PUNCH_BURST && poll.Goes? }

  function After(p: Pace, poll: Poll): Pace {
    if Fires(p, poll) then Pace(p.released + 1, Some(poll.now + PUNCH_INTERVAL)) else p
  }

  class PunchBurst {
    var released: nat
    var nextAt: Option<nat>

    function State(): Pace reads this { Pace(released, nextAt) }

    constructor ()
      ensures State() == START
    {
      released, nextAt := 0, None;
    }

    /** `Some(round)` when a round is released; a cancelled wait changes nothing. */
    method NextRound(poll: Poll) returns (round: Option<nat>)
      modifies this
      ensures State() == After(old(State()), poll)
      ensures round == if Fires(old(State()), poll) then Some(old(released)) else None
    {
      if released >= PUNCH_BURST { return None; }
      if poll.Cancelled? { return None; }
      round := Some(released);
      released := released + 1;
      nextAt := Some(poll.now + PUNCH_INTERVAL);
    }
  }

  function Fired(p: Pace, poll: Poll): seq<Release> { if Fires(p, poll) then [Release(p.released, poll.now)] else [] }

  // ----- whole runs -----

  /** The clock reading after a call. */
  function ClockAfter(since: nat, poll: Poll): nat { if poll.Goes? then poll.now else since }

  predicate AllowedRun(p: Pace, polls: seq<Poll>, since: nat)
    decreases |polls|
  {
    polls == [] || (Allowed(p, polls[0], since) && AllowedRun(After(p, polls[0]), polls[1..], ClockAfter(since, polls[0])))
  }

  function Releases(p: Pace, polls: seq<Poll>): seq<Release>
    decreases |polls|
  {
    if polls == [] then [] else Fired(p, polls[0]) + Releases(After(p, polls[0]), polls[1..])
  }

  /** The rounds a caller collects by asking again and again. */
  method Collect(burst: PunchBurst, polls: seq<Poll>) returns (log: seq<Release>)
    modifies burst
    ensures log == Releases(old(burst.State()), polls)
  {
    log := [];
    assert polls[0..] == polls;
    for i := 0 to |polls|
      invariant log + Releases(burst.State(), polls[i..]) == Releases(old(burst.State()), polls)
    {
      assert polls[i..][1..] == polls[i + 1..];
      var round := burst.NextRound(polls[i]);
      if round.Some? { log := log + [Release(round.value, polls[i].now)]; }
    }
  }

  /** Consecutive numbers from `first`, an interval or more apart, none before `notBefore`. */
  ghost predicate Paced(log: seq<Release>, first: nat, notBefore: nat) {
    && (forall i :: 0 <= i < |log| ==> log[i].round == first + i)
    && (forall i :: 0 <= i < |log| ==> log[i].at >= notBefore + i * PUNCH_INTERVAL)
    && (forall i, j :: 0 <= i <= j < |log| ==> log[j].at - log[i].at >= (j - i) * PUNCH_INTERVAL)
  }

  function Going(polls: seq<Poll>): nat {
    if polls == [] then 0 else (if polls[0].Goes? then 1 else 0) + Going(polls[1..])
  }

  function Min(a: nat, b: nat): nat { if a <= b then a else b }

  lemma PacedOneMore(r: Release, rest: seq<Release>, first: nat, notBefore: nat)
    requires r.round == first && r.at >= notBefore && Paced(rest, first + 1, r.at + PUNCH_INTERVAL)
    ensures Paced([r] + rest, first, notBefore)
  {
    var log := [r] + rest;
    forall i, j | 0 <= i <= j < |log| ensures log[j].at - log[i].at >= (j - i) * PUNCH_INTERVAL {
      if 0 == i < j { assert log[j] == rest[j - 1]; }
    }
    forall i | 0 <= i < |log| ensures log[i].round == first + i && log[i].at >= notBefore + i * PUNCH_INTERVAL {
      if i > 0 { assert log[i] == rest[i - 1]; }
    }
  }

  lemma {:induction false} RunIsPaced(p: Pace, polls: seq<Poll>, since: nat)
    requires AllowedRun(p, polls, since) && p.released <= PUNCH_BURST
    ensures Paced(Releases(p, polls), p.released, if p.nextAt.Some? then p.nextAt.value else since)
    ensures |Releases(p, polls)| == Min(PUNCH_BURST - p.released, Going(polls))
    decreases |polls|
  {
    if polls != [] {
      var q := After(p, polls[0]);
      RunIsPaced(q, polls[1..], ClockAfter(since, polls[0]));
      if Fires(p, polls[0]) {
        PacedOneMore(Release(p.released, polls[0].now), Releases(q, polls[1..]), p.released,
                     if p.nextAt.Some? then p.nextAt.value else since);
      }
    }
  }

  /**
   * A fresh burst, however its callers dawdle or cancel: rounds 0, 1, 2, … without gap or repeat,
   * one for each call that goes on up to the burst's size, any two i rounds apart by i intervals or more.
   */
  lemma BurstIsPaced(polls: seq<Poll>, since: nat)
    requires AllowedRun(START, polls, since)
    ensures Paced(Releases(START, polls), 0, since)
    ensures |Releases(START, polls)| == Min(PUNCH_BURST, Going(polls))
  {
    RunIsPaced(START, polls, since);
  }

  function InWindow(log: seq<Release>, from: nat, width: nat): nat {
    if log == [] then 0
    else (if from <= log[0].at <= from + width then 1 else 0) + InWindow(log[1..], from, width)
  }

  lemma PacedTail(log: seq<Release>, first: nat, notBefore: nat)
    requires log != [] && Paced(log, first, notBefore)
    ensures Paced(log[1..], first + 1, log[0].at + PUNCH_INTERVAL)
  {
    var rest := log[1..];
    forall i | 0 <= i < |rest| ensures rest[i].at >= log[0].at + PUNCH_INTERVAL + i * PUNCH_INTERVAL {
      assert log[i + 1].at - log[0].at >= (i + 1 - 0) * PUNCH_INTERVAL;
    }
    forall i, j | 0 <= i <= j < |rest| ensures rest[j].at - rest[i].at >= (j - i) * PUNCH_INTERVAL {
      assert log[j + 1].at - log[i + 1].at >= (j + 1 - (i + 1)) * PUNCH_INTERVAL;
    }
  }

  lemma {:induction false} NoneSoLate(log: seq<Release>, first: nat, notBefore: nat, from: nat, width: nat)
    requires Paced(log, first, notBefore) && notBefore > from + width
    ensures InWindow(log, from, width) == 0
  {
    if log != [] {
      PacedTail(log, first, notBefore);
      assert log[0].at >= notBefore + 0 * PUNCH_INTERVAL;
      NoneSoLate(log[1..], first + 1, log[0].at + PUNCH_INTERVAL, from, width);
    }
  }

  /** Nothing happens before `next`, so the window may start there. */
  lemma {:induction false} ShiftedWindow(log: seq<Release>, first: nat, notBefore: nat, from: nat, next: nat, width: nat)
    requires Paced(log, first, notBefore) && from <= next <= from + width && next <= notBefore
    ensures InWindow(log, from, width) == InWindow(log, next, from + width - next)
  {
    if log != [] {
      PacedTail(log, first, notBefore);
      assert log[0].at >= notBefore + 0 * PUNCH_INTERVAL;
      ShiftedWindow(log[1..], first + 1, log[0].at + PUNCH_INTERVAL, from, next, width);
    }
  }

  /** A window of any place and width holds at most one release more than the intervals that fit in it. */
  lemma {:induction false} WindowHoldsFew(log: seq<Release>, first: nat, notBefore: nat, from: nat, width: nat)
    requires Paced(log, first, notBefore)
    ensures InWindow(log, from, width) <= width / PUNCH_INTERVAL + 1
  {
    if log != [] {
      PacedTail(log, first, notBefore);
      var next := log[0].at + PUNCH_INTERVAL;
      if !(from <= log[0].at <= from + width) {
        WindowHoldsFew(log[1..], first + 1, next, from, width);
      } else if next > from + width {
        NoneSoLate(log[1..], first + 1, next, from, width);
      } else {
        var left := from + width - next;
        WindowHoldsFew(log[1..], first + 1, next, next, left);
        ShiftedWindow(log[1..], first + 1, next, from, next, width);
        assert width >= left + PUNCH_INTERVAL;
      }
    }
  }

  predicate Prompt(p: Pace, polls: seq<Poll>)
    decreases |polls|
  {
    polls == [] ||
    ((Fires(p, polls[0]) ==> p.nextAt == Some(polls[0].now) || p.nextAt.None?) && Prompt(After(p, polls[0]), polls[1..]))
  }

  /** Callers who ask at once and wake on time get round i exactly i intervals after the first. */
  lemma {:induction false} PromptBurstIsExact(p: Pace, polls: seq<Poll>)
    requires p.nextAt.Some? && Prompt(p, polls)
    ensures forall i :: 0 <= i < |Releases(p, polls)| ==> Releases(p, polls)[i].at == p.nextAt.value + i * PUNCH_INTERVAL
    decreases |polls|
  {
    if polls != [] {
      PromptBurstIsExact(After(p, polls[0]), polls[1..]);
      if !Fires(p, polls[0]) { assert Releases(p, polls) == Releases(p, polls[1..]); }
    }
  }

  // ----- the numbers -----

  function PlacesIn(log: seq<Release>, from: nat, width: nat): set<nat> {
    set i: nat | i < |log| && from <= log[i].at <= from + width
  }

  /** The releases in a window are counted by their instants. */
  lemma {:induction false} InWindowIs(log: seq<Release>, from: nat, width: nat)
    ensures InWindow(log, from, width) == |PlacesIn(log, from, width)|
  {
    if log != [] {
      InWindowIs(log[1..], from, width);
      var rest, all := PlacesIn(log[1..], from, width), PlacesIn(log, from, width);
      MovedByOne(rest, all - {0});
      if 0 in all { assert all == (all - {0}) + {0}; } else { assert all == all - {0}; }
    }
  }

  /** A burst is at most five rounds, 200 milliseconds or more apart. */
  lemma FiveRounds(polls: seq<Poll>, since: nat)
    requires AllowedRun(START, polls, since)
    ensures var log := Releases(START, polls);
            && |log| == (if Going(polls) < 5 then Going(polls) else 5)
            && forall i, j :: 0 <= i <= j < |log| ==> log[j].at - log[i].at >= (j - i) * 200_000_000
  {
    RunIsPaced(START, polls, since);
  }
}
