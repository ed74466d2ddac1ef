/** The widget's sliding-window limit on chat messages, and its refinement of a limit over the whole history. */
module RateLimit {

  const WINDOW_MS := 60000
  const MAX_SENDS := 10

  /** An attempt reads the clock twice, to check and to stamp the send; a reset forgets the stamps. */
  datatype Event = Attempt(empty: bool, checkedAt: int, stampedAt: int) | Reset(at: int)

  /** The stamps less than a window old. */
  function Recent(stamps: seq<int>, now: int): seq<int> {
    if stamps == [] then []
    else
      var last := stamps[|stamps| - 1];
      Recent(stamps[..|stamps| - 1], now) + if now - last < WINDOW_MS then [last] else []
  }

  /** The stamps the widget keeps, and those of all sends ever accepted. */
  datatype State = State(sentAt: seq<int>, accepted: seq<int>)

  predicate Limited(sentAt: seq<int>, now: int) { |Recent(sentAt, now)| >= MAX_SENDS }

  function Step(st: State, e: Event): State {
    match e
    case Reset(_) => st.(sentAt := [])
    case Attempt(empty, checkedAt, stampedAt) =>
      var kept := Recent(st.sentAt, checkedAt);
      if empty then st
      else if Limited(st.sentAt, checkedAt) then st.(sentAt := kept)
      else State(kept + [stampedAt], st.accepted + [stampedAt])
  }

  function Run(st: State, events: seq<Event>): State {
    if events == [] then st else Step(Run(st, events[..|events| - 1]), events[|events| - 1])
  }

  class ClientLimiter {
    var sentAt: seq<int>
    ghost var accepted: seq<int>

    constructor ()
      ensures Now() == State([], [])
    {
      sentAt, accepted := [], [];
    }

    ghost function Now(): State
      reads this
    {
      State(sentAt, accepted)
    }

    /** Prunes the stamps by a filter, then compares their number. */
    method IsClientRateLimited(now: int) returns (limited: bool)
      modifies this`sentAt
      ensures sentAt == Recent(old(sentAt), now)
      ensures limited <==> Limited(old(sentAt), now)
    {
      var kept := [];
      for i := 0 to |sentAt|
        invariant sentAt == old(sentAt)
        invariant kept == Recent(sentAt[..i], now)
      {
        assert sentAt[..i + 1][..i] == sentAt[..i];
        if now - sentAt[i] < WINDOW_MS {
          kept := kept + [sentAt[i]];
        }
      }
      assert sentAt[..|sentAt|] == sentAt;
      sentAt := kept;
      limited := |sentAt| >= MAX_SENDS;
    }

    method SendChatMessage(empty: bool, checkedAt: int, stampedAt: int) returns (sent: bool)
      modifies this
      ensures Now() == Step(old(Now()), Attempt(empty, checkedAt, stampedAt))
      ensures sent <==> !empty && !Limited(old(sentAt), checkedAt)
    {
      if empty {
        return false;
      }
      var limited := IsClientRateLimited(checkedAt);
      if limited {
        return false;
      }
      sentAt, accepted := sentAt + [stampedAt], accepted + [stampedAt];
      sent := true;
    }

    method ResetState(at: int)
      modifies this
      ensures Now() == Step(old(Now()), Reset(at))
    {
      sentAt := [];
    }
  }

  // ----- Pruning loses nothing ---------------------------------------------------------------

  lemma {:induction false} RecentConcat(a: seq<int>, b: seq<int>, now: int)
    ensures Recent(a + b, now) == Recent(a, now) + Recent(b, now)
  {
    if b == [] {
      assert a + b == a;
    } else {
      var n := |b| - 1;
      assert (a + b)[..|a + b| - 1] == a + b[..n];
      RecentConcat(a, b[..n], now);
    }
  }

  /** Pruning at an earlier time does not matter to a later one. */
  lemma {:induction false} PruneEarlier(stamps: seq<int>, earlier: int, later: int)
    requires earlier <= later
    ensures Recent(Recent(stamps, earlier), later) == Recent(stamps, later)
  {
    if stamps != [] {
      var n := |stamps| - 1;
      var before, last := stamps[..n], stamps[n];
      PruneEarlier(before, earlier, later);
      if earlier - last < WINDOW_MS {
        RecentConcat(Recent(before, earlier), [last], later);
      } else {
        assert Recent(stamps, earlier) == Recent(before, earlier);
        assert Recent(stamps, later) == Recent(before, later);
      }
    }
  }

  /** From a time on, the kept stamps and the whole history look the same. */
  ghost predicate Equivalent(st: State, clock: int) {
    forall now :: clock <= now ==> Recent(st.sentAt, now) == Recent(st.accepted, now)
  }

  /** The times of an event, in order, not before the clock. */
  predicate ClockHolds(e: Event, clock: int) {
    if e.Attempt? then clock <= e.checkedAt <= e.stampedAt else clock <= e.at
  }

  function ClockAfter(clock: int, events: seq<Event>): int {
    if events == [] then clock
    else
      var last := events[|events| - 1];
      if last.Reset? then last.at else last.stampedAt
  }

  /** The clock never goes back. */
  predicate Monotone(clock: int, events: seq<Event>) {
    if events == [] then true
    else
      var before := events[..|events| - 1];
      Monotone(clock, before) && ClockHolds(events[|events| - 1], ClockAfter(clock, before))
  }

  /** How many resets fall into the minute that starts at a time. */
  function ResetsIn(events: seq<Event>, start: int): nat {
    if events == [] then 0
    else
      var last := events[|events| - 1];
      ResetsIn(events[..|events| - 1], start) + if last.Reset? && start <= last.at < start + 60000 then 1 else 0
  }

  predicate NoResets(events: seq<Event>) {
    forall i :: 0 <= i < |events| ==> events[i].Attempt?
  }

  lemma StepEquivalent(st: State, e: Event, clock: int)
    requires e.Attempt? && Equivalent(st, clock) && ClockHolds(e, clock)
    ensures Equivalent(Step(st, e), e.stampedAt)
  {
    forall now | e.stampedAt <= now
      ensures Recent(Step(st, e).sentAt, now) == Recent(Step(st, e).accepted, now)
    {
      PruneEarlier(st.sentAt, e.checkedAt, now);
      RecentConcat(Recent(st.sentAt, e.checkedAt), [e.stampedAt], now);
      RecentConcat(st.accepted, [e.stampedAt], now);
    }
  }

  lemma {:induction false} RunEquivalent(st: State, events: seq<Event>, clock: int)
    requires Equivalent(st, clock) && Monotone(clock, events) && NoResets(events)
    ensures Equivalent(Run(st, events), ClockAfter(clock, events))
  {
    hide Equivalent;
    if events != [] {
      var before := events[..|events| - 1];
      RunEquivalent(st, before, clock);
      StepEquivalent(Run(st, before), events[|events| - 1], ClockAfter(clock, before));
    }
  }

  /**
   The pruned list decides every attempt of a run as the whole history would: a message is refused
   exactly when ten accepted sends are less than a minute old.
   */
  lemma DecidesAsHistory(st: State, events: seq<Event>, clock: int, e: Event)
    requires e.Attempt? && Equivalent(st, clock) && Monotone(clock, events + [e]) && NoResets(events)
    ensures Limited(Run(st, events).sentAt, e.checkedAt) <==>
      |Recent(Run(st, events).accepted, e.checkedAt)| >= 10
  {
    var all := events + [e];
    assert all[..|all| - 1] == events;
    RunEquivalent(st, events, clock);
  }

  // ----- The bound ---------------------------------------------------------------------------

  /** How many stamps fall into the minute that starts at a time. */
  function InWindow(stamps: seq<int>, start: int): nat {
    if stamps == [] then 0
    else
      var last := stamps[|stamps| - 1];
      InWindow(stamps[..|stamps| - 1], start) + if start <= last < start + 60000 then 1 else 0
  }

  ghost predicate Bounded(stamps: seq<int>) {
    forall start :: InWindow(stamps, start) <= MAX_SENDS
  }

  lemma {:induction false} WindowIsRecent(stamps: seq<int>, start: int, now: int)
    requires now - start < WINDOW_MS
    ensures InWindow(stamps, start) <= |Recent(stamps, now)|
  {
    if stamps != [] { WindowIsRecent(stamps[..|stamps| - 1], start, now); }
  }

  /** One attempt keeps the bound, when the kept stamps stand for the history. */
  lemma StepBounded(st: State, e: Event, clock: int)
    requires e.Attempt? && Equivalent(st, clock) && ClockHolds(e, clock) && Bounded(st.accepted)
    ensures Bounded(Step(st, e).accepted)
  {
    var after := Step(st, e);
    if after.accepted != st.accepted {
      assert after.accepted[..|after.accepted| - 1] == st.accepted;
      forall start ensures InWindow(after.accepted, start) <= MAX_SENDS {
        if start <= e.stampedAt < start + WINDOW_MS {
          WindowIsRecent(st.accepted, start, e.checkedAt);
        }
      }
    }
  }

  lemma {:induction false} WindowConcat(a: seq<int>, b: seq<int>, start: int)
    ensures InWindow(a + b, start) == InWindow(a, start) + InWindow(b, start)
  {
    if b == [] {
      assert a + b == a;
    } else {
      assert (a + b)[..|a + b| - 1] == a + b[..|b| - 1];
      WindowConcat(a, b[..|b| - 1], start);
    }
  }

  ghost predicate Within(stamps: seq<int>, low: int, high: int) {
    forall i :: 0 <= i < |stamps| ==> low <= stamps[i] <= high
  }

  lemma {:induction false} NoneInWindow(stamps: seq<int>, start: int)
    requires forall i :: 0 <= i < |stamps| ==> !(start <= stamps[i] < start + WINDOW_MS)
    ensures InWindow(stamps, start) == 0
  {
    if stamps != [] { NoneInWindow(stamps[..|stamps| - 1], start); }
  }

  /**
   The sends up to the last reset, at a time, and those since, which the kept stamps stand for. Up to
   the reset a minute holds ten for each reset inside it, and ten more only if it ends before.
   */
  ghost predicate Split(
      st: State, base: seq<int>, since: seq<int>, resetAt: int, clock: int, start: int, resets: nat) {
    && st.accepted == base + since && resetAt <= clock
    && Equivalent(State(st.sentAt, since), clock) && Bounded(since) && Within(since, resetAt, clock)
    && (forall i :: 0 <= i < |base| ==> base[i] <= resetAt)
    && InWindow(base, start) <= MAX_SENDS * resets + if start + WINDOW_MS <= resetAt then MAX_SENDS else 0
  }

  lemma SplitTotal(
      st: State, base: seq<int>, since: seq<int>, resetAt: int, clock: int, start: int, resets: nat)
    requires Split(st, base, since, resetAt, clock, start, resets)
    ensures InWindow(st.accepted, start) <= MAX_SENDS * (resets + 1)
    ensures clock < start ==> InWindow(st.accepted, start) == 0
  {
    WindowConcat(base, since, start);
    if start + WINDOW_MS <= resetAt || clock < start { NoneInWindow(since, start); }
    if clock < start { NoneInWindow(base, start); }
  }

  lemma SplitAttempt(
      st: State, base: seq<int>, since: seq<int>, resetAt: int, clock: int, start: int, resets: nat, e: Event)
    returns (since': seq<int>)
    requires Split(st, base, since, resetAt, clock, start, resets) && e.Attempt? && ClockHolds(e, clock)
    ensures Split(Step(st, e), base, since', resetAt, e.stampedAt, start, resets)
  {
    hide Recent, Limited;
    var piece := State(st.sentAt, since);
    StepEquivalent(piece, e, clock);
    StepBounded(piece, e, clock);
    since' := Step(piece, e).accepted;
    assert Step(st, e).accepted == base + since';
  }

  lemma SplitReset(
      st: State, base: seq<int>, since: seq<int>, resetAt: int, clock: int, start: int, resets: nat, at: int)
    requires Split(st, base, since, resetAt, clock, start, resets) && clock <= at
    ensures Split(Step(st, Reset(at)), st.accepted, [], at, at, start,
                  resets + if start <= at < start + WINDOW_MS then 1 else 0)
  {
    SplitTotal(st, base, since, resetAt, clock, start, resets);
    assert st.accepted + [] == st.accepted;
    WindowConcat(base, since, start);
    if start + WINDOW_MS <= resetAt { NoneInWindow(since, start); }
  }

  lemma {:induction false} SplitAtReset(events: seq<Event>, clock: int, start: int)
    returns (base: seq<int>, since: seq<int>, resetAt: int)
    requires Monotone(clock, events)
    ensures Split(Run(State([], []), events), base, since, resetAt, ClockAfter(clock, events),
                  start, ResetsIn(events, start))
  {
    if events == [] {
      base, since, resetAt := [], [], clock;
    } else {
      hide Split, Step;
      var before, e := events[..|events| - 1], events[|events| - 1];
      base, since, resetAt := SplitAtReset(before, clock, start);
      var st, now, resets := Run(State([], []), before), ClockAfter(clock, before), ResetsIn(before, start);
      if e.Attempt? {
        since := SplitAttempt(st, base, since, resetAt, now, start, resets, e);
      } else {
        SplitReset(st, base, since, resetAt, now, start, resets, e.at);
        base, since, resetAt := st.accepted, [], e.at;
      }
    }
  }

  /** Every minute of every run holds at most ten accepted sends, and ten more for each reset inside that minute. */
  lemma AtMostTenAMinute(events: seq<Event>, clock: int, start: int)
    requires Monotone(clock, events)
    ensures InWindow(Run(State([], []), events).accepted, start) <= 10 * (ResetsIn(events, start) + 1)
  {
    var base, since, resetAt := SplitAtReset(events, clock, start);
    SplitTotal(Run(State([], []), events), base, since, resetAt, ClockAfter(clock, events),
               start, ResetsIn(events, start));
  }

  // ----- What resets let through -------------------------------------------------------------

  /** Attempts that are checked and stamped at one time. */
  function Burst(t: int, n: nat): seq<Event> {
    if n == 0 then [] else Burst(t, n - 1) + [Attempt(false, t, t)]
  }

  function Copies(t: int, n: nat): (r: seq<int>)
    ensures |r| == n
  {
    if n == 0 then [] else Copies(t, n - 1) + [t]
  }

  lemma {:induction false} RunConcat(st: State, a: seq<Event>, b: seq<Event>)
    ensures Run(st, a + b) == Run(Run(st, a), b)
  {
    if b == [] {
      assert a + b == a;
    } else {
      assert (a + b)[..|a + b| - 1] == a + b[..|b| - 1];
      RunConcat(st, a, b[..|b| - 1]);
    }
  }

  predicate AllRecent(stamps: seq<int>, now: int) {
    forall i :: 0 <= i < |stamps| ==> now - stamps[i] < WINDOW_MS
  }

  lemma {:induction false} RecentAll(stamps: seq<int>, now: int)
    requires AllRecent(stamps, now)
    ensures Recent(stamps, now) == stamps
  {
    if stamps != [] { RecentAll(stamps[..|stamps| - 1], now); }
  }

  /** A burst is accepted as far as the kept stamps leave room. */
  lemma {:induction false} BurstAccepted(st: State, t: int, n: nat)
    requires |st.sentAt| + n <= MAX_SENDS
    requires AllRecent(st.sentAt, t)
    ensures Run(st, Burst(t, n)) == State(st.sentAt + Copies(t, n), st.accepted + Copies(t, n))
  {
    hide Step, AllRecent, Copies, Burst, Run, Recent, MAX_SENDS;
    CopiesSnoc(st.sentAt, t, n);
    CopiesSnoc(st.accepted, t, n);
    BurstSnoc(st, t, n);
    if n > 0 {
      BurstAccepted(st, t, n - 1);
      CopiesRecent(st.sentAt, t, n - 1);
      SendAccepted(State(st.sentAt + Copies(t, n - 1), st.accepted + Copies(t, n - 1)), t);
    }
  }

  lemma CopiesSnoc(stamps: seq<int>, t: int, n: nat)
    ensures stamps + Copies(t, n) == if n == 0 then stamps else stamps + Copies(t, n - 1) + [t]
  {
  }

  lemma BurstSnoc(st: State, t: int, n: nat)
    ensures Run(st, Burst(t, n)) == if n == 0 then st else Step(Run(st, Burst(t, n - 1)), Attempt(false, t, t))
  {
    if n > 0 { assert Burst(t, n)[..|Burst(t, n)| - 1] == Burst(t, n - 1); }
  }

  lemma CopiesRecent(stamps: seq<int>, t: int, n: nat)
    requires AllRecent(stamps, t)
    ensures AllRecent(stamps + Copies(t, n), t)
  {
    CopiesSame(t, n);
  }

  lemma SendAccepted(st: State, t: int)
    requires |st.sentAt| < MAX_SENDS
    requires AllRecent(st.sentAt, t)
    ensures Step(st, Attempt(false, t, t)) == State(st.sentAt + [t], st.accepted + [t])
  {
    RecentAll(st.sentAt, t);
  }

  lemma {:induction false} CopiesSame(t: int, n: nat)
    ensures forall i :: 0 <= i < n ==> Copies(t, n)[i] == t
  {
    if n > 0 { CopiesSame(t, n - 1); }
  }

  lemma {:induction false} CopiesInWindow(stamps: seq<int>, t: int, n: nat)
    ensures InWindow(stamps + Copies(t, n), t) == InWindow(stamps, t) + n
  {
    CopiesSnoc(stamps, t, n);
    if n > 0 {
      hide Copies;
      CopiesInWindow(stamps, t, n - 1);
    }
  }

  lemma {:induction false} BurstOrdered(events: seq<Event>, t: int, n: nat)
    requires Monotone(t, events) && ClockAfter(t, events) == t
    ensures Monotone(t, events + Burst(t, n)) && ClockAfter(t, events + Burst(t, n)) == t
    ensures ResetsIn(events + Burst(t, n), t) == ResetsIn(events, t)
  {
    if n == 0 {
      assert events + Burst(t, n) == events;
    } else {
      BurstOrdered(events, t, n - 1);
      var all := events + Burst(t, n);
      assert all[..|all| - 1] == events + Burst(t, n - 1);
    }
  }

  /** Right after a reset, or at the start, n more sends are accepted at one instant. */
  lemma BurstAfterReset(events: seq<Event>, t: int, n: nat)
    requires n <= MAX_SENDS && Run(State([], []), events).sentAt == []
    requires Monotone(t, events) && ClockAfter(t, events) == t
    ensures var more := events + Burst(t, n);
      && Monotone(t, more) && ClockAfter(t, more) == t && ResetsIn(more, t) == ResetsIn(events, t)
      && InWindow(Run(State([], []), more).accepted, t) == InWindow(Run(State([], []), events).accepted, t) + n
  {
    var start, mid := State([], []), Run(State([], []), events);
    BurstOrdered(events, t, n);
    RunConcat(start, events, Burst(t, n));
    BurstAccepted(mid, t, n);
    CopiesInWindow(mid.accepted, t, n);
  }

  /** The bound is reached for any number of resets in a minute, even at one instant. */
  lemma {:induction false} ResetsDefeatTheLimit(t: int, resets: nat) returns (events: seq<Event>)
    ensures Monotone(t, events) && ClockAfter(t, events) == t && ResetsIn(events, t) == resets
    ensures InWindow(Run(State([], []), events).accepted, t) == 10 * (resets + 1)
  {
    if resets == 0 {
      BurstAfterReset([], t, MAX_SENDS);
      events := [] + Burst(t, MAX_SENDS);
    } else {
      var earlier := ResetsDefeatTheLimit(t, resets - 1);
      var reset := earlier + [Reset(t)];
      assert reset[..|reset| - 1] == earlier;
      hide Burst;
      BurstAfterReset(reset, t, MAX_SENDS);
      events := reset + Burst(t, MAX_SENDS);
    }
  }
}
