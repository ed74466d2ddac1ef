/** The widget's polling for operator replies: a cursor over a growing log, with polls in flight. */
module OperatorPolls {
  import opened Strings

  const PAGE_LIMIT := 50

  /** A stored reply; the database stamps it in microseconds. */
  datatype Message = Message(text: string, at: nat)

  /** What the widget sees of a time: a JavaScript Date counts whole milliseconds. */
  function Millis(at: nat): nat { at - at % 1000 }

  /** A poll in flight: asked with a cursor, then answered by the server. */
  datatype Poll = Asked(since: Option<nat>) | Answered(since: Option<nat>, messages: seq<Message>)

  /** The server's log, and the widget's cursor, shown replies and polls in flight, oldest first. */
  datatype Chat = Chat(log: seq<Message>, cursor: Option<nat>, shown: seq<Message>, polls: seq<Poll>)

  /** Post stores a reply; the others start a poll and let the i-th one be served, finish or fail. */
  datatype Event = Post(m: Message) | Start | Serve(i: nat) | Finish(i: nat) | Fail(i: nat)

  predicate Newer(m: Message, since: Option<nat>) { since.None? || since.value < m.at }

  /** where created_at > since. */
  function After(log: seq<Message>, since: Option<nat>): (r: seq<Message>)
    ensures |r| <= |log|
  {
    if log == [] then []
    else if Newer(log[0], since) then [log[0]] + After(log[1..], since)
    else After(log[1..], since)
  }

  function FirstPage(s: seq<Message>): seq<Message> {
    if |s| <= PAGE_LIMIT then s else s[..PAGE_LIMIT]
  }

  /** The server's answer, in log order. */
  function ListReplies(log: seq<Message>, since: Option<nat>): seq<Message> {
    FirstPage(After(log, since))
  }

  /** Every reply of a response is shown and moves the cursor; an empty response changes nothing. */
  function CursorAfter(cursor: Option<nat>, messages: seq<Message>): Option<nat> {
    if messages == [] then cursor else Some(Millis(messages[|messages| - 1].at))
  }

  function Drop(polls: seq<Poll>, i: nat): seq<Poll>
    requires i < |polls|
  {
    polls[..i] + polls[i + 1..]
  }

  /** The log's times increase strictly; other events apply to polls that are in the right state. */
  predicate Enabled(chat: Chat, e: Event) {
    match e
    case Post(m) => chat.log == [] || chat.log[|chat.log| - 1].at < m.at
    case Start => true
    case Serve(i) => i < |chat.polls| && chat.polls[i].Asked?
    case Finish(i) => i < |chat.polls| && chat.polls[i].Answered?
    case Fail(i) => i < |chat.polls|
  }

  function Step(chat: Chat, e: Event): Chat
    requires Enabled(chat, e)
  {
    match e
    case Post(m) => chat.(log := chat.log + [m])
    case Start => chat.(polls := chat.polls + [Asked(chat.cursor)])
    case Serve(i) =>
      var since := chat.polls[i].since;
      chat.(polls := chat.polls[i := Answered(since, ListReplies(chat.log, since))])
    case Finish(i) =>
      var messages := chat.polls[i].messages;
      Chat(chat.log, CursorAfter(chat.cursor, messages), chat.shown + messages, Drop(chat.polls, i))
    case Fail(i) => chat.(polls := Drop(chat.polls, i))
  }

  const OPENED := Chat([], None, [], [])

  /** The events can happen in this order. */
  predicate Possible(events: seq<Event>)
    decreases |events|, 0
  {
    if events == [] then true
    else Possible(events[..|events| - 1]) && Enabled(Run(events[..|events| - 1]), events[|events| - 1])
  }

  function Run(events: seq<Event>): Chat
    requires Possible(events)
    decreases |events|, 1
  {
    if events == [] then OPENED else Step(Run(events[..|events| - 1]), events[|events| - 1])
  }

  // ----- The widget --------------------------------------------------------------------------

  class Widget {
    var operatorCursor: Option<nat>
    var messages: seq<Message>

    constructor ()
      ensures operatorCursor == None && messages == []
    {
      operatorCursor, messages := None, [];
    }

    /** From the response of a poll on; None when the request failed. */
    method PollAnswered(response: Option<seq<Message>>)
      modifies this
      ensures response.None? ==> messages == old(messages) && operatorCursor == old(operatorCursor)
      ensures response.Some? ==>
        && messages == old(messages) + response.value
        && operatorCursor == CursorAfter(old(operatorCursor), response.value)
    {
      if response.None? || |response.value| == 0 {
        return;
      }
      var replies := response.value;
      for i := 0 to |replies|
        invariant messages == old(messages) + replies[..i]
        invariant operatorCursor == CursorAfter(old(operatorCursor), replies[..i])
      {
        messages := messages + [replies[i]];
        operatorCursor := Some(Millis(replies[i].at));
      }
    }
  }

  // ----- Runs without overlap ----------------------------------------------------------------

  /** A poll starts only when none is in flight. */
  predicate NoOverlap(events: seq<Event>)
    requires Possible(events)
  {
    events != [] ==>
      var before := events[..|events| - 1];
      NoOverlap(before) && (events[|events| - 1].Start? ==> Run(before).polls == [])
  }

  ghost predicate Increasing(log: seq<Message>) {
    forall i, j :: 0 <= i < j < |log| ==> log[i].at < log[j].at
  }

  predicate WholeMillis(log: seq<Message>) {
    forall i :: 0 <= i < |log| ==> log[i].at % 1000 == 0
  }

  lemma {:induction false} LogIncreasing(events: seq<Event>)
    requires Possible(events)
    ensures Increasing(Run(events).log)
  {
    if events != [] { LogIncreasing(events[..|events| - 1]); }
  }

  /** The k replies shown are the first k of the log, and the cursor is the time of the last. */
  ghost predicate InStep(chat: Chat) {
    && chat.shown <= chat.log
    && chat.cursor == CursorAfter(None, chat.shown)
  }

  /** With whole-millisecond times, the cursor cuts the log exactly behind what has been shown. */
  lemma CutBehind(log: seq<Message>, k: nat)
    requires Increasing(log) && WholeMillis(log) && k <= |log|
    ensures After(log, CursorAfter(None, log[..k])) == log[k..]
  {
    if k == 0 {
      AllNewer(log, None);
    } else {
      var since := Some(Millis(log[k - 1].at));
      assert log[..k][k - 1] == log[k - 1];
      AfterSplit(log, since, k);
    }
  }

  lemma {:induction false} AllNewer(log: seq<Message>, since: Option<nat>)
    requires forall i :: 0 <= i < |log| ==> Newer(log[i], since)
    ensures After(log, since) == log
  {
    if log != [] { AllNewer(log[1..], since); }
  }

  lemma {:induction false} AfterSplit(log: seq<Message>, since: Option<nat>, k: nat)
    requires k <= |log|
    requires forall i :: 0 <= i < k ==> !Newer(log[i], since)
    requires forall i :: k <= i < |log| ==> Newer(log[i], since)
    ensures After(log, since) == log[k..]
  {
    if k == 0 {
      AllNewer(log, since);
    } else {
      AfterSplit(log[1..], since, k - 1);
    }
  }

  lemma ListsSlice(log: seq<Message>, k: nat)
    requires Increasing(log) && WholeMillis(log) && k <= |log|
    ensures ListReplies(log, CursorAfter(None, log[..k])) == log[k..Min(k + PAGE_LIMIT, |log|)]
  {
    CutBehind(log, k);
  }

  lemma SlicesJoin(log: seq<Message>, k: nat, end: nat)
    requires k <= end <= |log|
    ensures log[..k] + log[k..end] == log[..end]
    ensures CursorAfter(CursorAfter(None, log[..k]), log[k..end]) == CursorAfter(None, log[..end])
  {
    assert k < end ==> log[k..end][end - k - 1] == log[..end][end - 1];
  }

  // ----- Exactly which runs are in order -----------------------------------------------------

  /** After every event the replies shown are the log's first ones: each once and in order. */
  predicate InOrderThroughout(events: seq<Event>)
    requires Possible(events)
  {
    && Run(events).shown <= Run(events).log
    && (events != [] ==> InOrderThroughout(events[..|events| - 1]))
  }

  /** The answer of the i-th poll is empty, or the cursor still is the one it was asked with. */
  predicate CursorKept(chat: Chat, i: nat)
    requires i < |chat.polls| && chat.polls[i].Answered?
  {
    chat.polls[i].messages == [] || chat.polls[i].since == chat.cursor
  }

  /** What a widget could check: every answer that brings replies comes back to the cursor it was asked with. */
  predicate Unchanged(events: seq<Event>)
    requires Possible(events)
  {
    events != [] ==>
      var before, e := events[..|events| - 1], events[|events| - 1];
      Unchanged(before) && (e.Finish? ==> CursorKept(Run(before), e.i))
  }

  /** The poll asked with the time of the k-th reply, and was answered with those after it. */
  ghost predicate AsksBehind(log: seq<Message>, poll: Poll, k: nat) {
    && k <= |log| && poll.since == CursorAfter(None, log[..k])
    && (poll.Answered? ==> poll.messages <= log[k..])
  }

  /** The poll asked with the time of one of the first n replies, or at the start. */
  ghost predicate Behind(log: seq<Message>, poll: Poll, n: nat) {
    exists k: nat :: k <= n && AsksBehind(log, poll, k)
  }

  /** Every poll in flight asked with the time of some reply that has been shown. */
  ghost predicate EachBehind(chat: Chat) {
    forall i :: 0 <= i < |chat.polls| ==> Behind(chat.log, chat.polls[i], |chat.shown|)
  }

  lemma BehindLonger(log: seq<Message>, m: Message, poll: Poll, n: nat)
    requires Behind(log, poll, n)
    ensures Behind(log + [m], poll, n)
  {
    var k: nat :| k <= n && AsksBehind(log, poll, k);
    assert (log + [m])[..k] == log[..k] && (log + [m])[k..] == log[k..] + [m];
    assert AsksBehind(log + [m], poll, k);
  }

  lemma PostBehind(chat: Chat, m: Message)
    requires EachBehind(chat)
    ensures EachBehind(chat.(log := chat.log + [m]))
  {
    hide Behind;
    forall i | 0 <= i < |chat.polls| ensures Behind(chat.log + [m], chat.polls[i], |chat.shown|) {
      BehindLonger(chat.log, m, chat.polls[i], |chat.shown|);
    }
  }

  lemma ServedBehind(log: seq<Message>, poll: Poll, n: nat)
    requires Behind(log, poll, n) && Increasing(log) && WholeMillis(log)
    ensures Behind(log, Answered(poll.since, ListReplies(log, poll.since)), n)
  {
    hide ListReplies, Increasing, WholeMillis, CursorAfter;
    var k: nat :| k <= n && AsksBehind(log, poll, k);
    ListsSlice(log, k);
    assert AsksBehind(log, Answered(poll.since, ListReplies(log, poll.since)), k);
  }

  lemma ServeBehind(chat: Chat, i: nat)
    requires Enabled(chat, Serve(i)) && EachBehind(chat) && Increasing(chat.log) && WholeMillis(chat.log)
    ensures EachBehind(Step(chat, Serve(i)))
  {
    hide ListReplies, Behind;
    ServedBehind(chat.log, chat.polls[i], |chat.shown|);
  }

  lemma BehindMore(log: seq<Message>, poll: Poll, n: nat, more: nat)
    requires Behind(log, poll, n) && n <= more
    ensures Behind(log, poll, more)
  {
    var k: nat :| k <= n && AsksBehind(log, poll, k);
  }

  lemma FewerBehind(chat: Chat, i: nat, next: Chat)
    requires i < |chat.polls| && EachBehind(chat)
    requires next.log == chat.log && next.polls == Drop(chat.polls, i) && |chat.shown| <= |next.shown|
    ensures EachBehind(next)
  {
    hide Behind;
    forall j | 0 <= j < |next.polls| ensures Behind(next.log, next.polls[j], |next.shown|) {
      var was := if j < i then j else j + 1;
      assert next.polls[j] == chat.polls[was];
      BehindMore(chat.log, chat.polls[was], |chat.shown|, |next.shown|);
    }
  }

  predicate NotBefore(a: Option<nat>, b: Option<nat>) {
    a.None? || (b.Some? && a.value <= b.value)
  }

  /** With whole-millisecond times cursors are ordered as the replies they lie behind. */
  lemma CursorOrder(log: seq<Message>, a: nat, b: nat)
    requires Increasing(log) && WholeMillis(log) && a <= |log| && b <= |log|
    ensures NotBefore(CursorAfter(None, log[..a]), CursorAfter(None, log[..b])) <==> a <= b
    ensures CursorAfter(None, log[..a]) == CursorAfter(None, log[..b]) <==> a == b
  {
    if 0 < a < b { assert log[a - 1].at < log[b - 1].at; }
    if 0 < b < a { assert log[b - 1].at < log[a - 1].at; }
  }

  /** An answer that comes back to another cursor shows replies out of order; one that does not keeps step. */
  lemma AnswerInStep(chat: Chat, messages: seq<Message>, k: nat)
    requires InStep(chat) && Increasing(chat.log) && WholeMillis(chat.log)
    requires k <= |chat.shown| && messages <= chat.log[k..] && messages != []
    ensures CursorAfter(None, chat.log[..k]) != chat.cursor ==> !(chat.shown + messages <= chat.log)
    ensures CursorAfter(None, chat.log[..k]) == chat.cursor ==>
      InStep(Chat(chat.log, CursorAfter(chat.cursor, messages), chat.shown + messages, chat.polls))
  {
    hide CursorAfter, WholeMillis;
    var log, n, end := chat.log, |chat.shown|, k + |messages|;
    assert chat.shown == log[..n] && messages == log[k..end];
    CursorOrder(log, k, n);
    if k < n {
      assert (chat.shown + messages)[n] == log[k];
    } else {
      SlicesJoin(log, k, end);
    }
  }

  lemma FinishInStep(chat: Chat, i: nat)
    requires Enabled(chat, Finish(i)) && Increasing(chat.log) && WholeMillis(chat.log)
    requires InStep(chat) && EachBehind(chat)
    ensures var next := Step(chat, Finish(i));
      && (next.shown <= next.log <==> CursorKept(chat, i))
      && (CursorKept(chat, i) ==> InStep(next) && EachBehind(next))
  {
    hide Increasing, WholeMillis, CursorAfter, Drop;
    var messages := chat.polls[i].messages;
    assert Behind(chat.log, chat.polls[i], |chat.shown|);
    var k: nat :| k <= |chat.shown| && AsksBehind(chat.log, chat.polls[i], k);
    var next := Step(chat, Finish(i));
    FewerBehind(chat, i, next);
    if messages == [] {
      NothingShown(chat);
    } else {
      AnswerInStep(chat, messages, k);
    }
  }

  lemma NothingShown(chat: Chat)
    ensures CursorAfter(chat.cursor, []) == chat.cursor && chat.shown + [] == chat.shown
  {
  }

  lemma PostInStep(chat: Chat, m: Message)
    requires InStep(chat)
    ensures InStep(chat.(log := chat.log + [m]))
  {
  }

  lemma StartBehind(chat: Chat)
    requires InStep(chat) && EachBehind(chat)
    ensures EachBehind(Step(chat, Start))
  {
    hide CursorAfter;
    assert chat.log[..|chat.shown|] == chat.shown;
    assert AsksBehind(chat.log, Asked(chat.cursor), |chat.shown|);
  }

  lemma StepInStep(chat: Chat, e: Event)
    requires Enabled(chat, e) && Increasing(chat.log) && WholeMillis(Step(chat, e).log)
    requires InStep(chat) && EachBehind(chat)
    ensures var next := Step(chat, e);
      && (next.shown <= next.log <==> (e.Finish? ==> CursorKept(chat, e.i)))
      && ((e.Finish? ==> CursorKept(chat, e.i)) ==> InStep(next) && EachBehind(next))
  {
    hide ListReplies, Increasing, CursorKept, EachBehind;
    WholeBefore(chat, e);
    match e
    case Post(m) => PostInStep(chat, m); PostBehind(chat, m);
    case Start => StartBehind(chat);
    case Serve(i) => ServeBehind(chat, i);
    case Finish(i) => FinishInStep(chat, i);
    case Fail(i) => FewerBehind(chat, i, Step(chat, e));
  }

  lemma WholeBefore(chat: Chat, e: Event)
    requires Enabled(chat, e) && WholeMillis(Step(chat, e).log)
    ensures WholeMillis(chat.log)
  {
    assert forall i :: 0 <= i < |chat.log| ==> Step(chat, e).log[i] == chat.log[i];
  }

  /**
   With whole-millisecond times, and however the polls overlap, the replies are shown in order throughout
   exactly when every answer that brings replies comes back to the cursor it was asked with.
   */
  lemma {:induction false} OverlapIff(events: seq<Event>)
    requires Possible(events) && WholeMillis(Run(events).log)
    ensures InOrderThroughout(events) <==> Unchanged(events)
    ensures Unchanged(events) ==> InStep(Run(events)) && EachBehind(Run(events))
  {
    hide Increasing, WholeMillis, InStep, EachBehind, CursorKept, Step, Enabled;
    if events == [] {
      OpenedInStep();
    } else {
      var before := events[..|events| - 1];
      var chat, e := Run(before), events[|events| - 1];
      LogIncreasing(before);
      WholeBefore(chat, e);
      OverlapIff(before);
      if Unchanged(before) { StepInStep(chat, e); }
    }
  }

  lemma OpenedInStep()
    ensures OPENED.shown <= OPENED.log && InStep(OPENED) && EachBehind(OPENED)
  {
  }

  /** At most one poll is in flight, and it asked with the cursor. */
  predicate OnePoll(chat: Chat) {
    |chat.polls| <= 1 && (chat.polls != [] ==> chat.polls[0].since == chat.cursor)
  }

  lemma StepOnePoll(chat: Chat, e: Event)
    requires Enabled(chat, e) && OnePoll(chat) && (e.Start? ==> chat.polls == [])
    ensures OnePoll(Step(chat, e)) && (e.Finish? ==> CursorKept(chat, e.i))
  {
    hide ListReplies, CursorAfter;
  }

  /** Without overlap every poll in flight keeps the cursor. */
  lemma {:induction false} NoOverlapUnchanged(events: seq<Event>)
    requires Possible(events) && NoOverlap(events)
    ensures Unchanged(events) && OnePoll(Run(events))
  {
    if events != [] {
      hide OnePoll, Step, CursorKept;
      var before := events[..|events| - 1];
      NoOverlapUnchanged(before);
      StepOnePoll(Run(before), events[|events| - 1]);
    }
  }

  /** So with whole-millisecond times and no overlap, the replies are in order throughout. */
  lemma ShownOnceInOrder(events: seq<Event>)
    requires Possible(events) && NoOverlap(events) && WholeMillis(Run(events).log)
    ensures InOrderThroughout(events) && InStep(Run(events))
  {
    NoOverlapUnchanged(events);
    OverlapIff(events);
  }

  lemma CursorFollowsShown(a: Chat, b: Chat)
    requires InStep(a) && InStep(b) && a.shown <= b.shown && Increasing(b.log)
    ensures NotBefore(a.cursor, b.cursor)
  {
    if a.shown != [] {
      var i, j := |a.shown| - 1, |b.shown| - 1;
      assert a.shown[i] == b.log[i] && b.shown[j] == b.log[j];
      assert b.log[i].at <= b.log[j].at;
    }
  }

  /** In runs whose answers come back to the cursor they were asked with, the cursor never goes back. */
  lemma CursorNeverBack(events: seq<Event>)
    requires events != [] && Possible(events) && Unchanged(events) && WholeMillis(Run(events).log)
    ensures NotBefore(Run(events[..|events| - 1]).cursor, Run(events).cursor)
  {
    hide ListReplies, InStep, EachBehind, CursorAfter, Increasing, WholeMillis, CursorKept;
    var before := events[..|events| - 1];
    var chat, after := Run(before), Run(events);
    LogIncreasing(events);
    WholeBefore(chat, events[|events| - 1]);
    OverlapIff(before);
    OverlapIff(events);
    CursorFollowsShown(chat, after);
  }

  predicate EndsAlike(a: seq<Message>, b: seq<Message>) {
    a != [] && b != [] && a[|a| - 1] == b[|b| - 1]
  }

  lemma LateCursor(chat: Chat, i: nat, k: nat)
    requires Enabled(chat, Finish(i)) && InStep(chat) && Increasing(chat.log) && WholeMillis(chat.log)
    requires AsksBehind(chat.log, chat.polls[i], k) && k <= |chat.shown| && chat.polls[i].messages != []
    ensures var messages, cursor := chat.polls[i].messages, CursorAfter(chat.cursor, chat.polls[i].messages);
      && (cursor == chat.cursor <==> EndsAlike(messages, chat.shown))
      && (!NotBefore(chat.cursor, cursor) <==>
           chat.shown != [] && messages[|messages| - 1] in chat.shown[..|chat.shown| - 1])
  {
    hide Increasing, WholeMillis, NotBefore;
    var log, messages := chat.log, chat.polls[i].messages;
    var end, n := k + |messages|, |chat.shown|;
    assert messages[|messages| - 1] == log[end - 1] && chat.shown == log[..n];
    LastCursor(log[..end], None);
    CursorOrder(log, n, end);
    CursorOrder(log, end, n);
    if n > 0 {
      PlaceInLog(log, end, n);
      assert chat.shown[..n - 1] == log[..n - 1] && chat.shown[n - 1] == log[n - 1];
    }
  }

  /** The replies of a log are distinct. */
  lemma PlaceInLog(log: seq<Message>, end: nat, n: nat)
    requires Increasing(log) && 0 < end <= |log| && 0 < n <= |log|
    ensures log[end - 1] == log[n - 1] <==> end == n
    ensures log[end - 1] in log[..n - 1] <==> end < n
  {
    if end < n { assert log[..n - 1][end - 1] == log[end - 1]; }
  }

  /**
   What a late answer does to the cursor: while the replies have been in order, it leaves the cursor where it is
   exactly when it is empty or ends with the last reply shown, and moves it back exactly when it ends with an
   earlier one.
   */
  lemma LateAnswerIff(events: seq<Event>, i: nat)
    requires Possible(events) && Unchanged(events) && WholeMillis(Run(events).log)
    requires Enabled(Run(events), Finish(i))
    ensures var chat := Run(events);
      var messages, cursor := chat.polls[i].messages, Step(chat, Finish(i)).cursor;
      && (cursor == chat.cursor <==> messages == [] || EndsAlike(messages, chat.shown))
      && (!NotBefore(chat.cursor, cursor) <==>
           messages != [] && chat.shown != []
           && messages[|messages| - 1] in chat.shown[..|chat.shown| - 1])
  {
    hide Unchanged, Increasing, WholeMillis, AsksBehind;
    var chat := Run(events);
    LogIncreasing(events);
    OverlapIff(events);
    assert Behind(chat.log, chat.polls[i], |chat.shown|);
    var k: nat :| k <= |chat.shown| && AsksBehind(chat.log, chat.polls[i], k);
    if chat.polls[i].messages != [] { LateCursor(chat, i, k); }
  }

  // ----- One poll, start to finish -----------------------------------------------------------

  /** A whole poll with nothing in between. */
  function PollOnce(chat: Chat): Chat
    requires chat.polls == []
  {
    var started := Step(chat, Start);
    var served := Step(started, Serve(0));
    Step(served, Finish(0))
  }

  lemma PollOnceShows(chat: Chat)
    requires chat.polls == []
    ensures var page := ListReplies(chat.log, chat.cursor);
      PollOnce(chat) == Chat(chat.log, CursorAfter(chat.cursor, page), chat.shown + page, [])
  {
  }

  function PollTimes(chat: Chat, n: nat): (r: Chat)
    requires chat.polls == []
    ensures r.polls == []
  {
    if n == 0 then chat else PollOnce(PollTimes(chat, n - 1))
  }

  lemma PollAdvances(chat: Chat)
    requires chat.polls == [] && InStep(chat) && Increasing(chat.log) && WholeMillis(chat.log)
    ensures InStep(PollOnce(chat)) && PollOnce(chat).log == chat.log
    ensures PollOnce(chat).shown == chat.log[..Min(|chat.shown| + PAGE_LIMIT, |chat.log|)]
  {
    hide PollOnce, ListReplies, CursorAfter, Increasing, WholeMillis;
    PollOnceShows(chat);
    var log, k := chat.log, |chat.shown|;
    assert chat.shown == log[..k];
    ListsSlice(log, k);
    SlicesJoin(log, k, Min(k + PAGE_LIMIT, |log|));
  }

  /** Fifty replies a poll: whoever is in step catches up. */
  lemma {:induction false} CatchesUp(chat: Chat, n: nat)
    requires chat.polls == [] && InStep(chat) && Increasing(chat.log) && WholeMillis(chat.log)
    ensures var r := PollTimes(chat, n);
      && InStep(r) && r.log == chat.log
      && r.shown == chat.log[..Min(|chat.shown| + 50 * n, |chat.log|)]
  {
    hide PollOnce, InStep;
    if n == 0 {
      ShownIsStart(chat);
    } else {
      CatchesUp(chat, n - 1);
      PollAdvances(PollTimes(chat, n - 1));
    }
  }

  lemma ShownIsStart(chat: Chat)
    requires InStep(chat)
    ensures |chat.shown| <= |chat.log| && chat.shown == chat.log[..|chat.shown|]
  {
  }

  // ----- The microseconds a cursor forgets ---------------------------------------------------

  /** In an increasing log the newer replies are its end. */
  lemma {:induction false} NewerAreLast(log: seq<Message>, since: Option<nat>) returns (c: nat)
    requires Increasing(log)
    ensures c <= |log| && After(log, since) == log[c..]
    ensures forall i :: 0 <= i < |log| ==> (Newer(log[i], since) <==> c <= i)
  {
    if log == [] {
      c := 0;
    } else if Newer(log[0], since) {
      c := 0;
      AllNewer(log, since);
    } else {
      c := NewerAreLast(log[1..], since);
      c := c + 1;
      assert forall i :: 0 < i < |log| ==> log[i] == log[1..][i - 1];
    }
  }

  /** The cursor is the visible time of the log's last reply. */
  ghost predicate CursorAtEnd(chat: Chat) {
    && chat.polls == [] && Increasing(chat.log) && chat.log != []
    && chat.cursor == Some(Millis(chat.log[|chat.log| - 1].at))
  }

  /**
   With the cursor at the end of the log, another poll shows nothing exactly when the last reply's
   time is a whole millisecond; otherwise it shows stored replies again. Either way the cursor stays.
   */
  lemma IdlePollIff(chat: Chat)
    requires CursorAtEnd(chat)
    ensures PollOnce(chat).shown == chat.shown <==> chat.log[|chat.log| - 1].at % 1000 == 0
    ensures CursorAtEnd(PollOnce(chat)) && PollOnce(chat).log == chat.log && chat.shown <= PollOnce(chat).shown
    ensures var n := |chat.shown|;
      |PollOnce(chat).shown| > n ==> PollOnce(chat).shown[n].at <= chat.log[|chat.log| - 1].at
  {
    PollOnceShows(chat);
    hide PollOnce, Step, ListReplies;
    var log := chat.log;
    var c, d := PageIsSlice(log, chat.cursor);
    if c < d {
      var page := log[c..d];
      assert page[0] == log[c] && page[d - c - 1] == log[d - 1] && Newer(log[d - 1], chat.cursor);
    }
  }

  /** What the server lists is a stretch of the log, empty only when nothing is newer. */
  lemma PageIsSlice(log: seq<Message>, since: Option<nat>) returns (c: nat, d: nat)
    requires Increasing(log)
    ensures c <= d <= |log| && ListReplies(log, since) == log[c..d] && (c == d ==> c == |log|)
    ensures forall i :: 0 <= i < |log| ==> (Newer(log[i], since) <==> c <= i)
  {
    c := NewerAreLast(log, since);
    d := Min(c + PAGE_LIMIT, |log|);
  }

  /** So one fractional time is enough for a reply to be shown again by every further poll, without end. */
  lemma {:induction false} RepeatsWithoutEnd(chat: Chat, n: nat)
    requires CursorAtEnd(chat) && chat.log[|chat.log| - 1].at % 1000 != 0
    ensures CursorAtEnd(PollTimes(chat, n)) && PollTimes(chat, n).log == chat.log
    ensures |PollTimes(chat, n).shown| >= |chat.shown| + n
  {
    hide PollOnce;
    if n > 0 {
      RepeatsWithoutEnd(chat, n - 1);
      IdlePollIff(PollTimes(chat, n - 1));
    }
  }

  // ----- Exactly when polling is faithful ----------------------------------------------------

  lemma RunSnoc(events: seq<Event>, e: Event)
    requires Possible(events) && Enabled(Run(events), e)
    ensures Possible(events + [e]) && Run(events + [e]) == Step(Run(events), e)
    ensures NoOverlap(events) && (e.Start? ==> Run(events).polls == []) ==> NoOverlap(events + [e])
  {
    assert (events + [e])[..|events + [e]| - 1] == events;
  }

  lemma AddPoll(events: seq<Event>) returns (more: seq<Event>)
    requires Possible(events) && NoOverlap(events) && Run(events).polls == []
    ensures Possible(more) && NoOverlap(more) && Run(more) == PollOnce(Run(events))
  {
    hide After, FirstPage, Drop;
    RunSnoc(events, Start);
    RunSnoc(events + [Start], Serve(0));
    RunSnoc(events + [Start] + [Serve(0)], Finish(0));
    more := events + [Start] + [Serve(0)] + [Finish(0)];
  }

  lemma {:induction false} AddPosts(events: seq<Event>, rest: seq<Message>) returns (more: seq<Event>)
    requires Possible(events) && NoOverlap(events) && Increasing(Run(events).log + rest)
    ensures Possible(more) && NoOverlap(more)
    ensures Run(more) == Run(events).(log := Run(events).log + rest)
    decreases |rest|
  {
    var log := Run(events).log;
    if rest == [] {
      more := events;
      assert log + rest == log;
    } else {
      assert log + rest == log + [rest[0]] + rest[1..];
      assert (log + rest)[|log|] == rest[0];
      if log != [] { assert (log + rest)[|log| - 1] == log[|log| - 1]; }
      RunSnoc(events, Post(rest[0]));
      more := AddPosts(events + [Post(rest[0])], rest[1..]);
    }
  }

  /** All replies posted and shown, nothing in flight. */
  ghost predicate Settled(events: seq<Event>, log: seq<Message>) {
    && Possible(events) && NoOverlap(events)
    && Run(events) == Chat(log, CursorAfter(None, log), log, [])
  }

  /** A run that posts and polls in turn: in step, whatever the last time is. */
  lemma {:induction false} PostAndPoll(log: seq<Message>) returns (events: seq<Event>)
    requires Increasing(log) && (log != [] ==> WholeMillis(log[..|log| - 1]))
    ensures Settled(events, log)
  {
    if log == [] {
      events := [];
    } else {
      hide Settled, WholeMillis, Increasing;
      ShorterLog(log);
      events := PostAndPoll(log[..|log| - 1]);
      events := PostThenPoll(events, log);
    }
  }

  lemma PostThenPoll(events: seq<Event>, log: seq<Message>) returns (more: seq<Event>)
    requires Increasing(log) && log != [] && WholeMillis(log[..|log| - 1]) && Settled(events, log[..|log| - 1])
    ensures Settled(more, log)
  {
    hide ListReplies, CursorAfter, WholeMillis, Increasing, PollOnce;
    var n := |log| - 1;
    var before, last := log[..n], log[n];
    ShorterLog(log);
    assert before + [last] == log;
    RunSnoc(events, Post(last));
    var posted := events + [Post(last)];
    PageAfterPost(log);
    PollOnceShows(Run(posted));
    LastCursor(log, CursorAfter(None, before));
    more := AddPoll(posted);
  }

  lemma ShorterLog(log: seq<Message>)
    requires Increasing(log) && log != [] && WholeMillis(log[..|log| - 1])
    ensures var before := log[..|log| - 1];
      && Increasing(before) && (before != [] ==> WholeMillis(before[..|before| - 1]))
      && (before != [] ==> before[|before| - 1].at < log[|log| - 1].at)
  {
  }

  lemma LastCursor(log: seq<Message>, cursor: Option<nat>)
    requires log != []
    ensures CursorAfter(cursor, [log[|log| - 1]]) == CursorAfter(None, log)
  {
  }

  lemma PageAfterPost(log: seq<Message>)
    requires Increasing(log) && log != [] && WholeMillis(log[..|log| - 1])
    ensures ListReplies(log, CursorAfter(None, log[..|log| - 1])) == [log[|log| - 1]]
  {
    var n := |log| - 1;
    var since := CursorAfter(None, log[..n]);
    assert forall i :: 0 <= i < n ==> log[..n][i] == log[i];
    AfterSplit(log, since, n);
  }

  /** A run without overlap that posts exactly these replies. */
  predicate PollsLog(events: seq<Event>, log: seq<Message>) {
    Possible(events) && NoOverlap(events) && Run(events).log == log
  }

  predicate ShowsInOrder(events: seq<Event>)
    requires Possible(events)
  {
    Run(events).shown <= Run(events).log
  }

  /** A fractional time gives a run that shows a reply twice. */
  lemma FractionRepeats(log: seq<Message>) returns (events: seq<Event>)
    requires Increasing(log) && !WholeMillis(log)
    ensures PollsLog(events, log) && !ShowsInOrder(events)
  {
    hide PollOnce, Step, Enabled, WholeMillis, ListReplies;
    var k := FirstFraction(log);
    var seen := log[..k + 1];
    assert seen[..k] == log[..k];
    var polled := PostAndPoll(seen);
    IdlePollIff(Run(polled));
    var again := AddPoll(polled);
    assert seen + log[k + 1..] == log;
    events := AddPosts(again, log[k + 1..]);
    var shown := Run(events).shown;
    assert |shown| > k + 1 && shown[k + 1].at <= log[k].at;
    if k + 1 < |log| { assert log[k].at < log[k + 1].at; }
  }

  lemma FirstFraction(log: seq<Message>) returns (k: nat)
    requires !WholeMillis(log)
    ensures k < |log| && log[k].at % 1000 != 0 && WholeMillis(log[..k])
  {
    k := 0;
    while log[k].at % 1000 == 0
      invariant k < |log| && forall i :: 0 <= i < k ==> log[i].at % 1000 == 0
      decreases |log| - k
    {
      k := k + 1;
    }
  }

  /**
   Every run without overlap shows the log in order, each reply once, exactly when all its times are whole
   milliseconds.
   */
  lemma FaithfulIff(log: seq<Message>)
    requires Increasing(log)
    ensures (forall events :: PollsLog(events, log) ==> ShowsInOrder(events)) <==> WholeMillis(log)
  {
    if WholeMillis(log) {
      forall events | PollsLog(events, log) ensures ShowsInOrder(events) { ShownOnceInOrder(events); }
    } else {
      var events := FractionRepeats(log);
    }
  }

  // ----- Overlapping polls -------------------------------------------------------------------

  lemma ListsOne(m: Message)
    ensures ListReplies([m], None) == [m]
  {
    AllNewer([m], None);
  }

  // Two polls asked before either is answered.
  lemma {:induction false} TwoAlike(m: Message) returns (events: seq<Event>)
    ensures Possible(events)
    ensures Run(events) == Chat([m], None, [], [Answered(None, [m]), Answered(None, [m])])
  {
    hide ListReplies;
    ListsOne(m);
    RunSnoc([], Post(m));
    RunSnoc([] + [Post(m)], Start);
    RunSnoc([] + [Post(m)] + [Start], Start);
    var a := [] + [Post(m)] + [Start] + [Start];
    assert Run(a) == Chat([m], None, [], [Asked(None), Asked(None)]);
    RunSnoc(a, Serve(0));
    RunSnoc(a + [Serve(0)], Serve(1));
    events := a + [Serve(0)] + [Serve(1)];
  }

  /** Two polls that overlap show the same reply twice. */
  lemma {:induction false} OverlapDuplicates(m: Message) returns (events: seq<Event>)
    ensures Possible(events) && Run(events).log == [m] && Run(events).shown == [m, m]
  {
    hide ListReplies;
    var b := TwoAlike(m);
    RunSnoc(b, Finish(0));
    RunSnoc(b + [Finish(0)], Finish(0));
    events := b + [Finish(0)] + [Finish(0)];
  }

  // A poll answered before the second reply is stored, and one answered after.
  lemma TwoInFlight(m1: Message, m2: Message) returns (events: seq<Event>)
    requires m1.at < m2.at
    ensures Possible(events)
    ensures Run(events) == Chat([m1, m2], None, [], [Answered(None, [m1]), Answered(None, [m1, m2])])
  {
    hide ListReplies;
    ListsOne(m1);
    ListsTwo(m1, m2);
    RunSnoc([], Post(m1));
    RunSnoc([] + [Post(m1)], Start);
    var a := [] + [Post(m1)] + [Start];
    assert Run(a) == Chat([m1], None, [], [Asked(None)]);
    RunSnoc(a, Serve(0));
    assert Run(a + [Serve(0)]) == Chat([m1], None, [], [Answered(None, [m1])]);
    RunSnoc(a + [Serve(0)], Post(m2));
    RunSnoc(a + [Serve(0)] + [Post(m2)], Start);
    var b := a + [Serve(0)] + [Post(m2)] + [Start];
    assert Run(b) == Chat([m1, m2], None, [], [Answered(None, [m1]), Asked(None)]);
    RunSnoc(b, Serve(1));
    events := b + [Serve(1)];
  }

  lemma ListsTwo(m1: Message, m2: Message)
    ensures ListReplies([m1, m2], None) == [m1, m2]
  {
    AllNewer([m1, m2], None);
  }

  /** And a late answer moves the cursor back. */
  lemma OverlapMovesCursorBack(m1: Message, m2: Message) returns (events: seq<Event>)
    requires m1.at < m2.at
    ensures Possible(events) && Run(events).shown == [m1, m2, m1]
    ensures Run(events).cursor == Some(Millis(m1.at)) && Run(events[..|events| - 1]).cursor == Some(Millis(m2.at))
  {
    hide ListReplies;
    var c := TwoInFlight(m1, m2);
    RunSnoc(c, Finish(1));
    RunSnoc(c + [Finish(1)], Finish(0));
    events := c + [Finish(1)] + [Finish(0)];
    assert events[..|events| - 1] == c + [Finish(1)];
  }
}
