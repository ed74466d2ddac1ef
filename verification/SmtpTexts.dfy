/**
 The texts of the replies, besides their codes: exactly when the parser cuts none of them short, and the repair
 under which no read ever gets the wrong code or text.
 */
module SmtpTexts {
  import opened Strings
  import opened SmtpReplies
  import opened SmtpDelivery

  // ----- Replies in terminated lines ---------------------------------------------------------

  function ReplyEndingAt(lines: seq<string>, i: nat): Reply
    requires i < |lines| && Final(lines[i])
  {
    Reply(Code(lines[i]), Join(lines[..i + 1], "\n"))
  }

  function RepliesOf(lines: seq<string>): seq<Reply>
    decreases |lines|
  {
    var i := FirstFinal(lines);
    if i == |lines| then [] else [ReplyEndingAt(lines, i)] + RepliesOf(lines[i + 1..])
  }

  /** The replies of a text, each with all its lines: only terminated lines count. */
  function WholeReplies(text: string): seq<Reply> { RepliesOf(Init(Lines(text))) }

  /** Taking these replies from the front of the lines leaves the rest. */
  ghost predicate Leaves(lines: seq<string>, taken: seq<Reply>, rest: seq<string>)
    decreases |taken|
  {
    if taken == [] then lines == rest
    else
      var i := FirstFinal(lines);
      i < |lines| && taken[0] == ReplyEndingAt(lines, i) && Leaves(lines[i + 1..], taken[1..], rest)
  }

  lemma FirstFinalStays(lines: seq<string>, more: seq<string>)
    requires FirstFinal(lines) < |lines|
    ensures FirstFinal(lines + more) == FirstFinal(lines)
    ensures ReplyEndingAt(lines + more, FirstFinal(lines)) == ReplyEndingAt(lines, FirstFinal(lines))
  {
    var i := FirstFinal(lines);
    assert (lines + more)[i] == lines[i] && (lines + more)[..i + 1] == lines[..i + 1];
    assert forall j :: 0 <= j < i ==> (lines + more)[j] == lines[j];
  }

  lemma {:induction false} LeavesLonger(
      lines: seq<string>, taken: seq<Reply>, rest: seq<string>, more: seq<string>)
    requires Leaves(lines, taken, rest)
    ensures Leaves(lines + more, taken, rest + more)
    decreases |taken|
  {
    if taken != [] {
      var i := FirstFinal(lines);
      FirstFinalStays(lines, more);
      assert (lines + more)[i + 1..] == lines[i + 1..] + more;
      LeavesLonger(lines[i + 1..], taken[1..], rest, more);
    }
  }

  lemma {:induction false} LeavesNext(lines: seq<string>, taken: seq<Reply>, rest: seq<string>)
    requires Leaves(lines, taken, rest) && FirstFinal(rest) < |rest|
    ensures Leaves(lines, taken + [ReplyEndingAt(rest, FirstFinal(rest))], rest[FirstFinal(rest) + 1..])
    decreases |taken|
  {
    var reply := ReplyEndingAt(rest, FirstFinal(rest));
    if taken == [] {
      assert [reply][1..] == [];
    } else {
      LeavesNext(lines[FirstFinal(lines) + 1..], taken[1..], rest);
      assert (taken + [reply])[1..] == taken[1..] + [reply];
    }
  }

  lemma {:induction false} LeavesAll(lines: seq<string>, taken: seq<Reply>, rest: seq<string>)
    requires Leaves(lines, taken, rest)
    ensures RepliesOf(lines) == taken + RepliesOf(rest)
    decreases |taken|
  {
    if taken != [] {
      LeavesAll(lines[FirstFinal(lines) + 1..], taken[1..], rest);
      assert taken + RepliesOf(rest) == [taken[0]] + (taken[1..] + RepliesOf(rest));
    }
  }

  // ----- The books, with texts ---------------------------------------------------------------

  function TakenReplies(taken: seq<Fate>): seq<Reply> {
    seq(|taken|, i requires 0 <= i < |taken| => taken[i].reply)
  }

  /** The replies taken are the first of the text received, code and text, and the buffer holds the rest of it. */
  ghost predicate TextBooks(taken: seq<Fate>, buffer: string, received: string) {
    && Leaves(Init(Lines(received)), TakenReplies(taken), Init(Lines(buffer)))
    && Last(Lines(buffer)) == Last(Lines(received))
  }

  lemma InitAppend(lines: seq<string>, more: seq<string>)
    requires more != []
    ensures Init(lines + more) == lines + Init(more) && Last(lines + more) == Last(more)
  {
  }

  lemma DataKeepsTexts(taken: seq<Fate>, buffer: string, received: string, chunk: string)
    requires TextBooks(taken, buffer, received)
    ensures TextBooks(taken, buffer + chunk, received + chunk)
  {
    hide Lines, Leaves, Init, Last;
    var b, p := Lines(buffer), Lines(received);
    var x := Extend([Last(p)], chunk);
    AppendedLines(buffer, chunk);
    AppendedLines(received, chunk);
    LeavesLonger(Init(p), TakenReplies(taken), Init(b), Init(x));
  }

  lemma AppendedLines(text: string, chunk: string)
    ensures var x := Extend([Last(Lines(text))], chunk);
      Init(Lines(text + chunk)) == Init(Lines(text)) + Init(x) && Last(Lines(text + chunk)) == Last(x)
  {
    LinesAppend(text, chunk);
    InitAppend(Init(Lines(text)), Extend([Last(Lines(text))], chunk));
  }

  /** The parser without its flaw: an unterminated line does not end a reply. */
  function TakeWhole(buffer: string): (Option<Reply>, string) {
    var lines := Lines(buffer);
    var i := FirstFinal(Init(lines));
    if i == |Init(lines)| then (None, buffer)
    else (Some(ReplyEndingAt(Init(lines), i)), Join(lines[i + 1..], "\r\n"))
  }

  lemma LinesBehind(buffer: string, i: nat)
    requires i + 1 < |Lines(buffer)|
    ensures Lines(Join(Lines(buffer)[i + 1..], "\r\n")) == Lines(buffer)[i + 1..]
  {
    ExtendFreeOfLf([""], buffer);
    SplitAfterJoin(Lines(buffer)[i + 1..]);
  }

  lemma EndBehind(lines: seq<string>, i: nat)
    requires i + 1 < |lines|
    ensures Init(lines[i + 1..]) == Init(lines)[i + 1..] && Last(lines[i + 1..]) == Last(lines)
  {
  }

  /** It takes the next whole reply and leaves the lines behind it, the open one among them. */
  lemma TakeWholeMeaning(buffer: string)
    ensures var (reply, rest) := TakeWhole(buffer);
      var done := Init(Lines(buffer));
      && (reply.None? ==> FirstFinal(done) == |done| && rest == buffer)
      && (reply.Some? ==>
           && FirstFinal(done) < |done| && reply.value == ReplyEndingAt(done, FirstFinal(done))
           && Init(Lines(rest)) == done[FirstFinal(done) + 1..] && Last(Lines(rest)) == Last(Lines(buffer)))
  {
    hide Lines, Join, FirstFinal, Final, ReplyEndingAt;
    var lines := Lines(buffer);
    var i := FirstFinal(Init(lines));
    if i < |Init(lines)| {
      LinesBehind(buffer, i);
      EndBehind(lines, i);
    }
  }

  lemma TakeWholeKeepsTexts(taken: seq<Fate>, buffer: string, received: string, fate: Fate)
    requires TextBooks(taken, buffer, received)
    requires TakeWhole(buffer).0 == Some(fate.reply)
    ensures TextBooks(taken + [fate], TakeWhole(buffer).1, received)
  {
    hide Lines, Leaves, Init, Last, TakeWhole;
    TakeWholeMeaning(buffer);
    LeavesNext(Init(Lines(received)), TakenReplies(taken), Init(Lines(buffer)));
    assert TakenReplies(taken + [fate]) == TakenReplies(taken) + [fate.reply];
  }

  // ----- Exactly when no text is cut short ---------------------------------------------------

  /** Between replies, or inside a line that does not end one. */
  predicate Closed(text: string) { !Final(Last(Lines(text))) }

  /** As long as the open line does not read like the end of a reply, the two parsers agree. */
  lemma SameTake(buffer: string)
    requires Closed(buffer)
    ensures Take(buffer) == TakeWhole(buffer) && Closed(Take(buffer).1)
  {
    hide Final, Lines, Join, FirstFinal;
    FirstFinalOfInit(Lines(buffer));
    if FirstFinal(Init(Lines(buffer))) < |Init(Lines(buffer))| { SameReply(Lines(buffer)); }
    TakeWholeMeaning(buffer);
  }

  lemma FirstFinalOfInit(lines: seq<string>)
    requires lines != [] && !Final(Last(lines))
    ensures var i := FirstFinal(Init(lines)); FirstFinal(lines) == if i < |Init(lines)| then i else |lines|
  {
    hide Final;
    assert forall j :: 0 <= j < |lines| - 1 ==> Init(lines)[j] == lines[j];
  }

  lemma SameReply(lines: seq<string>)
    requires lines != [] && FirstFinal(Init(lines)) < |Init(lines)|
    ensures FirstFinal(lines) == FirstFinal(Init(lines))
    ensures ReplyEndingAt(lines, FirstFinal(lines)) == ReplyEndingAt(Init(lines), FirstFinal(lines))
  {
    assert lines == Init(lines) + [Last(lines)];
    FirstFinalStays(Init(lines), [Last(lines)]);
  }

  lemma {:induction false} FlushKeepsTexts(s: Session, received: string)
    requires TextBooks(s.taken, s.buffer, received) && Closed(received)
    ensures TextBooks(Flush(s).taken, Flush(s).buffer, received)
    decreases |s.waiters|
  {
    hide TextBooks, TakeWhole;
    ClosedBuffer(s.taken, s.buffer, received);
    SameTake(s.buffer);
    var (reply, rest) := Take(s.buffer);
    if reply.Some? {
      var fate := if s.waiters == [] then Dropped(reply.value) else Delivered(s.waiters[0], reply.value);
      TakeWholeKeepsTexts(s.taken, s.buffer, received, fate);
      if s.waiters != [] {
        FlushKeepsTexts(s.(buffer := rest, waiters := s.waiters[1..], taken := s.taken + [fate]), received);
      }
    }
  }

  lemma ClosedBuffer(taken: seq<Fate>, buffer: string, received: string)
    requires TextBooks(taken, buffer, received)
    ensures Closed(buffer) <==> Closed(received)
  {
  }

  /** After every event the replies taken are the stream's first, code and text. */
  ghost predicate TextsThroughout(s: Session, received: string, events: seq<Event>)
    decreases |events|
  {
    && TextBooks(s.taken, s.buffer, received)
    && (events != [] ==> TextsThroughout(Step(s, events[0]), received + ChunkOf(events[0]), events[1..]))
  }

  function ChunkOf(e: Event): string { if e.Data? then e.chunk else "" }

  /** Whatever has been received at a data event, its open line does not read like the end of a reply. */
  predicate ClosedThroughout(received: string, events: seq<Event>)
    decreases |events|
  {
    events != [] ==>
      && (events[0].Data? ==> Closed(received + events[0].chunk))
      && ClosedThroughout(received + ChunkOf(events[0]), events[1..])
  }

  lemma EmptyIsClosed()
    ensures Closed("") && Lines("") == [""]
  {
  }

  // An open line that reads like the end of a reply is taken as one, and the buffer forgets that it is open.
  lemma OpenReplyBreaks(s: Session, received: string, chunk: string)
    requires TextBooks(s.taken, s.buffer, received) && !Closed(received + chunk)
    requires |Replies(s.buffer + chunk)| <= |s.waiters|
    ensures var next := Step(s, Data(chunk)); !TextBooks(next.taken, next.buffer, received + chunk)
  {
    var now := s.(buffer := s.buffer + chunk);
    DataKeepsTexts(s.taken, s.buffer, received, chunk);
    DrainedToTheEnd(now);
    EmptyIsClosed();
  }

  lemma ReadKeepsTexts(s: Session, received: string)
    requires TextBooks(s.taken, s.buffer, received) && Closed(received)
    ensures TextBooks(Step(s, Read).taken, Step(s, Read).buffer, received)
  {
    ClosedBuffer(s.taken, s.buffer, received);
    SameTake(s.buffer);
    var (reply, _) := Take(s.buffer);
    if reply.Some? { TakeWholeKeepsTexts(s.taken, s.buffer, received, Delivered(s.issued, reply.value)); }
  }

  /**
   With a read waiting for each reply, all replies keep their codes and texts after every event exactly when no data
   event ends inside the last line of a reply, past its code. This holds of every stream.
   */
  lemma {:induction false} TextsIff(s: Session, received: string, events: seq<Event>)
    requires TextBooks(s.taken, s.buffer, received) && Closed(received) && WaiterPerReply(s, events)
    ensures TextsThroughout(s, received, events) <==> ClosedThroughout(received, events)
    decreases |events|
  {
    hide TextBooks, Closed, Step, Replies, Lines;
    if events != [] {
      var e := events[0];
      match e {
        case Data(chunk) =>
          if Closed(received + chunk) {
            DataKeepsTexts(s.taken, s.buffer, received, chunk);
            DataStep(s, chunk);
            FlushKeepsTexts(s.(buffer := s.buffer + chunk), received + chunk);
            TextsIff(Step(s, e), received + chunk, events[1..]);
          } else {
            OpenReplyBreaks(s, received, chunk);
            assert !TextsThroughout(Step(s, e), received + chunk, events[1..]);
          }
        case Read =>
          assert received + "" == received;
          ReadKeepsTexts(s, received);
          TextsIff(Step(s, e), received, events[1..]);
      }
    }
  }

  lemma {:induction false} TextsAtEnd(s: Session, received: string, events: seq<Event>)
    requires TextsThroughout(s, received, events)
    ensures TextBooks(Run(s, events).taken, Run(s, events).buffer, received + Stream(events))
    decreases |events|
  {
    hide TextBooks, Step;
    if events == [] {
      assert received + "" == received;
    } else {
      assert received + Stream(events) == received + ChunkOf(events[0]) + Stream(events[1..]);
      TextsAtEnd(Step(s, events[0]), received + ChunkOf(events[0]), events[1..]);
    }
  }

  /** So when both hold, the i-th read gets the i-th reply of the stream with its code and its whole text. */
  lemma TextsLossless(events: seq<Event>)
    requires WaiterPerReply(FRESH, events) && ClosedThroughout("", events)
    ensures var taken, replies := Run(FRESH, events).taken, WholeReplies(Stream(events));
      |taken| == |replies| && forall i :: 0 <= i < |taken| ==> taken[i] == Delivered(i, replies[i])
  {
    hide Run, Lines, Leaves, RepliesOf, Replies, WaiterPerReply, ClosedThroughout, TextsThroughout;
    FreshBooks();
    TextsIff(FRESH, "", events);
    assert "" + Stream(events) == Stream(events);
    TextsAtEnd(FRESH, "", events);
    DeliveredInOrder(events);
    var s := Run(FRESH, events);
    LeavesAll(Init(Lines(Stream(events))), TakenReplies(s.taken), Init(Lines(s.buffer)));
    NothingComplete(s.buffer);
    assert |TakenReplies(s.taken)| == |s.taken|;
    assert forall i :: 0 <= i < |s.taken| ==> TakenReplies(s.taken)[i] == s.taken[i].reply;
  }

  lemma FreshBooks()
    ensures TextBooks(FRESH.taken, FRESH.buffer, "") && Closed("")
  {
    EmptyIsClosed();
  }

  lemma NothingComplete(buffer: string)
    requires Replies(buffer) == []
    ensures RepliesOf(Init(Lines(buffer))) == []
  {
    var lines := Lines(buffer);
    TakeMeaning(buffer);
    assert FirstFinal(lines) == |lines|;
    assert forall j :: 0 <= j < |lines| - 1 ==> Init(lines)[j] == lines[j];
  }

  lemma DataStep(s: Session, chunk: string)
    ensures Step(s, Data(chunk)) == Flush(s.(buffer := s.buffer + chunk))
  {
  }

  // ----- The repaired reader -----------------------------------------------------------------

  /** flushWaiters with the waiter looked for first, over the parser that waits for whole lines. */
  function WholeFlush(s: Session): Session
    decreases |s.waiters|
  {
    var (reply, rest) := TakeWhole(s.buffer);
    if s.waiters == [] || reply.None? then s
    else WholeFlush(s.(buffer := rest, waiters := s.waiters[1..],
                       taken := s.taken + [Delivered(s.waiters[0], reply.value)]))
  }

  function WholeStep(s: Session, e: Event): Session {
    match e
    case Data(chunk) => WholeFlush(s.(buffer := s.buffer + chunk))
    case Read =>
      var (reply, rest) := TakeWhole(s.buffer);
      if reply.Some? then
        s.(buffer := rest, issued := s.issued + 1, taken := s.taken + [Delivered(s.issued, reply.value)])
      else
        s.(issued := s.issued + 1, waiters := s.waiters + [s.issued])
  }

  function WholeRun(s: Session, events: seq<Event>): Session
    decreases |events|
  {
    if events == [] then s else WholeRun(WholeStep(s, events[0]), events[1..])
  }

  /** The i-th reply taken went to the i-th read, and the reads after those are waiting, in order. */
  ghost predicate Queued(s: Session) {
    && |s.taken| + |s.waiters| == s.issued
    && (forall i :: 0 <= i < |s.taken| ==> s.taken[i].Delivered? && s.taken[i].read == i)
    && (forall i :: 0 <= i < |s.waiters| ==> s.waiters[i] == |s.taken| + i)
  }

  /** And a read waits only when no whole reply is in the buffer. */
  ghost predicate WholeSound(s: Session, received: string) {
    TextBooks(s.taken, s.buffer, received) && Queued(s) && (s.waiters != [] ==> TakeWhole(s.buffer).0.None?)
  }

  lemma {:induction false} WholeFlushSound(s: Session, received: string)
    requires TextBooks(s.taken, s.buffer, received) && Queued(s)
    ensures WholeSound(WholeFlush(s), received) && WholeFlush(s).issued == s.issued
    decreases |s.waiters|
  {
    hide TextBooks, TakeWhole;
    var (reply, rest) := TakeWhole(s.buffer);
    if s.waiters != [] && reply.Some? {
      var fate := Delivered(s.waiters[0], reply.value);
      TakeWholeKeepsTexts(s.taken, s.buffer, received, fate);
      WholeFlushSound(s.(buffer := rest, waiters := s.waiters[1..], taken := s.taken + [fate]), received);
    }
  }

  lemma WholeStepSound(s: Session, received: string, e: Event)
    requires WholeSound(s, received)
    ensures WholeSound(WholeStep(s, e), received + ChunkOf(e))
  {
    hide TextBooks, TakeWhole;
    match e {
      case Data(chunk) =>
        DataKeepsTexts(s.taken, s.buffer, received, chunk);
        WholeFlushSound(s.(buffer := s.buffer + chunk), received + chunk);
      case Read =>
        assert received + "" == received;
        if TakeWhole(s.buffer).0.Some? {
          TakeWholeKeepsTexts(s.taken, s.buffer, received, Delivered(s.issued, TakeWhole(s.buffer).0.value));
        }
    }
  }

  lemma {:induction false} WholeRunSound(s: Session, received: string, events: seq<Event>)
    requires WholeSound(s, received)
    ensures WholeSound(WholeRun(s, events), received + Stream(events))
    decreases |events|
  {
    hide WholeSound, WholeStep;
    if events == [] {
      assert received + "" == received;
    } else {
      assert received + Stream(events) == received + ChunkOf(events[0]) + Stream(events[1..]);
      WholeStepSound(s, received, events[0]);
      WholeRunSound(WholeStep(s, events[0]), received + ChunkOf(events[0]), events[1..]);
    }
  }

  /**
   With both repairs, for every stream, chunking and interleaving, the i-th read gets the i-th reply with its code and
   its whole text, as soon as both are there.
   */
  lemma WholeLossless(events: seq<Event>)
    ensures var s, replies := WholeRun(FRESH, events), WholeReplies(Stream(events));
      && |s.taken| == Min(s.issued, |replies|)
      && forall i :: 0 <= i < |s.taken| ==> s.taken[i] == Delivered(i, replies[i])
  {
    hide WholeRun, TakeWhole, Lines, Leaves, RepliesOf;
    FreshSound();
    assert "" + Stream(events) == Stream(events);
    WholeRunSound(FRESH, "", events);
    var s := WholeRun(FRESH, events);
    LeavesAll(Init(Lines(Stream(events))), TakenReplies(s.taken), Init(Lines(s.buffer)));
    if s.waiters != [] { NothingWhole(s.buffer); }
    assert |TakenReplies(s.taken)| == |s.taken|;
    assert forall i :: 0 <= i < |s.taken| ==> TakenReplies(s.taken)[i] == s.taken[i].reply;
  }

  lemma FreshSound()
    ensures WholeSound(FRESH, "")
  {
    FreshBooks();
  }

  lemma NothingWhole(buffer: string)
    requires TakeWhole(buffer).0.None?
    ensures RepliesOf(Init(Lines(buffer))) == []
  {
    TakeWholeMeaning(buffer);
  }
}
