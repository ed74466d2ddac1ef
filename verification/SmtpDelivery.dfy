/**
 Which reads get which replies, over every interleaving of data events and reads and every way
 the network cuts the server's text into chunks.
 */
module SmtpDelivery {
  import opened Strings
  import opened SmtpReplies

  function Last(lines: seq<string>): string
    requires lines != []
  { lines[|lines| - 1] }

  function Init(lines: seq<string>): seq<string>
    requires lines != []
  { lines[..|lines| - 1] }

  /** No tail of a reply's last line reads like the last line of another reply. */
  ghost predicate LineSafe(line: string) {
    Final(line) ==> forall k :: 4 <= k <= |line| ==> !Final(line[k..])
  }

  ghost predicate TailSafe(stream: string) {
    forall i :: 0 <= i < |Lines(stream)| ==> LineSafe(Lines(stream)[i])
  }

  // What is left of a reply's last line once the reply has been taken.
  ghost predicate TailOf(tail: string, line: string) {
    Final(line) && |tail| + 4 <= |line| && tail == line[|line| - |tail|..]
  }

  // The buffer's open line is the stream's, or the unread rest of one already taken as a reply.
  ghost predicate Follows(open: string, streamOpen: string) {
    open == streamOpen || TailOf(open, streamOpen)
  }

  ghost predicate Books(taken: seq<nat>, buffered: seq<string>, received: seq<string>)
    requires buffered != [] && received != []
  {
    && taken + Codes(buffered) == Codes(received)
    && Follows(Last(buffered), Last(received))
  }

  /** Taken replies and those still in the buffer are together the replies of the text so far. */
  ghost predicate Accounts(s: Session, received: string) {
    Books(TakenCodes(s.taken), Lines(s.buffer), Lines(received))
  }

  lemma CodesSnoc(lines: seq<string>)
    requires lines != []
    ensures Codes(lines) == Codes(Init(lines)) + (if Final(Last(lines)) then [Code(Last(lines))] else [])
  {
    assert lines == Init(lines) + [Last(lines)];
    CodesConcat(Init(lines), [Last(lines)]);
  }

  lemma CloseLine(line: string, text: string)
    requires text != "" && text[0] == '\n'
    ensures Extend([line], text) == [DropCr(line)] + Extend([""], text[1..])
  {
    assert PushChar([line], '\n') == [DropCr(line)] + [""];
    ExtendPrefix([DropCr(line)], [""], text[1..]);
  }

  lemma {:induction false} ExtendHead(line: string, text: string)
    ensures var h := Extend([line], text)[0]; line <= h || line == h + "\r"
    decreases |text|
  {
    if text == "" {
    } else if text[0] == '\n' {
      CloseLine(line, text);
      assert line == DropCr(line) || line == DropCr(line) + "\r";
    } else {
      assert PushChar([line], text[0]) == [line + [text[0]]];
      ExtendHead(line + [text[0]], text[1..]);
      var h := Extend([line], text)[0];
      if line + [text[0]] == h + "\r" {
        assert h == (h + "\r")[..|h|] == line;
      } else {
        assert line == (line + [text[0]])[..|line|];
      }
    }
  }

  lemma TailOfPush(tail: string, line: string, c: char)
    requires TailOf(tail, line)
    ensures TailOf(tail + [c], line + [c]) && Final(line) && Final(line + [c]) && Code(line + [c]) == Code(line)
    ensures Final(tail) ==> Final(tail + [c])
  {
    assert (line + [c])[|line| - |tail|..] == line[|line| - |tail|..] + [c];
  }

  lemma TailOfDropCr(tail: string, line: string)
    requires TailOf(tail, line)
    ensures TailOf(DropCr(tail), DropCr(line)) && Final(line) && Final(DropCr(line)) && Code(DropCr(line)) == Code(line)
    ensures Final(tail) ==> Final(DropCr(tail))
  {
    var t, l := DropCr(tail), DropCr(line);
    assert tail == "" || tail[|tail| - 1] == line[|line| - 1];
    assert t == l[|l| - |t|..];
  }

  // Text after an open reply line, and after an unread rest of that line, differs in the first line only.
  lemma {:induction false} ExtendTail(line: string, tail: string, text: string)
    requires TailOf(tail, line)
    ensures var x, y := Extend([line], text), Extend([tail], text);
      && x[1..] == y[1..] && TailOf(y[0], x[0]) && Final(line) && Code(x[0]) == Code(line)
      && (Final(tail) ==> Final(y[0]))
    decreases |text|
  {
    hide DropCr, Code;
    if text == "" {
    } else if text[0] == '\n' {
      CloseLine(line, text);
      CloseLine(tail, text);
      TailOfDropCr(tail, line);
    } else {
      var line', tail' := line + [text[0]], tail + [text[0]];
      assert PushChar([line], text[0]) == [line'] && PushChar([tail], text[0]) == [tail'];
      TailOfPush(tail, line, text[0]);
      ExtendTail(line', tail', text[1..]);
    }
  }

  // A safe line was safe before it was complete.
  lemma SafeStart(line: string, whole: string)
    requires LineSafe(whole) && (line <= whole || line == whole + "\r")
    ensures LineSafe(line)
  {
    forall k | 4 <= k <= |line| && Final(line) ensures !Final(line[k..]) {
      if Final(line[k..]) { assert Final(whole[k..]); }
    }
  }

  lemma SafePrefix(p: string, q: string)
    requires TailSafe(p + q)
    ensures TailSafe(p)
  {
    hide Lines, LineSafe;
    LinesAppend(p, q);
    var ls, all := Lines(p), Lines(p + q);
    forall i | 0 <= i < |ls| ensures LineSafe(ls[i]) {
      if i < |ls| - 1 {
        assert ls[i] == all[i];
      } else {
        ExtendHead(ls[i], q);
        assert Extend([ls[i]], q)[0] == all[i];
        SafeStart(ls[i], all[i]);
      }
    }
  }

  lemma ReplaceEnd<T>(t: seq<T>, a: seq<T>, b: seq<T>, l: seq<T>, x: seq<T>)
    requires t + (a + l) == b + l
    ensures t + (a + x) == b + x
  {
    assert |t + (a + l)| == |b + l|;
    assert t + a == (t + (a + l))[..|b|] == b;
    assert t + (a + x) == (t + a) + x;
  }

  // Replacing both open lines by what one chunk makes of them keeps the books balanced.
  lemma BooksBalanceSame(t: seq<nat>, b: seq<string>, p: seq<string>, x: seq<string>)
    requires b != [] && p != [] && Last(b) == Last(p)
    requires t + Codes(b) == Codes(p)
    ensures t + Codes(Init(b) + x) == Codes(Init(p) + x)
  {
    CodesSnoc(p);
    CodesSnoc(b);
    ReplaceEnd(t, Codes(Init(b)), Codes(Init(p)), if Final(Last(p)) then [Code(Last(p))] else [], Codes(x));
    CodesConcat(Init(p), x);
    CodesConcat(Init(b), x);
  }

  lemma SplitEnd<T>(t: seq<T>, a: seq<T>, b: seq<T>, c: T, x: seq<T>)
    requires t + (a + []) == b + [c]
    ensures t + (a + x) == b + ([c] + x)
  {
    assert t + a == t + (a + []);
    assert t + (a + x) == (t + a) + x;
  }

  lemma BooksBalanceTail(t: seq<nat>, b: seq<string>, p: seq<string>, y: seq<string>, x: seq<string>)
    requires b != [] && p != [] && x != [] && y != []
    requires t + Codes(b) == Codes(p)
    requires Final(Last(p)) && !Final(Last(b)) && Final(x[0]) && Code(x[0]) == Code(Last(p))
    requires !Final(y[0]) && y[1..] == x[1..]
    ensures t + Codes(Init(b) + y) == Codes(Init(p) + x)
  {
    CodesSnoc(p);
    CodesSnoc(b);
    SplitEnd(t, Codes(Init(b)), Codes(Init(p)), Code(Last(p)), Codes(x[1..]));
    CodesConcat(Init(p), x);
    CodesConcat(Init(b), y);
  }

  // y and x are what one chunk makes of the open lines of the buffer (b) and of the stream (p).
  ghost predicate ChunkRelated(b: seq<string>, p: seq<string>, y: seq<string>, x: seq<string>)
    requires b != [] && p != [] && x != [] && y != []
  {
    && Follows(Last(y), Last(x))
    && (|| (Last(b) == Last(p) && y == x)
        || (Final(Last(p)) && !Final(Last(b)) && Final(x[0])
            && Code(x[0]) == Code(Last(p)) && !Final(y[0]) && y[1..] == x[1..]))
  }

  lemma ChunkBalances(t: seq<nat>, b: seq<string>, p: seq<string>, y: seq<string>, x: seq<string>)
    requires b != [] && p != [] && x != [] && y != [] && ChunkRelated(b, p, y, x)
    requires Books(t, b, p)
    ensures Books(t, Init(b) + y, Init(p) + x)
  {
    if Last(b) == Last(p) && y == x {
      BooksBalanceSame(t, b, p, x);
    } else {
      BooksBalanceTail(t, b, p, y, x);
    }
  }

  lemma SafeLine(stream: string, i: nat)
    requires TailSafe(stream) && i < |Lines(stream)|
    ensures LineSafe(Lines(stream)[i])
  {
  }

  // The rest of a safe reply line does not read like a reply.
  lemma TailUnsafe(tail: string, line: string)
    requires TailOf(tail, line) && LineSafe(line)
    ensures Final(line) && !Final(tail)
  {
  }

  lemma ChunkFollows(received: string, buffer: string, chunk: string)
    requires Follows(Last(Lines(buffer)), Last(Lines(received))) && TailSafe(received + chunk)
    ensures var p, b := Lines(received), Lines(buffer);
      ChunkRelated(b, p, Extend([Last(b)], chunk), Extend([Last(p)], chunk))
  {
    hide TailSafe, Lines, Final, TailOf, Code, Extend, LineSafe;
    var p, b := Lines(received), Lines(buffer);
    if Last(b) != Last(p) {
      ExtendTail(Last(p), Last(b), chunk);
      LinesAppend(received, chunk);
      var x, y := Extend([Last(p)], chunk), Extend([Last(b)], chunk);
      assert x[0] == Lines(received + chunk)[|p| - 1];
      SafeLine(received + chunk, |p| - 1);
      TailUnsafe(y[0], x[0]);
      assert |x| > 1 ==> Last(x) == Last(x[1..]) && Last(y) == Last(y[1..]);
    }
  }

  lemma BooksAfterChunk(t: seq<nat>, received: string, buffer: string, chunk: string)
    requires Books(t, Lines(buffer), Lines(received)) && TailSafe(received + chunk)
    ensures Books(t, Lines(buffer + chunk), Lines(received + chunk))
  {
    ChunkFollows(received, buffer, chunk);
    var p, b := Lines(received), Lines(buffer);
    ChunkBalances(t, b, p, Extend([Last(b)], chunk), Extend([Last(p)], chunk));
    LinesAppend(received, chunk);
    LinesAppend(buffer, chunk);
  }

  lemma DataAccounts(s: Session, received: string, chunk: string)
    requires Accounts(s, received) && TailSafe(received + chunk)
    ensures Accounts(s.(buffer := s.buffer + chunk), received + chunk)
  {
    BooksAfterChunk(TakenCodes(s.taken), received, s.buffer, chunk);
  }

  lemma RestLines(buffer: string)
    requires FirstFinal(Lines(buffer)) < |Lines(buffer)|
    ensures var i := FirstFinal(Lines(buffer));
      Lines(Join(Lines(buffer)[i + 1..], "\r\n")) ==
        if i + 1 == |Lines(buffer)| then [""] else Lines(buffer)[i + 1..]
  {
    var lines := Lines(buffer);
    var i := FirstFinal(lines);
    ExtendFreeOfLf([""], buffer);
    if i + 1 < |lines| {
      SplitAfterJoin(lines[i + 1..]);
    } else {
      assert lines[i + 1..] == [];
    }
  }

  /** What one takeResponse does to the replies in the buffer. */
  lemma TakeMeaning(buffer: string)
    ensures var (reply, rest) := Take(buffer);
      && (reply.None? ==> Codes(Lines(buffer)) == [] && rest == buffer)
      && (reply.Some? ==> Codes(Lines(buffer)) == [reply.value.code] + Codes(Lines(rest)))
  {
    CodesFromFirst(Lines(buffer));
    if FirstFinal(Lines(buffer)) < |Lines(buffer)| { RestLines(buffer); }
  }

  // A rest that reads like a reply of its own would make the stream unsafe.
  lemma EmptyFollows(open: string, streamOpen: string)
    requires Follows(open, streamOpen) && LineSafe(streamOpen) && Final(open)
    ensures Follows("", streamOpen)
  {
    assert streamOpen[|streamOpen|..] == "";
  }

  lemma TakeFollows(buffer: string, streamOpen: string)
    requires Follows(Last(Lines(buffer)), streamOpen) && LineSafe(streamOpen) && Take(buffer).0.Some?
    ensures Follows(Last(Lines(Take(buffer).1)), streamOpen)
  {
    hide Lines, Join, FirstFinal, Final, LineSafe;
    var lines := Lines(buffer);
    RestLines(buffer);
    if FirstFinal(lines) + 1 == |lines| {
      EmptyFollows(Last(lines), streamOpen);
    }
  }

  lemma TakeAccounts(s: Session, received: string, fate: Fate)
    requires Accounts(s, received) && TailSafe(received)
    requires Take(s.buffer).0.Some? && fate.reply == Take(s.buffer).0.value
    ensures Accounts(s.(buffer := Take(s.buffer).1, taken := s.taken + [fate]), received)
  {
    TakeMeaning(s.buffer);
    TakeFollows(s.buffer, Last(Lines(received)));
    TakenSnoc(s.taken, fate, Codes(Lines(Take(s.buffer).1)));
  }

  lemma TakenSnoc(taken: seq<Fate>, fate: Fate, more: seq<nat>)
    ensures TakenCodes(taken + [fate]) + more == TakenCodes(taken) + ([fate.reply.code] + more)
  {
    assert TakenCodes(taken + [fate]) == TakenCodes(taken) + [fate.reply.code];
  }

  lemma {:induction false} FlushAccounts(s: Session, received: string)
    requires Accounts(s, received) && TailSafe(received)
    ensures Accounts(Flush(s), received)
    decreases |s.waiters|
  {
    var (reply, rest) := Take(s.buffer);
    if reply.Some? {
      var fate := if s.waiters == [] then Dropped(reply.value) else Delivered(s.waiters[0], reply.value);
      TakeAccounts(s, received, fate);
      if s.waiters != [] {
        FlushAccounts(s.(buffer := rest, waiters := s.waiters[1..], taken := s.taken + [fate]), received);
      }
    }
  }

  lemma {:induction false} RunAccounts(s: Session, received: string, events: seq<Event>)
    requires Accounts(s, received) && TailSafe(received + Stream(events))
    ensures Accounts(Run(s, events), received + Stream(events))
    decreases |events|
  {
    if events == [] {
      assert received + "" == received;
    } else {
      var chunk := if events[0].Data? then events[0].chunk else "";
      assert received + Stream(events) == received + chunk + Stream(events[1..]);
      SafePrefix(received + chunk, Stream(events[1..]));
      match events[0] {
        case Data(_) =>
          DataAccounts(s, received, chunk);
          FlushAccounts(s.(buffer := s.buffer + chunk), received + chunk);
        case Read =>
          assert received + chunk == received;
          var (reply, rest) := Take(s.buffer);
          if reply.Some? { TakeAccounts(s, received, Delivered(s.issued, reply.value)); }
      }
      RunAccounts(Step(s, events[0]), received + chunk, events[1..]);
    }
  }

  /** No reply is duplicated, invented or reordered, however the stream is cut and the reads fall. */
  lemma Conservation(events: seq<Event>)
    requires TailSafe(Stream(events))
    ensures var s := Run(FRESH, events);
      TakenCodes(s.taken) + Codes(Lines(s.buffer)) == Codes(Lines(Stream(events)))
  {
    assert Accounts(FRESH, "");
    assert "" + Stream(events) == Stream(events);
    RunAccounts(FRESH, "", events);
  }

  // ----- Waiters -----------------------------------------------------------------------------

  /** The complete replies in the buffer, in order. */
  function Replies(buffer: string): seq<Reply>
    decreases |Codes(Lines(buffer))|
  {
    TakeMeaning(buffer);
    var (reply, rest) := Take(buffer);
    if reply.None? then [] else [reply.value] + Replies(rest)
  }

  lemma NoRepliesYet()
    ensures Replies("") == []
  {
    assert Lines("") == [""];
    TakeMeaning("");
  }

  lemma TakesReply(buffer: string)
    ensures var (reply, rest) := Take(buffer);
      Replies(buffer) == if reply.None? then [] else [reply.value] + Replies(rest)
  {
    TakeMeaning(buffer);
  }

  lemma {:induction false} RepliesHaveCodes(buffer: string)
    ensures |Replies(buffer)| == |Codes(Lines(buffer))|
    ensures forall i :: 0 <= i < |Replies(buffer)| ==> Replies(buffer)[i].code == Codes(Lines(buffer))[i]
    decreases |Codes(Lines(buffer))|
  {
    TakeMeaning(buffer);
    if Take(buffer).0.Some? { RepliesHaveCodes(Take(buffer).1); }
  }

  /** Waiters are served in order; the first reply beyond them is lost and the rest stay buffered. */
  function Assign(waiters: seq<nat>, replies: seq<Reply>): (r: seq<Fate>)
    ensures |r| == if |replies| <= |waiters| then |replies| else |waiters| + 1
    ensures forall i :: 0 <= i < |r| ==>
      r[i] == if i < |waiters| then Delivered(waiters[i], replies[i]) else Dropped(replies[i])
  {
    if replies == [] then []
    else if waiters == [] then [Dropped(replies[0])]
    else [Delivered(waiters[0], replies[0])] + Assign(waiters[1..], replies[1..])
  }

  /** t is s after replies have been served; left are the replies still buffered in t. */
  ghost predicate Served(s: Session, replies: seq<Reply>, t: Session, left: seq<Reply>) {
    var fates := Assign(s.waiters, replies);
    && t.taken == s.taken + fates
    && left == replies[|fates|..]
    && t.waiters == (if |fates| <= |s.waiters| then s.waiters[|fates|..] else [])
    && t.issued == s.issued
  }

  lemma {:induction false} FlushOutcome(s: Session)
    ensures Served(s, Replies(s.buffer), Flush(s), Replies(Flush(s).buffer))
    decreases |s.waiters|
  {
    hide Take, Replies;
    TakesReply(s.buffer);
    var (reply, rest) := Take(s.buffer);
    if reply.Some? && s.waiters != [] {
      var s' := s.(buffer := rest, waiters := s.waiters[1..],
                   taken := s.taken + [Delivered(s.waiters[0], reply.value)]);
      FlushOutcome(s');
      assert Replies(s.buffer)[1..] == Replies(rest);
    }
  }

  /** At every data event there are at least as many queued reads as replies in the buffer. */
  ghost predicate WaiterPerReply(s: Session, events: seq<Event>)
    decreases |events|
  {
    events != [] ==>
      && (events[0].Data? ==> |Replies(s.buffer + events[0].chunk)| <= |s.waiters|)
      && WaiterPerReply(Step(s, events[0]), events[1..])
  }

  ghost predicate NothingDropped(taken: seq<Fate>) {
    forall i :: 0 <= i < |taken| ==> taken[i].Delivered?
  }

  lemma DropAppears(before: seq<Fate>, waiters: seq<nat>, replies: seq<Reply>)
    ensures NothingDropped(before + Assign(waiters, replies)) <==>
      NothingDropped(before) && |replies| <= |waiters|
  {
    var fates := Assign(waiters, replies);
    var all := before + fates;
    assert forall i :: 0 <= i < |before| ==> before[i] == all[i];
    assert forall i :: 0 <= i < |fates| ==> fates[i] == all[|before| + i];
    assert |replies| > |waiters| ==> fates[|waiters|].Dropped?;
  }

  lemma StepGrows(s: Session, e: Event)
    ensures s.taken <= Step(s, e).taken
    ensures NothingDropped(Step(s, e).taken) <==>
      NothingDropped(s.taken) && (e.Data? ==> |Replies(s.buffer + e.chunk)| <= |s.waiters|)
  {
    if e.Data? {
      FlushOutcome(s.(buffer := s.buffer + e.chunk));
      DropAppears(s.taken, s.waiters, Replies(s.buffer + e.chunk));
    } else {
      var fates := Step(s, e).taken[|s.taken|..];
      assert Step(s, e).taken == s.taken + fates;
      assert forall i :: 0 <= i < |s.taken| ==> s.taken[i] == Step(s, e).taken[i];
    }
  }

  lemma {:induction false} DropsExactly(s: Session, events: seq<Event>)
    ensures NothingDropped(Run(s, events).taken) <==> NothingDropped(s.taken) && WaiterPerReply(s, events)
    decreases |events|
  {
    if events != [] {
      StepGrows(s, events[0]);
      DropsExactly(Step(s, events[0]), events[1..]);
    }
  }

  function Deliveries(taken: seq<Fate>): nat {
    if taken == [] then 0
    else Deliveries(taken[..|taken| - 1]) + if taken[|taken| - 1].Delivered? then 1 else 0
  }

  ghost predicate ReadsInOrder(taken: seq<Fate>) {
    forall j :: 0 <= j < |taken| && taken[j].Delivered? ==> taken[j].read == Deliveries(taken[..j])
  }

  /** Reads are answered in the order they were issued, and the unanswered ones wait in that order. */
  ghost predicate InQueue(s: Session) {
    && Deliveries(s.taken) + |s.waiters| == s.issued
    && (forall i :: 0 <= i < |s.waiters| ==> s.waiters[i] == Deliveries(s.taken) + i)
    && ReadsInOrder(s.taken)
  }

  /** And a queued read means no reply is waiting. */
  ghost predicate InOrder(s: Session) {
    InQueue(s) && (s.waiters != [] ==> Replies(s.buffer) == [])
  }

  /** A session that has dropped nothing: its books balance and its reads are in order. */
  ghost predicate Sound(s: Session, received: string) {
    Accounts(s, received) && NothingDropped(s.taken) && InOrder(s)
  }

  lemma OneMoreInOrder(taken: seq<Fate>, fate: Fate)
    requires ReadsInOrder(taken) && (fate.Delivered? ==> fate.read == Deliveries(taken))
    ensures ReadsInOrder(taken + [fate])
    ensures Deliveries(taken + [fate]) == Deliveries(taken) + if fate.Delivered? then 1 else 0
  {
    var all := taken + [fate];
    assert all[..|all| - 1] == taken;
    forall j | 0 <= j < |all| && all[j].Delivered? ensures all[j].read == Deliveries(all[..j]) {
      assert j < |taken| ==> all[..j] == taken[..j];
    }
  }

  lemma {:induction false} FlushInOrder(s: Session)
    requires InQueue(s)
    ensures InOrder(Flush(s))
    decreases |s.waiters|
  {
    hide Take, Replies, ReadsInOrder, Deliveries;
    TakesReply(s.buffer);
    var (reply, rest) := Take(s.buffer);
    if reply.Some? {
      var fate := if s.waiters == [] then Dropped(reply.value) else Delivered(s.waiters[0], reply.value);
      OneMoreInOrder(s.taken, fate);
      if s.waiters != [] {
        FlushInOrder(s.(buffer := rest, waiters := s.waiters[1..], taken := s.taken + [fate]));
      }
    }
  }

  lemma StepInOrder(s: Session, e: Event)
    requires InOrder(s)
    ensures InOrder(Step(s, e))
  {
    match e {
      case Data(chunk) =>
        FlushInOrder(s.(buffer := s.buffer + chunk));
      case Read =>
        var (reply, _) := Take(s.buffer);
        if reply.Some? { OneMoreInOrder(s.taken, Delivered(s.issued, reply.value)); }
    }
  }

  /** Whatever the interleaving, replies that are delivered go to the oldest unanswered read. */
  lemma {:induction false} FifoAlways(s: Session, events: seq<Event>)
    requires InOrder(s)
    ensures InOrder(Run(s, events))
    decreases |events|
  {
    if events != [] {
      StepInOrder(s, events[0]);
      FifoAlways(Step(s, events[0]), events[1..]);
    }
  }

  lemma {:induction false} DeliveriesAll(taken: seq<Fate>)
    requires NothingDropped(taken)
    ensures Deliveries(taken) == |taken|
  {
    if taken != [] { DeliveriesAll(taken[..|taken| - 1]); }
  }

  lemma {:induction false} NothingLeft(s: Session, events: seq<Event>)
    requires Replies(s.buffer) == [] && WaiterPerReply(s, events)
    ensures Replies(Run(s, events).buffer) == []
    decreases |events|
  {
    if events != [] {
      if events[0].Data? {
        FlushOutcome(s.(buffer := s.buffer + events[0].chunk));
      }
      NothingLeft(Step(s, events[0]), events[1..]);
    }
  }

  /** The i-th read got the i-th reply of the stream, and no reply of the stream is unread. */
  ghost predicate Lossless(events: seq<Event>) {
    var taken, codes := Run(FRESH, events).taken, Codes(Lines(Stream(events)));
    && |taken| == |codes|
    && forall i :: 0 <= i < |taken| ==>
         taken[i].Delivered? && taken[i].read == i && taken[i].reply.code == codes[i]
  }

  /** With a read waiting for each reply, the i-th reply taken goes to the i-th read, and none stays in the buffer. */
  lemma DeliveredInOrder(events: seq<Event>)
    requires WaiterPerReply(FRESH, events)
    ensures var s := Run(FRESH, events);
      Replies(s.buffer) == [] && forall i :: 0 <= i < |s.taken| ==> s.taken[i].Delivered? && s.taken[i].read == i
  {
    hide WaiterPerReply, Replies, Run;
    NoRepliesYet();
    NothingLeft(FRESH, events);
    DropsExactly(FRESH, events);
    FifoAlways(FRESH, events);
    var taken := Run(FRESH, events).taken;
    forall i | 0 <= i < |taken| ensures taken[i].read == i {
      DeliveriesAll(taken[..i]);
    }
  }

  lemma LosslessIff(events: seq<Event>)
    requires TailSafe(Stream(events))
    ensures Lossless(events) <==> WaiterPerReply(FRESH, events)
  {
    var taken := Run(FRESH, events).taken;
    DropsExactly(FRESH, events);
    if WaiterPerReply(FRESH, events) {
      DeliveredInOrder(events);
      RepliesHaveCodes(Run(FRESH, events).buffer);
      Conservation(events);
      assert TakenCodes(taken) == Codes(Lines(Stream(events)));
      assert forall i :: 0 <= i < |taken| ==> taken[i].reply.code == TakenCodes(taken)[i];
    }
  }

  lemma {:induction false} RunGrows(s: Session, events: seq<Event>)
    ensures s.taken <= Run(s, events).taken
    decreases |events|
  {
    if events != [] {
      StepGrows(s, events[0]);
      RunGrows(Step(s, events[0]), events[1..]);
    }
  }

  /** A greeting that arrives before it is read for is lost, whatever happens afterwards. */
  lemma EarlyGreetingLost(greeting: string, events: seq<Event>)
    requires Replies(greeting) != []
    ensures var taken := Run(FRESH, [Data(greeting)] + events).taken;
      taken != [] && taken[0] == Dropped(Replies(greeting)[0])
    ensures !Lossless([Data(greeting)] + events)
  {
    assert "" + greeting == greeting;
    FlushOutcome(FRESH.(buffer := greeting));
    assert ([Data(greeting)] + events)[1..] == events;
    RunGrows(Step(FRESH, Data(greeting)), events);
  }

  // ----- Chunking ----------------------------------------------------------------------------

  function ReadsFirst(n: nat): seq<Event> { seq(n, _ => Read) }

  lemma {:induction false} OpenLineEndsText(text: string)
    ensures |Last(Lines(text))| <= |text| && Last(Lines(text)) == text[|text| - |Last(Lines(text))|..]
  {
    if text != "" {
      var before, c := text[..|text| - 1], text[|text| - 1];
      assert text == before + [c];
      OpenLineEndsText(before);
      LinesSnoc(before, c);
    }
  }

  lemma LinesSnoc(text: string, c: char)
    ensures Lines(text + [c]) == PushChar(Lines(text), c)
  {
    ExtendConcat([""], text, [c]);
    assert [c][1..] == "";
  }

  lemma SafeWithoutCr(line: string)
    requires LineSafe(line)
    ensures LineSafe(DropCr(line))
  {
    var d := DropCr(line);
    forall k | 4 <= k <= |d| && Final(d) ensures !Final(d[k..]) {
      assert d[k..] <= line[k..];
    }
  }

  // The character that completes the first unsafe line is the space of its tail's code.
  lemma UnsafeByChar(before: string, c: char)
    requires TailSafe(before) && !TailSafe(before + [c])
    ensures var l := Last(Lines(before + [c])); |l| >= 8 && Final(l) && Final(l[|l| - 4..])
  {
    LinesSnoc(before, c);
    var ls := Lines(before);
    var l := Last(ls);
    var i :| 0 <= i < |Lines(before + [c])| && !LineSafe(Lines(before + [c])[i]);
    assert LineSafe(l);
    SafeWithoutCr(l);
    forall m | 0 <= m < |ls| - 1 ensures LineSafe(Lines(before + [c])[m]) {
      assert Lines(before + [c])[m] == ls[m];
    }
    assert c != '\n' && i == |ls| - 1;
    var d := l + [c];
    var k :| 4 <= k <= |d| && Final(d[k..]);
    assert l[k..] <= d[k..];
  }

  // Cut an unsafe stream just before the four characters that complete its first unsafe line.
  lemma CutAtTail(p: string) returns (q: string, tail: string)
    requires var l := Last(Lines(p)); |l| >= 8 && Final(l) && Final(l[|l| - 4..])
    ensures p == q + tail && '\n' !in tail && Final(tail) && Final(Last(Lines(q)))
    ensures TailOf(tail, Last(Lines(q)) + tail)
  {
    var l := Last(Lines(p));
    OpenLineEndsText(p);
    ExtendFreeOfLf([""], p);
    q, tail := p[..|p| - 4], l[|l| - 4..];
    assert p == q + tail;
    LinesAppend(q, tail);
    ExtendOneLine(Last(Lines(q)), tail);
    assert l == Last(Lines(q)) + tail;
  }

  lemma {:induction false} FirstUnsafe(stream: string) returns (q: string, tail: string, rest: string)
    requires !TailSafe(stream)
    ensures stream == q + (tail + rest) && '\n' !in tail && Final(tail) && Final(Last(Lines(q)))
    ensures TailOf(tail, Last(Lines(q)) + tail)
  {
    assert Lines("") == [""];
    assert stream != "";
    var before, c := stream[..|stream| - 1], stream[|stream| - 1];
    assert stream == before + [c];
    if TailSafe(before) {
      UnsafeByChar(before, c);
      q, tail := CutAtTail(stream);
      rest := "";
      assert tail + rest == tail;
    } else {
      q, tail, rest := FirstUnsafe(before);
      assert q + (tail + rest) + [c] == q + (tail + (rest + [c]));
      rest := rest + [c];
    }
  }

  function Numbers(first: nat, n: nat): seq<nat> { seq(n, i requires 0 <= i => first + i) }

  lemma {:induction false} ReadsQueue(s: Session, n: nat, events: seq<Event>)
    requires Replies(s.buffer) == []
    ensures var s' := s.(issued := s.issued + n, waiters := s.waiters + Numbers(s.issued, n));
      && Run(s, ReadsFirst(n) + events) == Run(s', events)
      && (WaiterPerReply(s, ReadsFirst(n) + events) <==> WaiterPerReply(s', events))
      && Stream(ReadsFirst(n) + events) == Stream(events)
    decreases n
  {
    hide Take, Replies;
    TakesReply(s.buffer);
    if n == 0 {
      assert ReadsFirst(n) + events == events;
      assert s.waiters + Numbers(s.issued, n) == s.waiters;
    } else {
      assert (ReadsFirst(n) + events)[1..] == ReadsFirst(n - 1) + events;
      var s1 := Step(s, Read);
      ReadsQueue(s1, n - 1, events);
      assert Numbers(s.issued, n) == [s.issued] + Numbers(s1.issued, n - 1);
      assert s.waiters + Numbers(s.issued, n) == s1.waiters + Numbers(s1.issued, n - 1);
    }
  }

  lemma CountedTwice(done: seq<string>, line: string, x: seq<string>, y: seq<string>)
    requires Final(line) && x != [] && y != [] && Final(x[0]) && Final(y[0]) && x[1..] == y[1..]
    ensures |Codes(done + [line])| + |Codes(y)| == |Codes(done + x)| + 1
  {
    CodesConcat(done, [line]);
    CodesConcat(done, x);
    assert [line][1..] == [];
  }

  // A line at the end of p cut in two, and what follows p.
  lemma CutOpenLine(q: string, tail: string, rest: string)
    requires '\n' !in tail
    ensures Lines(q + (tail + rest)) == Init(Lines(q)) + Extend([Last(Lines(q)) + tail], rest)
    ensures Lines(tail + rest) == Extend([tail], rest)
  {
    var open := Last(Lines(q));
    LinesAppend(q, tail + rest);
    ExtendConcat([open], tail, rest);
    ExtendOneLine(open, tail);
    ExtendConcat([""], tail, rest);
    ExtendOneLine("", tail);
    assert "" + tail == tail;
  }

  lemma TailCounted(lines: seq<string>, tail: string, rest: string)
    requires lines != [] && Final(Last(lines)) && Final(tail) && TailOf(tail, Last(lines) + tail)
    ensures |Codes(lines)| + |Codes(Extend([tail], rest))|
         == |Codes(Init(lines) + Extend([Last(lines) + tail], rest))| + 1
  {
    var open := Last(lines);
    ExtendTail(open + tail, tail, rest);
    CountedTwice(Init(lines), open, Extend([open + tail], rest), Extend([tail], rest));
    assert lines == Init(lines) + [open];
  }

  // Cut before the tail of an unsafe line, the two parts hold one reply more than the whole.
  lemma UnsafeTailCountsTwice(stream: string) returns (q: string, again: string)
    requires !TailSafe(stream)
    ensures stream == q + again && Final(Last(Lines(q)))
    ensures |Codes(Lines(q))| + |Codes(Lines(again))| == |Codes(Lines(stream))| + 1
  {
    var tail, rest;
    q, tail, rest := FirstUnsafe(stream);
    again := tail + rest;
    CutOpenLine(q, tail, rest);
    TailCounted(Lines(q), tail, rest);
  }

  // When the open line itself is a reply, each reply taken leaves it in place or was it.
  lemma OpenReplyStays(buffer: string)
    requires Final(Last(Lines(buffer)))
    ensures var (reply, rest) := Take(buffer); reply.Some? && (rest == "" || Final(Last(Lines(rest))))
  {
    var lines := Lines(buffer);
    var i := FirstFinal(lines);
    RestLines(buffer);
    assert i + 1 == |lines| ==> lines[i + 1..] == [];
  }

  lemma {:induction false} DrainedToTheEnd(s: Session)
    requires Final(Last(Lines(s.buffer))) && |Replies(s.buffer)| <= |s.waiters|
    ensures Flush(s).buffer == ""
    decreases |s.waiters|
  {
    OpenReplyStays(s.buffer);
    var (reply, rest) := Take(s.buffer);
    assert |Replies(s.buffer)| == 1 + |Replies(rest)|;
    var s' := s.(buffer := rest, waiters := s.waiters[1..], taken := s.taken + [Delivered(s.waiters[0], reply.value)]);
    NoRepliesYet();
    if rest != "" { DrainedToTheEnd(s'); }
  }

  lemma ChunkServed(s: Session, chunk: string)
    requires s.buffer == "" && |Replies(chunk)| <= |s.waiters|
    ensures var t := Step(s, Data(chunk));
      && |t.taken| == |s.taken| + |Replies(chunk)| && |t.waiters| == |s.waiters| - |Replies(chunk)|
      && (Final(Last(Lines(chunk))) ==> t.buffer == "")
  {
    assert "" + chunk == chunk;
    FlushOutcome(s.(buffer := chunk));
    if Final(Last(Lines(chunk))) { DrainedToTheEnd(s.(buffer := chunk)); }
  }

  lemma UnrollTwo(s: Session, q: string, again: string)
    ensures var chunks := [Data(q), Data(again)];
      && Run(s, chunks) == Step(Step(s, Data(q)), Data(again)) && Stream(chunks) == q + again
      && (WaiterPerReply(s, chunks) <==>
           |Replies(s.buffer + q)| <= |s.waiters| &&
           |Replies(Step(s, Data(q)).buffer + again)| <= |Step(s, Data(q)).waiters|)
  {
    var chunks := [Data(q), Data(again)];
    var last := [Data(again)];
    var s1 := Step(s, Data(q));
    var s2 := Step(s1, Data(again));
    assert chunks[0] == Data(q) && chunks[1..] == last && last[0] == Data(again) && last[1..] == [];
    assert Run(s2, []) == s2 && WaiterPerReply(s2, []);
    assert Run(s1, last) == Run(s2, []);
    assert WaiterPerReply(s1, last) <==> |Replies(s1.buffer + again)| <= |s1.waiters|;
    assert Stream(last) == again + Stream([]) == again;
  }

  lemma TwoChunks(s: Session, q: string, again: string)
    requires s.buffer == "" && |s.waiters| == |Replies(q)| + |Replies(again)| && Final(Last(Lines(q)))
    ensures var chunks := [Data(q), Data(again)];
      && WaiterPerReply(s, chunks) && Stream(chunks) == q + again
      && |Run(s, chunks).taken| == |s.taken| + |Replies(q)| + |Replies(again)|
  {
    UnrollTwo(s, q, again);
    ChunkServed(s, q);
    ChunkServed(Step(s, Data(q)), again);
    assert "" + q == q && "" + again == again;
  }

  lemma TwoChunksRead(q: string, again: string)
    requires Final(Last(Lines(q)))
    ensures var n := |Replies(q)| + |Replies(again)|;
      var events := ReadsFirst(n) + [Data(q), Data(again)];
      Stream(events) == q + again && WaiterPerReply(FRESH, events) && |Run(FRESH, events).taken| == n
  {
    hide Step, Run, WaiterPerReply, Stream, Lines, Replies, Take, Last, Final;
    var n := |Replies(q)| + |Replies(again)|;
    NoRepliesYet();
    ReadsQueue(FRESH, n, [Data(q), Data(again)]);
    assert [] + Numbers(0, n) == Numbers(0, n);
    TwoChunks(Session("", n, Numbers(0, n), []), q, again);
  }

  /** A reply line whose tail reads like a reply: some cut yields one reply too many. */
  lemma UnsafeTailSplits(stream: string) returns (events: seq<Event>)
    requires !TailSafe(stream)
    ensures Stream(events) == stream && WaiterPerReply(FRESH, events)
    ensures |Run(FRESH, events).taken| == |Codes(Lines(stream))| + 1
  {
    hide Run, WaiterPerReply, Stream, Lines, Codes, Replies;
    var q, again := UnsafeTailCountsTwice(stream);
    RepliesHaveCodes(q);
    RepliesHaveCodes(again);
    TwoChunksRead(q, again);
    events := ReadsFirst(|Replies(q)| + |Replies(again)|) + [Data(q), Data(again)];
  }

  /** The replies read do not depend on the chunking, exactly when no reply line has an unsafe tail. */
  lemma ChunkingInvariance(stream: string)
    ensures TailSafe(stream) <==>
      forall events :: Stream(events) == stream && WaiterPerReply(FRESH, events) ==> Lossless(events)
  {
    if TailSafe(stream) {
      forall events | Stream(events) == stream && WaiterPerReply(FRESH, events) ensures Lossless(events) {
        LosslessIff(events);
      }
    } else {
      var events := UnsafeTailSplits(stream);
      assert !Lossless(events);
    }
  }
}
