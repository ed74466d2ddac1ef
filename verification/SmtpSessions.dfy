/** When enough reads wait, in terms a client can see: how many it has issued and how many replies it was sent. */
module SmtpSessions {
  import opened SmtpReplies
  import opened SmtpDelivery

  /** At every data event as many reads have been issued as replies have been received with it. */
  ghost predicate ReadsLead(issued: nat, received: string, events: seq<Event>)
    decreases |events|
  {
    events != [] ==>
      match events[0]
      case Data(chunk) =>
        |Codes(Lines(received + chunk))| <= issued && ReadsLead(issued, received + chunk, events[1..])
      case Read => ReadsLead(issued + 1, received, events[1..])
  }

  lemma WaitersEnoughIff(s: Session, received: string, chunk: string)
    requires Sound(s, received) && TailSafe(received + chunk)
    ensures |Replies(s.buffer + chunk)| <= |s.waiters| <==> |Codes(Lines(received + chunk))| <= s.issued
  {
    DataAccounts(s, received, chunk);
    RepliesHaveCodes(s.buffer + chunk);
    DeliveriesAll(s.taken);
    assert |TakenCodes(s.taken)| == |s.taken|;
  }

  lemma StepSound(s: Session, received: string, e: Event)
    requires Sound(s, received) && TailSafe(received + if e.Data? then e.chunk else "")
    requires e.Data? ==> |Replies(s.buffer + e.chunk)| <= |s.waiters|
    ensures Sound(Step(s, e), received + if e.Data? then e.chunk else "")
    ensures Step(s, e).issued == s.issued + if e.Data? then 0 else 1
  {
    StepGrows(s, e);
    StepInOrder(s, e);
    match e {
      case Data(chunk) =>
        DataAccounts(s, received, chunk);
        FlushAccounts(s.(buffer := s.buffer + chunk), received + chunk);
        FlushOutcome(s.(buffer := s.buffer + chunk));
      case Read =>
        assert received + "" == received;
        var (reply, _) := Take(s.buffer);
        if reply.Some? { TakeAccounts(s, received, Delivered(s.issued, reply.value)); }
    }
  }

  lemma StreamStep(received: string, events: seq<Event>)
    requires events != []
    ensures received + Stream(events) ==
      received + (if events[0].Data? then events[0].chunk else "") + Stream(events[1..])
  {
    Regroup(received, if events[0].Data? then events[0].chunk else "", Stream(events[1..]));
  }

  lemma Regroup(a: string, b: string, c: string)
    ensures a + (b + c) == a + b + c
  {
  }

  lemma {:induction false} WaitersIff(s: Session, received: string, events: seq<Event>)
    requires Sound(s, received) && TailSafe(received + Stream(events))
    ensures WaiterPerReply(s, events) <==> ReadsLead(s.issued, received, events)
    decreases |events|
  {
    hide Sound, Step, TailSafe, Replies, Lines, Codes, Stream;
    if events != [] {
      var e := events[0];
      var chunk := if e.Data? then e.chunk else "";
      StreamStep(received, events);
      SafePrefix(received + chunk, Stream(events[1..]));
      if e.Data? { WaitersEnoughIff(s, received, chunk); }
      if e.Read? || |Replies(s.buffer + e.chunk)| <= |s.waiters| {
        StepSound(s, received, e);
        WaitersIff(Step(s, e), received + chunk, events[1..]);
        if e.Read? { assert received + chunk == received; }
      }
    }
  }

  /** The i-th read gets the i-th reply exactly when, at every data event, enough reads have been issued. */
  lemma LosslessIffReadsLead(events: seq<Event>)
    requires TailSafe(Stream(events))
    ensures Lossless(events) <==> ReadsLead(0, "", events)
  {
    assert "" + Stream(events) == Stream(events);
    NoRepliesYet();
    WaitersIff(FRESH, "", events);
    LosslessIff(events);
  }

  // ----- Lock step ---------------------------------------------------------------------------

  function Datas(chunks: seq<string>): seq<Event> {
    if chunks == [] then [] else [Data(chunks[0])] + Datas(chunks[1..])
  }

  function Concat(chunks: seq<string>): string {
    if chunks == [] then "" else chunks[0] + Concat(chunks[1..])
  }

  /** A read for the greeting or for a command, then what the server sends for it, in any chunks; and so on. */
  function LockStep(answers: seq<seq<string>>): seq<Event> {
    if answers == [] then [] else [Read] + (Datas(answers[0]) + LockStep(answers[1..]))
  }

  function Sent(answers: seq<seq<string>>): string {
    if answers == [] then "" else Concat(answers[0]) + Sent(answers[1..])
  }

  /** The server sends at most one reply for each read, whatever the answers so far. */
  ghost predicate OneReplyEach(issued: nat, received: string, answers: seq<seq<string>>) {
    forall k :: 0 <= k <= |answers| ==> |Codes(Lines(received + Sent(answers[..k])))| <= issued + k
  }

  /** More text does not take a reply away. */
  lemma {:induction false} OpenLineCounts(open: string, text: string)
    requires Final(open)
    ensures |Codes(Extend([open], text))| >= 1
    decreases |text|
  {
    if text == "" {
      assert Codes([open]) != [];
    } else if text[0] == '\n' {
      CloseLine(open, text);
      assert Final(DropCr(open));
      CodesConcat([DropCr(open)], Extend([""], text[1..]));
      assert Codes([DropCr(open)]) != [];
    } else {
      assert PushChar([open], text[0]) == [open + [text[0]]];
      OpenLineCounts(open + [text[0]], text[1..]);
    }
  }

  lemma CodesGrow(received: string, text: string)
    ensures |Codes(Lines(received))| <= |Codes(Lines(received + text))|
  {
    var lines := Lines(received);
    LinesAppend(received, text);
    CodesSnoc(lines);
    CodesConcat(Init(lines), Extend([Last(lines)], text));
    if Final(Last(lines)) { OpenLineCounts(Last(lines), text); }
  }

  lemma DataLeads(issued: nat, received: string, chunk: string, rest: seq<Event>)
    requires |Codes(Lines(received + chunk))| <= issued && ReadsLead(issued, received + chunk, rest)
    ensures ReadsLead(issued, received, [Data(chunk)] + rest)
  {
    hide Codes, Lines;
    assert ([Data(chunk)] + rest)[1..] == rest;
  }

  lemma {:induction false} DatasLead(issued: nat, received: string, chunks: seq<string>, rest: seq<Event>)
    requires |Codes(Lines(received + Concat(chunks)))| <= issued && ReadsLead(issued, received + Concat(chunks), rest)
    ensures ReadsLead(issued, received, Datas(chunks) + rest)
    decreases |chunks|
  {
    hide Codes, Lines, ReadsLead;
    if chunks == [] {
      assert received + "" == received && Datas(chunks) + rest == rest;
    } else {
      var now, more := received + chunks[0], Datas(chunks[1..]) + rest;
      assert received + Concat(chunks) == now + Concat(chunks[1..]);
      CodesGrow(now, Concat(chunks[1..]));
      DatasLead(issued, now, chunks[1..], rest);
      DataLeads(issued, received, chunks[0], more);
      assert Datas(chunks) + rest == [Data(chunks[0])] + more;
    }
  }

  lemma {:induction false} LockStepLeads(issued: nat, received: string, answers: seq<seq<string>>)
    requires OneReplyEach(issued, received, answers)
    ensures ReadsLead(issued, received, LockStep(answers))
    decreases |answers|
  {
    if answers != [] {
      var rest := answers[1..];
      var now := received + Concat(answers[0]);
      forall k | 0 <= k <= |rest| ensures |Codes(Lines(now + Sent(rest[..k])))| <= issued + 1 + k {
        assert answers[..k + 1][1..] == rest[..k];
        assert received + Sent(answers[..k + 1]) == now + Sent(rest[..k]);
      }
      assert now + Sent(rest[..0]) == now;
      LockStepLeads(issued + 1, now, rest);
      DatasLead(issued + 1, received, answers[0], LockStep(rest));
      assert LockStep(answers)[1..] == Datas(answers[0]) + LockStep(rest);
    }
  }

  lemma {:induction false} LockStepStream(chunks: seq<string>, answers: seq<seq<string>>)
    ensures Stream(Datas(chunks) + LockStep(answers)) == Concat(chunks) + Sent(answers)
    decreases |answers|, |chunks|
  {
    hide Stream;
    if chunks != [] {
      var rest := Datas(chunks[1..]) + LockStep(answers);
      assert Datas(chunks) + LockStep(answers) == [Data(chunks[0])] + rest;
      StreamOf(Data(chunks[0]), rest);
      LockStepStream(chunks[1..], answers);
      Regroup(chunks[0], Concat(chunks[1..]), Sent(answers));
    } else {
      assert Datas(chunks) + LockStep(answers) == LockStep(answers) && "" + Sent(answers) == Sent(answers);
      if answers == [] {
        assert Stream([]) == "" by { NothingSent(); }
      } else {
        StreamOf(Read, Datas(answers[0]) + LockStep(answers[1..]));
        LockStepStream(answers[0], answers[1..]);
      }
    }
  }

  lemma NothingSent()
    ensures Stream([]) == ""
  {
  }

  lemma StreamOf(e: Event, rest: seq<Event>)
    ensures Stream([e] + rest) == if e.Data? then e.chunk + Stream(rest) else Stream(rest)
  {
    assert ([e] + rest)[1..] == rest && "" + Stream(rest) == Stream(rest);
  }

  /** A session in lock step, as the client's commands are, gives every read its reply, however the replies are cut. */
  lemma LockStepLossless(answers: seq<seq<string>>)
    requires TailSafe(Sent(answers)) && OneReplyEach(0, "", answers)
    ensures Lossless(LockStep(answers))
  {
    LockStepStream([], answers);
    assert Datas([]) + LockStep(answers) == LockStep(answers) && Concat([]) + Sent(answers) == Sent(answers);
    LockStepLeads(0, "", answers);
    LosslessIffReadsLead(LockStep(answers));
  }
}
