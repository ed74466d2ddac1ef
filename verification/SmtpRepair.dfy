/**
 flushWaiters with the two tests swapped: a reply is taken only once a read is known to wait for
 it. Every interleaving is then lossless and in order.
 */
module SmtpRepair {
  import opened SmtpReplies
  import opened SmtpDelivery

  function KeepingFlush(s: Session): Session
    decreases |s.waiters|
  {
    if s.waiters == [] then s
    else
      var (reply, rest) := Take(s.buffer);
      if reply.None? then s
      else KeepingFlush(s.(buffer := rest, waiters := s.waiters[1..],
                           taken := s.taken + [Delivered(s.waiters[0], reply.value)]))
  }

  function KeepingStep(s: Session, e: Event): Session {
    match e
    case Data(chunk) => KeepingFlush(s.(buffer := s.buffer + chunk))
    case Read => Step(s, e)
  }

  function KeepingRun(s: Session, events: seq<Event>): Session
    decreases |events|
  {
    if events == [] then s else KeepingRun(KeepingStep(s, events[0]), events[1..])
  }

  lemma {:induction false} KeepingFlushSound(s: Session, received: string)
    requires Accounts(s, received) && TailSafe(received)
    requires InQueue(s) && NothingDropped(s.taken)
    ensures Sound(KeepingFlush(s), received)
    decreases |s.waiters|
  {
    hide Take, Replies, Books, Lines, TailSafe, ReadsInOrder, Deliveries;
    TakesReply(s.buffer);
    var (reply, rest) := Take(s.buffer);
    if s.waiters != [] && reply.Some? {
      var fate := Delivered(s.waiters[0], reply.value);
      TakeAccounts(s, received, fate);
      OneMoreInOrder(s.taken, fate);
      KeepingFlushSound(s.(buffer := rest, waiters := s.waiters[1..], taken := s.taken + [fate]), received);
    }
  }

  lemma KeepingStepSound(s: Session, received: string, e: Event)
    requires Sound(s, received) && TailSafe(received + if e.Data? then e.chunk else "")
    ensures Sound(KeepingStep(s, e), received + if e.Data? then e.chunk else "")
  {
    match e {
      case Data(chunk) =>
        DataAccounts(s, received, chunk);
        KeepingFlushSound(s.(buffer := s.buffer + chunk), received + chunk);
      case Read =>
        assert received + "" == received;
        StepInOrder(s, e);
        StepGrows(s, e);
        var (reply, _) := Take(s.buffer);
        if reply.Some? { TakeAccounts(s, received, Delivered(s.issued, reply.value)); }
    }
  }

  lemma {:induction false} KeepingRunSound(s: Session, received: string, events: seq<Event>)
    requires Sound(s, received) && TailSafe(received + Stream(events))
    ensures Sound(KeepingRun(s, events), received + Stream(events))
    decreases |events|
  {
    hide Sound, TailSafe, KeepingStep;
    if events == [] {
      assert received + "" == received;
    } else {
      var chunk := if events[0].Data? then events[0].chunk else "";
      assert received + Stream(events) == received + chunk + Stream(events[1..]);
      SafePrefix(received + chunk, Stream(events[1..]));
      KeepingStepSound(s, received, events[0]);
      KeepingRunSound(KeepingStep(s, events[0]), received + chunk, events[1..]);
    }
  }

  lemma SoundFromStart()
    ensures Sound(FRESH, "")
  {
    NoRepliesYet();
    assert Lines("") == [""];
  }

  /** With the repair, the i-th read gets the i-th reply in every interleaving and chunking. */
  lemma RepairedIsLossless(events: seq<Event>)
    requires TailSafe(Stream(events))
    ensures var s, codes := KeepingRun(FRESH, events), Codes(Lines(Stream(events)));
      && |s.taken| == (if s.issued <= |codes| then s.issued else |codes|)
      && forall i :: 0 <= i < |s.taken| ==>
           s.taken[i].Delivered? && s.taken[i].read == i && s.taken[i].reply.code == codes[i]
  {
    hide KeepingRun, TailSafe, Lines, Codes, Replies, Deliveries, Last, Final;
    SoundFromStart();
    assert "" + Stream(events) == Stream(events);
    KeepingRunSound(FRESH, "", events);
    var s, codes := KeepingRun(FRESH, events), Codes(Lines(Stream(events)));
    DeliveriesAll(s.taken);
    RepliesHaveCodes(s.buffer);
    forall i | 0 <= i < |s.taken|
      ensures s.taken[i].read == i && s.taken[i].reply.code == codes[i]
    {
      DeliveriesAll(s.taken[..i]);
      assert TakenCodes(s.taken)[i] == codes[i];
    }
  }
}
