/**
 The reply side of the SMTP client: received text is buffered, cut into replies (section 4.2.1 of
 RFC 5321) and handed to the queued reads in order.
 */
module SmtpReplies {
  import opened Strings

  // ----- Lines -------------------------------------------------------------------------------

  function DropCr(line: string): string {
    if line != "" && line[|line| - 1] == '\r' then line[..|line| - 1] else line
  }

  /** The lines so far, the last one still open, after one more character. */
  function PushChar(lines: seq<string>, c: char): seq<string>
    requires lines != []
  {
    var last := |lines| - 1;
    if c == '\n' then lines[..last] + [DropCr(lines[last]), ""]
    else lines[..last] + [lines[last] + [c]]
  }

  function Extend(lines: seq<string>, text: string): (r: seq<string>)
    requires lines != []
    ensures |r| >= |lines|
    decreases |text|
  {
    if text == "" then lines else Extend(PushChar(lines, text[0]), text[1..])
  }

  /** text.split(/\r?\n/): always at least one line, the last one unterminated. */
  function Lines(text: string): (r: seq<string>)
    ensures r != []
  {
    Extend([""], text)
  }

  lemma {:induction false} ExtendConcat(lines: seq<string>, a: string, b: string)
    requires lines != []
    ensures Extend(lines, a + b) == Extend(Extend(lines, a), b)
    decreases |a|
  {
    if a == "" {
      assert a + b == b;
    } else {
      assert (a + b)[1..] == a[1..] + b;
      ExtendConcat(PushChar(lines, a[0]), a[1..], b);
    }
  }

  lemma {:induction false} ExtendPrefix(done: seq<string>, lines: seq<string>, text: string)
    requires lines != []
    ensures Extend(done + lines, text) == done + Extend(lines, text)
    decreases |text|
  {
    if text != "" {
      var last := |lines| - 1;
      assert (done + lines)[..|done + lines| - 1] == done + lines[..last];
      assert PushChar(done + lines, text[0]) == done + PushChar(lines, text[0]);
      ExtendPrefix(done, PushChar(lines, text[0]), text[1..]);
    }
  }

  /** What text after an open line does to the lines. */
  lemma LinesAppend(p: string, c: string)
    ensures var ls := Lines(p); Lines(p + c) == ls[..|ls| - 1] + Extend([ls[|ls| - 1]], c)
  {
    hide Extend;
    var ls := Lines(p);
    ExtendConcat([""], p, c);
    var done, open := ls[..|ls| - 1], [ls[|ls| - 1]];
    assert ls == done + open;
    ExtendPrefix(done, open, c);
  }

  lemma {:induction false} ExtendOneLine(line: string, text: string)
    requires '\n' !in text
    ensures Extend([line], text) == [line + text]
    decreases |text|
  {
    if text == "" {
      assert line + text == line;
    } else {
      ExtendOneLine(line + [text[0]], text[1..]);
      assert line + [text[0]] + text[1..] == line + text;
    }
  }

  /** Joining lines with CRLF and splitting again gives the same lines. */
  lemma {:induction false} SplitAfterJoin(lines: seq<string>)
    requires lines != [] && forall i :: 0 <= i < |lines| ==> '\n' !in lines[i]
    ensures Lines(Join(lines, "\r\n")) == lines
  {
    var head, rest := lines[0], Join(lines[1..], "\r\n");
    ExtendOneLine("", head);
    assert "" + head == head;
    if |lines| > 1 {
      SplitAfterJoin(lines[1..]);
      assert head + "\r\n" + rest == head + ("\r\n" + rest);
      ExtendConcat([""], head, "\r\n" + rest);
      ExtendConcat([head], "\r\n", rest);
      var step := PushChar([head], '\r');
      assert step == [head + "\r"];
      assert PushChar(step, '\n') == [head] + [""];
      assert "\r\n"[1..] == "\n" && "\n"[1..] == "";
      assert Extend([head], "\r\n") == [head] + [""];
      ExtendPrefix([head], [""], rest);
    }
  }

  lemma {:induction false} ExtendFreeOfLf(lines: seq<string>, text: string)
    requires lines != [] && forall i :: 0 <= i < |lines| ==> '\n' !in lines[i]
    ensures forall i :: 0 <= i < |Extend(lines, text)| ==> '\n' !in Extend(lines, text)[i]
    decreases |text|
  {
    if text != "" {
      ExtendFreeOfLf(PushChar(lines, text[0]), text[1..]);
    }
  }

  // ----- Replies -----------------------------------------------------------------------------

  predicate IsDigit(c: char) { '0' <= c <= '9' }

  /** Three digits and a space: the line that ends a reply. */
  predicate Final(line: string) {
    |line| >= 4 && IsDigit(line[0]) && IsDigit(line[1]) && IsDigit(line[2]) && line[3] == ' '
  }

  function Digit(c: char): nat
    requires IsDigit(c)
  { (c as int) - ('0' as int) }

  function Code(line: string): nat
    requires Final(line)
  { 100 * Digit(line[0]) + 10 * Digit(line[1]) + Digit(line[2]) }

  /** The reply codes a list of lines carries. */
  function Codes(lines: seq<string>): (r: seq<nat>)
    ensures |r| <= |lines|
  {
    if lines == [] then []
    else if Final(lines[0]) then [Code(lines[0])] + Codes(lines[1..])
    else Codes(lines[1..])
  }

  lemma {:induction false} CodesConcat(a: seq<string>, b: seq<string>)
    ensures Codes(a + b) == Codes(a) + Codes(b)
  {
    if a == [] {
      assert a + b == b;
    } else {
      assert (a + b)[1..] == a[1..] + b;
      CodesConcat(a[1..], b);
    }
  }

  function FirstFinal(lines: seq<string>): (i: nat)
    ensures i <= |lines|
    ensures i < |lines| ==> Final(lines[i])
    ensures forall j :: 0 <= j < i ==> !Final(lines[j])
  {
    if lines == [] || Final(lines[0]) then 0 else 1 + FirstFinal(lines[1..])
  }

  lemma {:induction false} CodesFromFirst(lines: seq<string>)
    ensures var i := FirstFinal(lines);
      Codes(lines) == if i == |lines| then [] else [Code(lines[i])] + Codes(lines[i + 1..])
  {
    hide Final, Code;
    if lines != [] && !Final(lines[0]) {
      CodesFromFirst(lines[1..]);
      assert forall k :: 0 <= k < |lines| ==> lines[1..][k..] == lines[k + 1..];
    }
  }

  datatype Reply = Reply(code: nat, text: string)

  /** One step of the parser: the first complete reply and the buffer without it. */
  function Take(buffer: string): (Option<Reply>, string) {
    var lines := Lines(buffer);
    var i := FirstFinal(lines);
    if i == |lines| then (None, buffer)
    else (Some(Reply(Code(lines[i]), Join(lines[..i + 1], "\n"))), Join(lines[i + 1..], "\r\n"))
  }

  // ----- The session -------------------------------------------------------------------------

  /** What became of a reply taken from the buffer. */
  datatype Fate = Delivered(read: nat, reply: Reply) | Dropped(reply: Reply)

  /** issued counts the readResponse calls so far; waiters holds the numbers of those unanswered. */
  datatype Session = Session(buffer: string, issued: nat, waiters: seq<nat>, taken: seq<Fate>)

  const FRESH := Session("", 0, [], [])

  datatype Event = Data(chunk: string) | Read

  /** flushWaiters: a reply is taken before it is known that a read waits for it. */
  function Flush(s: Session): Session
    decreases |s.waiters|
  {
    var (reply, rest) := Take(s.buffer);
    if reply.None? then s
    else if s.waiters == [] then s.(buffer := rest, taken := s.taken + [Dropped(reply.value)])
    else Flush(s.(buffer := rest, waiters := s.waiters[1..],
                  taken := s.taken + [Delivered(s.waiters[0], reply.value)]))
  }

  function Step(s: Session, e: Event): Session {
    match e
    case Data(chunk) => Flush(s.(buffer := s.buffer + chunk))
    case Read =>
      var (reply, rest) := Take(s.buffer);
      if reply.Some? then
        s.(buffer := rest, issued := s.issued + 1, taken := s.taken + [Delivered(s.issued, reply.value)])
      else
        s.(issued := s.issued + 1, waiters := s.waiters + [s.issued])
  }

  function Run(s: Session, events: seq<Event>): Session
    decreases |events|
  {
    if events == [] then s else Run(Step(s, events[0]), events[1..])
  }

  function Stream(events: seq<Event>): string {
    if events == [] then ""
    else (if events[0].Data? then events[0].chunk else "") + Stream(events[1..])
  }

  function TakenCodes(taken: seq<Fate>): seq<nat> {
    seq(|taken|, i requires 0 <= i < |taken| => taken[i].reply.code)
  }

  /** The parser and the queue as the closures of sendSmtpEmail hold them. */
  class ReplyReader {
    var buffer: string
    var issued: nat
    var waiters: seq<nat>
    var taken: seq<Fate>

    ghost function Model(): Session
      reads this
    {
      Session(buffer, issued, waiters, taken)
    }

    constructor ()
      ensures Model() == FRESH
    {
      buffer, issued, waiters, taken := "", 0, [], [];
    }

    method TakeResponse() returns (reply: Option<Reply>)
      modifies this`buffer
      ensures (reply, buffer) == Take(old(buffer))
    {
      var lines := Lines(buffer);
      for i := 0 to |lines|
        invariant buffer == old(buffer)
        invariant forall j :: 0 <= j < i ==> !Final(lines[j])
      {
        if Final(lines[i]) {
          buffer := Join(lines[i + 1..], "\r\n");
          return Some(Reply(Code(lines[i]), Join(lines[..i + 1], "\n")));
        }
      }
      return None;
    }

    method FlushWaiters()
      modifies this
      ensures Model() == Flush(old(Model()))
    {
      var reply := TakeResponse();
      ghost var before := old(Model());
      while reply.Some? && waiters != []
        invariant issued == before.issued && waiters == before.waiters && taken == before.taken
        invariant (reply, buffer) == Take(before.buffer)
        invariant Flush(before) == Flush(old(Model()))
        decreases |waiters|
      {
        taken := taken + [Delivered(waiters[0], reply.value)];
        waiters := waiters[1..];
        before := Model();
        reply := TakeResponse();
      }
      if reply.Some? {
        // The source lets the reply go out of scope here.
        taken := taken + [Dropped(reply.value)];
      }
    }

    method OnData(chunk: string)
      modifies this
      ensures Model() == Step(old(Model()), Data(chunk))
    {
      buffer := buffer + chunk;
      FlushWaiters();
    }

    method ReadResponse() returns (reply: Option<Reply>)
      modifies this
      ensures Model() == Step(old(Model()), Read)
      ensures reply.Some? <==> waiters == old(waiters)
      ensures reply.Some? ==> taken == old(taken) + [Delivered(old(issued), reply.value)]
    {
      reply := TakeResponse();
      if reply.Some? {
        taken := taken + [Delivered(issued, reply.value)];
      } else {
        waiters := waiters + [issued];
      }
      issued := issued + 1;
    }
  }
}
