/**
 Replies as a server prints them (section 4.2.1 of RFC 5321): the parser reads back the code and the lines of
 every printed reply.
 */
module SmtpServer {
  import opened Strings
  import opened SmtpReplies
  import opened SmtpDelivery
  import opened SmtpTexts
  import opened SmtpMessage

  function DigitChar(d: nat): char
    requires d < 10
  {
    (('0' as int) + d) as char
  }

  function Decimal3(n: nat): string
    requires n < 1000
  {
    [DigitChar(n / 100), DigitChar(n / 10 % 10), DigitChar(n % 10)]
  }

  /** A reply's code and the texts of its lines. */
  datatype Printed = Printed(code: nat, texts: seq<string>)

  predicate Printable(p: Printed) {
    p.code < 1000 && p.texts != [] && forall i :: 0 <= i < |p.texts| ==> '\n' !in p.texts[i]
  }

  /** A hyphen after the code on every line but the last. */
  function PrintedLines(p: Printed): seq<string>
    requires Printable(p)
  {
    seq(|p.texts|, i requires 0 <= i < |p.texts| =>
      Decimal3(p.code) + (if i == |p.texts| - 1 then " " else "-") + p.texts[i])
  }

  function PrintReply(p: Printed): string
    requires Printable(p)
  {
    Terminated(PrintedLines(p))
  }

  predicate AllPrintable(ps: seq<Printed>) {
    forall i :: 0 <= i < |ps| ==> Printable(ps[i])
  }

  function AllLines(ps: seq<Printed>): seq<string>
    requires AllPrintable(ps)
  {
    if ps == [] then [] else PrintedLines(ps[0]) + AllLines(ps[1..])
  }

  function PrintAll(ps: seq<Printed>): string
    requires AllPrintable(ps)
  {
    if ps == [] then "" else PrintReply(ps[0]) + PrintAll(ps[1..])
  }

  /** What a read should get for a printed reply. */
  function AsReply(p: Printed): Reply
    requires Printable(p)
  {
    Reply(p.code, Join(PrintedLines(p), "\n"))
  }

  // ----- Codes -------------------------------------------------------------------------------

  lemma DigitOf(d: nat)
    requires d < 10
    ensures IsDigit(DigitChar(d)) && Digit(DigitChar(d)) == d
  {
  }

  lemma Decimals(n: nat)
    requires n < 1000
    ensures 100 * (n / 100) + 10 * (n / 10 % 10) + n % 10 == n && n / 100 < 10
  {
  }

  lemma PrintedCode(n: nat, text: string)
    requires n < 1000
    ensures var line := Decimal3(n) + " " + text; Final(line) && Code(line) == n
  {
    Decimals(n);
    DigitOf(n / 100);
    DigitOf(n / 10 % 10);
    DigitOf(n % 10);
  }

  lemma DigitsApart(a: nat, b: nat, c: nat)
    requires a < 10 && b < 10 && c < 10
    ensures var n := 100 * a + 10 * b + c; n < 1000 && n / 100 == a && n / 10 % 10 == b && n % 10 == c
  {
  }

  lemma CodePrints(line: string)
    requires Final(line)
    ensures Code(line) < 1000 && line == Decimal3(Code(line)) + " " + line[4..]
  {
    DigitsApart(Digit(line[0]), Digit(line[1]), Digit(line[2]));
    var n := Code(line);
    assert Decimal3(n) == [line[0], line[1], line[2]] && line[3..4] == " ";
  }

  /** The line is the number's three decimal digits, a space and some text. */
  ghost predicate Prints(line: string, n: nat) {
    n < 1000 && exists text :: line == Decimal3(n) + " " + text
  }

  /** A line ends a reply exactly when it prints some number, and that number is its code. */
  lemma FinalIff(line: string)
    ensures Final(line) <==> exists n :: Prints(line, n)
    ensures forall n :: Prints(line, n) ==> Code(line) == n
  {
    forall n | Prints(line, n) ensures Final(line) && Code(line) == n {
      var text :| line == Decimal3(n) + " " + text;
      PrintedCode(n, text);
    }
    if Final(line) {
      CodePrints(line);
      assert Prints(line, Code(line));
    }
  }

  lemma DecimalChars(n: nat)
    requires n < 1000
    ensures |Decimal3(n)| == 3 && '\n' !in Decimal3(n)
  {
    Decimals(n);
  }

  lemma PrintedFinal(p: Printed, i: nat)
    requires Printable(p) && i < |p.texts|
    ensures '\n' !in PrintedLines(p)[i]
    ensures Final(PrintedLines(p)[i]) <==> i == |p.texts| - 1
    ensures i == |p.texts| - 1 ==> Code(PrintedLines(p)[i]) == p.code
  {
    hide Decimal3, Code;
    DecimalChars(p.code);
    if i == |p.texts| - 1 {
      PrintedCode(p.code, p.texts[i]);
    } else {
      assert PrintedLines(p)[i] == Decimal3(p.code) + "-" + p.texts[i];
      assert PrintedLines(p)[i][3] == '-';
    }
  }

  // ----- Lines -------------------------------------------------------------------------------

  /** Terminated lines are read back, whatever follows them. */
  lemma {:induction false} LinesOfTerminated(lines: seq<string>, rest: string)
    requires forall i :: 0 <= i < |lines| ==> '\n' !in lines[i]
    ensures Lines(Terminated(lines) + rest) == lines + Lines(rest)
  {
    hide Lines;
    if lines == [] {
      assert "" + rest == rest;
    } else {
      var more := Terminated(lines[1..]) + rest;
      LinesOfTerminated(lines[1..], rest);
      assert Terminated(lines) + rest == lines[0] + ("\r\n" + more);
      LinesOfFirst(lines[0], more);
      assert [lines[0]] + (lines[1..] + Lines(rest)) == lines + Lines(rest);
    }
  }

  lemma LinesOfFirst(line: string, more: string)
    requires '\n' !in line
    ensures Lines(line + ("\r\n" + more)) == [line] + Lines(more)
  {
    ExtendConcat([""], line, "\r\n" + more);
    ExtendOneLine("", line);
    assert "" + line == line;
    CrLfCloses(line, more);
    ExtendPrefix([line], [""], more);
  }

  lemma PrintedCount(p: Printed)
    requires Printable(p)
    ensures |PrintedLines(p)| == |p.texts|
  {
  }

  lemma FirstFinalOf(p: Printed, more: seq<string>)
    requires Printable(p)
    ensures var lines := PrintedLines(p) + more;
      && FirstFinal(lines) == |p.texts| - 1 && ReplyEndingAt(lines, |p.texts| - 1) == AsReply(p)
  {
    hide PrintedLines, Final, Code;
    PrintedCount(p);
    var lines := PrintedLines(p) + more;
    forall i | 0 <= i < |p.texts|
      ensures Final(lines[i]) <==> i == |p.texts| - 1
      ensures i == |p.texts| - 1 ==> Code(lines[i]) == p.code
    {
      PrintedFinal(p, i);
      assert lines[i] == PrintedLines(p)[i];
    }
    var first, last := FirstFinal(lines), |p.texts| - 1;
    assert Final(lines[last]);
    assert first <= last;
    assert Final(lines[first]);
    assert lines[..|p.texts|] == PrintedLines(p);
  }

  // ----- Reading back ------------------------------------------------------------------------

  /**
   The parser takes a printed reply from the front of the buffer with its code and all its lines, and leaves what
   follows it.
   */
  lemma TakePrinted(p: Printed, rest: string)
    requires Printable(p)
    ensures var (reply, left) := Take(PrintReply(p) + rest);
      reply == Some(Reply(p.code, Join(PrintedLines(p), "\n"))) && Lines(left) == Lines(rest)
  {
    hide PrintedLines, Lines, FirstFinal, Final, Join;
    var buffer := PrintReply(p) + rest;
    assert |PrintedLines(p)| == |p.texts| by { PrintedCount(p); }
    forall i | 0 <= i < |p.texts| ensures '\n' !in PrintedLines(p)[i] { PrintedFinal(p, i); }
    LinesOfTerminated(PrintedLines(p), rest);
    FirstFinalOf(p, Lines(rest));
    RestLines(buffer);
    var lines := PrintedLines(p) + Lines(rest);
    assert Take(buffer).0 == Some(ReplyEndingAt(lines, |p.texts| - 1));
    assert lines[|p.texts|..] == Lines(rest);
  }

  lemma {:induction false} LinesOfAll(ps: seq<Printed>, rest: string)
    requires AllPrintable(ps)
    ensures Lines(PrintAll(ps) + rest) == AllLines(ps) + Lines(rest)
  {
    hide PrintedLines, Lines;
    if ps == [] {
      assert "" + rest == rest;
    } else {
      var p := ps[0];
      PrintedCount(p);
      forall i | 0 <= i < |p.texts| ensures '\n' !in PrintedLines(p)[i] { PrintedFinal(p, i); }
      assert PrintAll(ps) + rest == PrintReply(p) + (PrintAll(ps[1..]) + rest);
      LinesOfTerminated(PrintedLines(p), PrintAll(ps[1..]) + rest);
      LinesOfAll(ps[1..], rest);
      assert AllLines(ps) + Lines(rest) == PrintedLines(p) + (AllLines(ps[1..]) + Lines(rest));
    }
  }

  lemma RepliesOfPrinted(p: Printed, more: seq<string>)
    requires Printable(p)
    ensures RepliesOf(PrintedLines(p) + more) == [AsReply(p)] + RepliesOf(more)
  {
    hide PrintedLines, AsReply, FirstFinal, ReplyEndingAt;
    PrintedCount(p);
    FirstFinalOf(p, more);
    assert (PrintedLines(p) + more)[|p.texts|..] == more;
  }

  lemma NoReplies()
    ensures RepliesOf([]) == []
  {
  }

  lemma {:induction false} RepliesOfAll(ps: seq<Printed>)
    requires AllPrintable(ps)
    ensures RepliesOf(AllLines(ps)) == seq(|ps|, i requires 0 <= i < |ps| => AsReply(ps[i]))
  {
    hide PrintedLines, AsReply, RepliesOf;
    if ps == [] {
      NoReplies();
    } else {
      RepliesOfPrinted(ps[0], AllLines(ps[1..]));
      RepliesOfAll(ps[1..]);
    }
  }

  /** A stream of printed replies holds exactly those replies, codes and texts. */
  lemma WholeRepliesPrinted(ps: seq<Printed>)
    requires AllPrintable(ps)
    ensures |WholeReplies(PrintAll(ps))| == |ps|
    ensures forall i :: 0 <= i < |ps| ==>
      WholeReplies(PrintAll(ps))[i] == Reply(ps[i].code, Join(PrintedLines(ps[i]), "\n"))
  {
    LinesOfAll(ps, "");
    assert PrintAll(ps) + "" == PrintAll(ps) && Lines("") == [""];
    assert Init(AllLines(ps) + [""]) == AllLines(ps);
    RepliesOfAll(ps);
  }

  /**
   End to end: when a read waits for each reply and no data event ends inside the last line of a reply, past its code,
   the i-th read gets the i-th printed reply, code and text.
   */
  lemma PrintedRepliesReachReads(ps: seq<Printed>, events: seq<Event>)
    requires AllPrintable(ps) && Stream(events) == PrintAll(ps)
    requires WaiterPerReply(FRESH, events) && ClosedThroughout("", events)
    ensures var taken := Run(FRESH, events).taken;
      && |taken| == |ps|
      && forall i :: 0 <= i < |ps| ==>
           taken[i] == Delivered(i, Reply(ps[i].code, Join(PrintedLines(ps[i]), "\n")))
  {
    hide Run, WaiterPerReply, ClosedThroughout, WholeReplies, Stream, PrintAll, PrintedLines;
    WholeRepliesPrinted(ps);
    TextsLossless(events);
  }
}
