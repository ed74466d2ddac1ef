/**
 What the message's format guarantees: it ends once, and its lines come back as they were. This is
 section 4.5.2 of RFC 5321, up to the characters after which the printer sees a line start.
 */
module SmtpRoundTrip {
  import opened Strings
  import opened SmtpReplies
  import opened SmtpMessage

  // ----- The end mark ------------------------------------------------------------------------

  const END_MARK := "\r\n.\r\n"

  // s starts with the line l: its first line feed is the one that ends l.
  predicate StartsWithLine(s: string, l: string) {
    |s| >= |l| + 2 && s[..|l|] == l && s[|l|] == '\r' && s[|l| + 1] == '\n' && '\n' !in l
  }

  lemma EndMarkPosition(s: string, i: nat, l: string)
    requires StartsWithLine(s, l) && OccursAt(s, END_MARK, i)
    ensures i == |l| || i >= |l| + 2
    ensures s[i + 2] == '.' && s[i + 3] == '\r' && s[i + 4] == '\n'
  {
    var m := s[i..i + 5];
    assert m[0] == s[i] && m[1] == s[i + 1] && m[2] == s[i + 2] && m[3] == s[i + 3] && m[4] == s[i + 4];
    forall k | 0 <= k < |l| ensures s[k] != '\n' { assert s[k] == l[k]; }
    assert s[i + 1] == '\n' && s[i] == '\r';
  }

  lemma OccursShift(s: string, n: nat, i: nat)
    requires n <= |s|
    ensures OccursAt(s, END_MARK, n + i) <==> OccursAt(s[n..], END_MARK, i)
  {
    if i + 5 <= |s| - n { assert s[n + i..n + i + 5] == s[n..][i..i + 5]; }
  }

  // Right after a line comes the end mark only when the next line is a single dot.
  lemma DotLineNeeded(s: string, l: string, next: string)
    requires StartsWithLine(s, l) && StartsWithLine(s[|l| + 2..], next) && OccursAt(s, END_MARK, |l|)
    ensures next == "."
  {
    EndMarkPosition(s, |l|, l);
    var rest := s[|l| + 2..];
    assert rest[0] == '.' && rest[1] == '\r' && rest[2] == '\n';
    forall k | 0 <= k < |next| ensures rest[k] == next[k] && next[k] != '\n' {
      assert rest[..|next|][k] == rest[k];
    }
  }

  lemma TerminatedStarts(lines: seq<string>)
    requires lines != [] && '\n' !in lines[0]
    ensures var s := Terminated(lines) + ".\r\n";
      StartsWithLine(s, lines[0]) && s[|lines[0]| + 2..] == Terminated(lines[1..]) + ".\r\n"
  {
    assert Terminated(lines) + ".\r\n" == lines[0] + "\r\n" + (Terminated(lines[1..]) + ".\r\n");
  }

  lemma EndMarkStep(s: string, l: string, i: nat)
    requires StartsWithLine(s, l)
    requires var rest := s[|l| + 2..];
      && (i >= |l| + 2 ==> (OccursAt(rest, END_MARK, i - |l| - 2) <==> i - |l| - 2 + |END_MARK| == |rest|))
      && (rest == ".\r\n" || (|rest| > 4 && exists next :: next != "." && StartsWithLine(rest, next)))
    ensures OccursAt(s, END_MARK, i) <==> i + |END_MARK| == |s|
  {
    var rest := s[|l| + 2..];
    if i >= |l| + 2 {
      OccursShift(s, |l| + 2, i - |l| - 2);
    } else if rest == ".\r\n" {
      assert s[|l|..|l| + 5] == "\r\n" + rest == END_MARK;
      if OccursAt(s, END_MARK, i) { EndMarkPosition(s, i, l); }
    } else {
      var next :| next != "." && StartsWithLine(rest, next);
      if OccursAt(s, END_MARK, i) {
        EndMarkPosition(s, i, l);
        DotLineNeeded(s, l, next);
        assert false;
      }
    }
  }

  lemma {:induction false} EndMarkOnlyAtEnd(lines: seq<string>, i: nat)
    requires lines != [] && forall j :: 0 <= j < |lines| ==> Sendable(lines[j])
    ensures var s := Terminated(lines) + ".\r\n";
      OccursAt(s, END_MARK, i) <==> i + |END_MARK| == |s|
  {
    var s, l := Terminated(lines) + ".\r\n", lines[0];
    TerminatedStarts(lines);
    if |lines| == 1 {
      assert s[|l| + 2..] == ".\r\n";
    } else {
      TerminatedStarts(lines[1..]);
      EndMarkOnlyAtEnd(lines[1..], if i >= |l| + 2 then i - |l| - 2 else 0);
    }
    EndMarkStep(s, l, i);
  }

  /** CRLF "." CRLF occurs in a message at its end and nowhere else, whatever the body. */
  lemma MessageEndsOnce(email: Email, i: nat)
    requires '\n' !in email.from && '\n' !in email.to
    ensures OccursAt(FormatMessage(email), END_MARK, i) <==> i + |END_MARK| == |FormatMessage(email)|
  {
    MessageIsLines(email);
    WireIsSendable(email);
    EndMarkOnlyAtEnd(WireLines(email), i);
  }

  // ----- The round trip ----------------------------------------------------------------------

  lemma {:induction false} FirstCrLfAfterLine(line: string, rest: string)
    requires '\n' !in line
    ensures FirstCrLf(line + "\r\n" + rest) == |line|
  {
    var s := line + "\r\n" + rest;
    if line == "" {
      assert s[..2] == "\r\n";
    } else {
      assert s[1..] == line[1..] + "\r\n" + rest;
      assert s[1] == if |line| > 1 then line[1] else '\r';
      assert s[..2][1] == s[1] != '\n';
      FirstCrLfAfterLine(line[1..], rest);
    }
  }

  lemma {:induction false} ReceiveLines(lines: seq<string>)
    requires forall j :: 0 <= j < |lines| ==> Sendable(lines[j])
    ensures Receive(Terminated(lines) + ".\r\n") == Some((Terminated(UnstuffedLines(lines)), ""))
  {
    var s := Terminated(lines) + ".\r\n";
    if lines == [] {
      assert s == "." + "\r\n" + "";
      FirstCrLfAfterLine(".", "");
      assert s[..1] == "." && s[1 + 2..] == "";
    } else {
      var rest := Terminated(lines[1..]) + ".\r\n";
      assert s == lines[0] + "\r\n" + rest;
      FirstCrLfAfterLine(lines[0], rest);
      assert s[..|lines[0]|] == lines[0] && s[|lines[0]| + 2..] == rest;
      ReceiveLines(lines[1..]);
      assert UnstuffedLines(lines)[1..] == UnstuffedLines(lines[1..]);
    }
  }

  /** A bare CR, or a Unicode line or paragraph separator. */
  predicate BareTerminator(c: char) { LineTerminator(c) && c != '\n' }

  /** No dot directly after one of them. */
  ghost predicate DotSafe(text: string) {
    forall i :: 0 < i < |text| && text[i] == '.' ==> !BareTerminator(text[i - 1])
  }

  lemma DotSafeTail(text: string)
    requires text != ""
    ensures DotSafe(text) <==>
      && DotSafe(text[1..])
      && (|text| > 1 && text[1] == '.' ==> !BareTerminator(text[0]))
  {
    var t := text[1..];
    assert forall i :: 0 < i < |t| ==> t[i] == text[i + 1] && t[i - 1] == text[i];
    if DotSafe(t) && (|text| > 1 && text[1] == '.' ==> !BareTerminator(text[0])) {
      forall i | 0 < i < |text| && text[i] == '.' ensures !BareTerminator(text[i - 1]) {
        if i > 1 { assert t[i - 1] == '.'; }
      }
    }
    if DotSafe(text) {
      forall i | 0 < i < |t| && t[i] == '.' ensures !BareTerminator(t[i - 1]) {
        assert text[i + 1] == '.';
      }
    }
  }

  // Stuffing inside a line only ever adds dots, and adds none exactly when the line is dot safe.
  lemma {:induction false} StuffInside(line: string, after: char)
    requires '\n' !in line && after != '\n'
    ensures |Stuff(line, LineTerminator(after))| >= |line|
    ensures |Stuff(line, LineTerminator(after))| == |line| <==> DotSafe([after] + line)
    ensures DotSafe([after] + line) ==> Stuff(line, LineTerminator(after)) == line
  {
    var all := [after] + line;
    if line != "" {
      StuffInside(line[1..], line[0]);
      assert [line[0]] + line[1..] == line;
      DotSafeTail(all);
      assert all[1..] == line && all[1] == line[0];
    }
  }

  lemma StuffedLineRoundTrip(line: string)
    requires '\n' !in line
    ensures var back := DropDot(Stuff(line, true));
      && |back| >= |line|
      && (|back| == |line| <==> DotSafe(line))
      && (DotSafe(line) ==> back == line)
  {
    if line != "" {
      UndoStuffedStart(line);
      StuffInside(line[1..], line[0]);
      assert [line[0]] + line[1..] == line;
    }
  }

  lemma UndoStuffedStart(line: string)
    requires line != ""
    ensures DropDot(Stuff(line, true)) == [line[0]] + Stuff(line[1..], LineTerminator(line[0]))
  {
    hide LineTerminator;
    var inner := Stuff(line[1..], LineTerminator(line[0]));
    assert Stuff(line, true) == (if line[0] == '.' then ".." else [line[0]]) + inner;
    hide Stuff;
    if line[0] == '.' { assert (".." + inner)[1..] == "." + inner; }
  }

  lemma {:induction false} LinesRoundTrip(lines: seq<string>)
    requires forall j :: 0 <= j < |lines| ==> '\n' !in lines[j]
    ensures var back := Terminated(UnstuffedLines(StuffedLines(lines)));
      && |back| >= |Terminated(lines)|
      && (|back| == |Terminated(lines)| <==> AllDotSafe(lines))
      && (AllDotSafe(lines) ==> back == Terminated(lines))
  {
    hide Stuff, DropDot, DotSafe;
    if lines != [] {
      StuffedLineRoundTrip(lines[0]);
      LinesRoundTrip(lines[1..]);
      assert UnstuffedLines(StuffedLines(lines))[1..] == UnstuffedLines(StuffedLines(lines[1..]));
      assert lines == [lines[0]] + lines[1..];
      AllDotSafeCons(lines[0], lines[1..]);
    }
  }

  lemma DotSafeAcrossBreak(open: string, rest: string)
    ensures DotSafe(open + "\n" + rest) <==> DotSafe(DropCr(open)) && DotSafe(rest)
  {
    var all, line := open + "\n" + rest, DropCr(open);
    assert forall i :: 0 <= i < |rest| ==> rest[i] == all[|open| + 1 + i];
    assert forall i :: 0 <= i < |line| ==> line[i] == all[i];
    if DotSafe(all) {
      forall i | 0 < i < |rest| && rest[i] == '.' ensures !BareTerminator(rest[i - 1]) {
        assert all[|open| + 1 + i] == '.';
      }
    }
    if DotSafe(line) && DotSafe(rest) {
      forall i | 0 < i < |all| && all[i] == '.' ensures !BareTerminator(all[i - 1]) {
        if i < |open| {
          assert i < |line|;
        } else {
          assert i > |open|;
          assert i > |open| + 1 ==> rest[i - |open| - 1] == '.';
        }
      }
    }
  }

  ghost predicate AllDotSafe(lines: seq<string>) {
    forall j :: 0 <= j < |lines| ==> DotSafe(lines[j])
  }

  lemma AllDotSafeCons(line: string, lines: seq<string>)
    ensures AllDotSafe([line] + lines) <==> DotSafe(line) && AllDotSafe(lines)
  {
    var all := [line] + lines;
    assert all[0] == line;
    assert forall j :: 0 <= j < |lines| ==> lines[j] == all[j + 1];
    assert forall j :: 0 < j < |all| ==> all[j] == lines[j - 1];
  }

  lemma BreakEndsLine(open: string, rest: string)
    ensures Extend([open], ['\n'] + rest) == [DropCr(open)] + Extend([""], rest)
  {
    assert PushChar([open], '\n') == [DropCr(open)] + [""];
    assert (['\n'] + rest)[1..] == rest;
    ExtendPrefix([DropCr(open)], [""], rest);
  }

  /** A text is dot safe exactly when each of its lines is. */
  lemma {:induction false} DotSafeByLine(open: string, text: string)
    ensures DotSafe(open + text) <==> AllDotSafe(Extend([open], text))
    decreases |text|
  {
    if text == "" {
      assert open + text == open;
      assert Extend([open], text) == [open];
    } else {
      var rest := text[1..];
      assert text == [text[0]] + rest;
      if text[0] == '\n' {
        BreakEndsLine(open, rest);
        assert open + text == open + "\n" + rest && "" + rest == rest;
        DotSafeAcrossBreak(open, rest);
        DotSafeByLine("", rest);
        AllDotSafeCons(DropCr(open), Extend([""], rest));
      } else {
        CharStaysOpen(open, text[0], rest);
        assert open + text == open + [text[0]] + rest;
        DotSafeByLine(open + [text[0]], rest);
      }
    }
  }

  // ----- Headers -----------------------------------------------------------------------------

  predicate BreakRun(run: string) {
    run != "" && forall i :: 0 <= i < |run| ==> run[i] in {'\r', '\n'}
  }

  /** Words without line breaks and the runs of breaks between them; only the outer words may be empty. */
  predicate Woven(words: seq<string>, runs: seq<string>) {
    && |words| == |runs| + 1
    && (forall i :: 0 <= i < |words| ==> FreeOf(words[i], {'\r', '\n'}))
    && (forall i :: 0 <= i < |runs| ==> BreakRun(runs[i]))
    && (forall i :: 0 < i < |runs| ==> words[i] != "")
  }

  function Weave(words: seq<string>, runs: seq<string>): string
    requires |words| == |runs| + 1
  {
    if runs == [] then words[0] else words[0] + (runs[0] + Weave(words[1..], runs[1..]))
  }

  lemma {:induction false} FoldWord(word: string, rest: string)
    requires FreeOf(word, {'\r', '\n'})
    ensures FoldBreaks(word + rest) == word + FoldBreaks(rest)
  {
    if word == "" {
      assert word + rest == rest;
    } else {
      assert (word + rest)[1..] == word[1..] + rest;
      FoldWord(word[1..], rest);
    }
  }

  lemma {:induction false} SkipRun(run: string, rest: string)
    requires forall i :: 0 <= i < |run| ==> run[i] in {'\r', '\n'}
    requires rest == "" || rest[0] !in {'\r', '\n'}
    ensures SkipBreaks(run + rest) == rest
  {
    if run == "" {
      assert run + rest == rest;
    } else {
      assert (run + rest)[1..] == run[1..] + rest;
      SkipRun(run[1..], rest);
    }
  }

  lemma {:induction false} FoldWoven(words: seq<string>, runs: seq<string>)
    requires Woven(words, runs)
    ensures FoldBreaks(Weave(words, runs)) == Join(words, " ")
  {
    if runs == [] {
      FoldWord(words[0], "");
      assert words[0] + "" == words[0];
    } else {
      var rest := Weave(words[1..], runs[1..]);
      RestWoven(words, runs);
      FoldWoven(words[1..], runs[1..]);
      FoldWord(words[0], runs[0] + rest);
      SkipRun(runs[0], rest);
      assert words[0] + (" " + FoldBreaks(rest)) == words[0] + " " + FoldBreaks(rest);
    }
  }

  lemma RestWoven(words: seq<string>, runs: seq<string>)
    requires Woven(words, runs) && runs != []
    ensures Woven(words[1..], runs[1..])
    ensures var rest := Weave(words[1..], runs[1..]); rest == "" || rest[0] !in {'\r', '\n'}
  {
    assert forall i :: 0 <= i < |runs| - 1 ==> runs[1..][i] == runs[i + 1];
    assert forall i :: 0 <= i < |words| - 1 ==> words[1..][i] == words[i + 1];
  }

  /** Every text is woven in this way. */
  lemma {:induction false} Unweave(text: string) returns (words: seq<string>, runs: seq<string>)
    ensures Woven(words, runs) && Weave(words, runs) == text
    ensures text != "" && text[0] !in {'\r', '\n'} ==> words[0] != ""
    decreases |text|
  {
    if text == "" {
      words, runs := [""], [];
    } else {
      var c, rest := text[0], text[1..];
      assert text == [c] + rest;
      words, runs := Unweave(rest);
      if c in {'\r', '\n'} {
        words, runs := AddBreak(words, runs, c);
      } else {
        words, runs := AddChar(words, runs, c);
      }
    }
  }

  lemma AddChar(words: seq<string>, runs: seq<string>, c: char) returns (w: seq<string>, r: seq<string>)
    requires Woven(words, runs) && c !in {'\r', '\n'}
    ensures Woven(w, r) && Weave(w, r) == [c] + Weave(words, runs) && w[0] != ""
  {
    w, r := words[0 := [c] + words[0]], runs;
    assert w[1..] == words[1..];
    if runs != [] {
      var more := runs[0] + Weave(words[1..], runs[1..]);
      assert [c] + words[0] + more == [c] + (words[0] + more);
    }
  }

  lemma AddBreak(words: seq<string>, runs: seq<string>, c: char) returns (w: seq<string>, r: seq<string>)
    requires Woven(words, runs) && c in {'\r', '\n'}
    ensures Woven(w, r) && Weave(w, r) == [c] + Weave(words, runs)
  {
    if words[0] == "" && runs != [] {
      w, r := words, runs[0 := [c] + runs[0]];
      assert r[1..] == runs[1..];
      var more := Weave(words[1..], runs[1..]);
      assert "" + ([c] + runs[0] + more) == [c] + ("" + (runs[0] + more));
    } else {
      w, r := [""] + words, [[c]] + runs;
      assert w[1..] == words && r[1..] == runs;
      assert "" + ([c] + Weave(words, runs)) == [c] + Weave(words, runs);
    }
  }

  /** The subject with one space for each run of line breaks, as far as 160 characters. */
  function SubjectLine(words: seq<string>): string {
    var line := Join(words, " ");
    line[..Min(160, |line|)]
  }

  /** A subject without line breaks and of at most 160 characters is printed as it is; any other as its subject line. */
  lemma SubjectPrinted(subject: string, words: seq<string>, runs: seq<string>)
    requires Woven(words, runs) && subject == Weave(words, runs)
    ensures EscapeMailHeader(subject) == SubjectLine(words)
    ensures FreeOf(subject, {'\r', '\n'}) && |subject| <= 160 ==> EscapeMailHeader(subject) == subject
  {
    FoldWoven(words, runs);
    if FreeOf(subject, {'\r', '\n'}) {
      FoldWord(subject, "");
      assert subject + "" == subject;
    }
  }

  /** The header as a server should get it. */
  function HeaderText(from: string, to: string, subject: string): string {
    "From: " + from + "\r\n"
    + ("To: " + to + "\r\n"
       + ("Subject: " + subject + "\r\n"
          + ("Content-Type: text/plain; charset=utf-8" + "\r\n"
             + ("Content-Transfer-Encoding: 8bit" + "\r\n" + "\r\n"))))
  }

  lemma HeaderIsText(email: Email)
    ensures Terminated(HeaderLines(email) + [""]) ==
      HeaderText(email.from, email.to, EscapeMailHeader(email.subject))
  {
    hide EscapeMailHeader;
    var h := HeaderLines(email);
    assert h + [""] == [h[0], h[1], h[2], h[3], h[4], ""];
    SixTerminated(h[0], h[1], h[2], h[3], h[4]);
  }

  lemma SixTerminated(a: string, b: string, c: string, d: string, e: string)
    ensures Terminated([a, b, c, d, e, ""]) ==
      a + "\r\n" + (b + "\r\n" + (c + "\r\n" + (d + "\r\n" + (e + "\r\n" + "\r\n"))))
  {
    TerminatedFirst(a, [b, c, d, e, ""]);
    TerminatedFirst(b, [c, d, e, ""]);
    TerminatedFirst(c, [d, e, ""]);
    TerminatedFirst(d, [e, ""]);
    TerminatedFirst(e, [""]);
    TerminatedOne("");
    assert "" + "\r\n" == "\r\n";
  }

  lemma TerminatedFirst(line: string, lines: seq<string>)
    ensures Terminated([line] + lines) == line + "\r\n" + Terminated(lines)
  {
    assert ([line] + lines)[1..] == lines;
  }

  // ----- The message -------------------------------------------------------------------------

  lemma HeadersUnchanged(email: Email)
    ensures UnstuffedLines(HeaderLines(email) + [""]) == HeaderLines(email) + [""]
  {
    var head := HeaderLines(email) + [""];
    assert head[0][0] == 'F' && head[1][0] == 'T' && head[2][0] == 'S' && head[3][0] == 'C' && head[4][0] == 'C';
  }

  /**
   The server reads the message to its end, and gets the sender, the recipient, the subject line and, after an empty
   line, a body that is the text with CRLF line breaks exactly when the text is dot safe.
   */
  lemma DotStuffingRoundTrip(email: Email, words: seq<string>, runs: seq<string>)
    requires '\n' !in email.from && '\n' !in email.to
    requires Woven(words, runs) && email.subject == Weave(words, runs)
    ensures var r, head := Receive(FormatMessage(email)), HeaderText(email.from, email.to, SubjectLine(words));
      && r.Some? && r.value.1 == "" && head <= r.value.0
      && (r.value.0 == head + (NormalizeBreaks(email.text) + "\r\n") <==> DotSafe(email.text))
  {
    hide HeaderLines, HeaderText, SubjectLine, EscapeMailHeader, FormatMessage, Receive, Lines, Woven, Weave, DotSafe;
    var head, lines := HeaderLines(email) + [""], Lines(email.text);
    SubjectPrinted(email.subject, words, runs);
    HeaderIsText(email);
    MessageIsLines(email);
    WireIsSendable(email);
    ReceiveLines(WireLines(email));
    HeadersUnchanged(email);
    assert UnstuffedLines(WireLines(email)) == head + UnstuffedLines(StuffedLines(lines));
    TerminatedConcat(head, UnstuffedLines(StuffedLines(lines)));
    BodyRoundTrip(email.text);
    var back := Terminated(UnstuffedLines(StuffedLines(lines)));
    SameHead(Terminated(head), back, NormalizeBreaks(email.text) + "\r\n");
  }

  lemma SameHead(head: string, a: string, b: string)
    ensures head <= head + a && (head + a == head + b <==> a == b)
  {
    assert (head + a)[|head|..] == a && (head + b)[|head|..] == b;
  }

  lemma BodyRoundTrip(text: string)
    ensures Terminated(UnstuffedLines(StuffedLines(Lines(text)))) == NormalizeBreaks(text) + "\r\n" <==> DotSafe(text)
  {
    var lines := Lines(text);
    NormalizeIsJoin("", text);
    assert "" + NormalizeBreaks(text) == NormalizeBreaks(text);
    JoinIsTerminated(lines);
    ExtendFreeOfLf([""], text);
    LinesRoundTrip(lines);
    DotSafeByLine("", text);
    assert "" + text == text;
  }
}
