/**
 The printer of the SMTP client, and the reader that section 4.5.2 of RFC 5321 asks of the
 server: the message ends where the client ends it and its lines come back as they were.
 */
module SmtpMessage {
  import opened Strings
  import opened SmtpReplies

  datatype Email = Email(from: string, to: string, subject: string, text: string)

  // ----- Printing ----------------------------------------------------------------------------

  /** text.replace(/\r?\n/g, "\r\n") */
  function NormalizeBreaks(text: string): string {
    if text == "" then ""
    else if |text| >= 2 && text[..2] == "\r\n" then "\r\n" + NormalizeBreaks(text[2..])
    else if text[0] == '\n' then "\r\n" + NormalizeBreaks(text[1..])
    else [text[0]] + NormalizeBreaks(text[1..])
  }

  /** The characters after which ^ matches under the m flag. */
  predicate LineTerminator(c: char) { c in {'\n', '\r', '\U{2028}', '\U{2029}'} }

  /** text.replace(/^\./gm, ".."), lineStart telling whether ^ matches at the front. */
  function Stuff(text: string, lineStart: bool): string {
    if text == "" then ""
    else (if lineStart && text[0] == '.' then ".." else [text[0]]) + Stuff(text[1..], LineTerminator(text[0]))
  }

  function SkipBreaks(value: string): (r: string)
    ensures |r| <= |value|
  {
    if value != "" && value[0] in {'\r', '\n'} then SkipBreaks(value[1..]) else value
  }

  /** value.replace(/[\r\n]+/g, " ") */
  function FoldBreaks(value: string): (r: string)
    ensures FreeOf(r, {'\r', '\n'})
    decreases |value|
  {
    if value == "" then ""
    else if value[0] in {'\r', '\n'} then " " + FoldBreaks(SkipBreaks(value))
    else [value[0]] + FoldBreaks(value[1..])
  }

  function EscapeMailHeader(value: string): (r: string)
    ensures FreeOf(r, {'\r', '\n'}) && |r| <= 160
  {
    var folded := FoldBreaks(value);
    if |folded| <= 160 then folded else folded[..160]
  }

  function HeaderLines(email: Email): seq<string> {
    ["From: " + email.from,
     "To: " + email.to,
     "Subject: " + EscapeMailHeader(email.subject),
     "Content-Type: text/plain; charset=utf-8",
     "Content-Transfer-Encoding: 8bit"]
  }

  function FormatMessage(email: Email): string {
    Join(HeaderLines(email) + ["", Stuff(NormalizeBreaks(email.text), true), ".", ""], "\r\n")
  }

  // ----- Receiving ---------------------------------------------------------------------------

  function FirstCrLf(data: string): (i: nat)
    ensures i <= |data|
    ensures i < |data| ==> i + 2 <= |data|
  {
    if |data| < 2 then |data|
    else if data[..2] == "\r\n" then 0
    else var i := FirstCrLf(data[1..]); if i == |data| - 1 then |data| else 1 + i
  }

  function DropDot(line: string): string {
    if line != "" && line[0] == '.' then line[1..] else line
  }

  /** The server's reader: the mail data up to the line ".", and what follows it. */
  function Receive(data: string): Option<(string, string)>
    decreases |data|
  {
    var i := FirstCrLf(data);
    if i == |data| then None
    else if data[..i] == "." then Some(("", data[i + 2..]))
    else
      match Receive(data[i + 2..])
      case None => None
      case Some((content, rest)) => Some((DropDot(data[..i]) + "\r\n" + content, rest))
  }

  // ----- Lines -------------------------------------------------------------------------------

  /** Each line followed by CRLF. */
  function Terminated(lines: seq<string>): string {
    if lines == [] then "" else lines[0] + "\r\n" + Terminated(lines[1..])
  }

  function StuffedLines(lines: seq<string>): seq<string> {
    seq(|lines|, i requires 0 <= i < |lines| => Stuff(lines[i], true))
  }

  function UnstuffedLines(lines: seq<string>): seq<string> {
    seq(|lines|, i requires 0 <= i < |lines| => DropDot(lines[i]))
  }

  // A line the transport can carry: no line feed inside, and not the end mark.
  predicate Sendable(line: string) { '\n' !in line && line != "." }

  lemma {:induction false} JoinTerminated(lines: seq<string>)
    ensures Join(lines + [""], "\r\n") == Terminated(lines)
  {
    if lines == [] {
    } else {
      assert (lines + [""])[1..] == lines[1..] + [""];
      JoinTerminated(lines[1..]);
    }
  }

  lemma {:induction false} TerminatedConcat(a: seq<string>, b: seq<string>)
    ensures Terminated(a + b) == Terminated(a) + Terminated(b)
  {
    if a == [] {
      assert a + b == b;
    } else {
      assert (a + b)[1..] == a[1..] + b;
      TerminatedConcat(a[1..], b);
      assert a[0] + "\r\n" + (Terminated(a[1..]) + Terminated(b)) == a[0] + "\r\n" + Terminated(a[1..]) + Terminated(b);
    }
  }

  lemma {:induction false} JoinIsTerminated(lines: seq<string>)
    requires lines != []
    ensures Join(lines, "\r\n") + "\r\n" == Terminated(lines)
  {
    if |lines| > 1 {
      JoinIsTerminated(lines[1..]);
      assert lines[0] + "\r\n" + Join(lines[1..], "\r\n") + "\r\n" ==
        lines[0] + "\r\n" + (Join(lines[1..], "\r\n") + "\r\n");
    } else {
      assert lines[1..] == [];
      assert lines[0] + "\r\n" + "" == lines[0] + "\r\n";
    }
  }

  lemma CrLfCloses(open: string, rest: string)
    ensures Extend([open], "\r\n" + rest) == Extend([open] + [""], rest)
  {
    var text := "\r\n" + rest;
    assert text[1..] == "\n" + rest && text[1..][1..] == rest;
    assert PushChar([open], '\r') == [open + "\r"];
    assert PushChar([open + "\r"], '\n') == [open] + [""];
  }

  lemma LfCloses(open: string, rest: string)
    requires DropCr(open) == open
    ensures Extend([open], "\n" + rest) == Extend([open] + [""], rest)
  {
    var text := "\n" + rest;
    assert text[1..] == rest;
    assert PushChar([open], '\n') == [open] + [""];
  }

  lemma JoinFirst(open: string, tail: seq<string>)
    requires tail != []
    ensures Join([open] + tail, "\r\n") == open + ("\r\n" + Join(tail, "\r\n"))
  {
    assert ([open] + tail)[1..] == tail;
  }

  lemma BreakCloses(open: string, text: string, rest: string)
    requires text == "\r\n" + rest || (text == "\n" + rest && DropCr(open) == open)
    ensures Extend([open], text) == [open] + Extend([""], rest)
    ensures Join(Extend([open], text), "\r\n") == open + ("\r\n" + Join(Extend([""], rest), "\r\n"))
  {
    hide PushChar, Join;
    if text == "\r\n" + rest {
      CrLfCloses(open, rest);
    } else {
      LfCloses(open, rest);
    }
    ExtendPrefix([open], [""], rest);
    JoinFirst(open, Extend([""], rest));
  }

  lemma CharStaysOpen(open: string, c: char, rest: string)
    requires c != '\n'
    ensures Extend([open], [c] + rest) == Extend([open + [c]], rest)
  {
    assert ([c] + rest)[1..] == rest;
    assert PushChar([open], c) == [open + [c]];
  }

  lemma NormalizeStep(text: string)
    requires text != ""
    ensures |text| >= 2 && text[..2] == "\r\n" ==> NormalizeBreaks(text) == "\r\n" + NormalizeBreaks(text[2..])
    ensures text[0] == '\n' ==> NormalizeBreaks(text) == "\r\n" + NormalizeBreaks(text[1..])
    ensures !(|text| >= 2 && text[..2] == "\r\n") && text[0] != '\n' ==>
      NormalizeBreaks(text) == [text[0]] + NormalizeBreaks(text[1..])
  {
    assert |text| >= 2 && text[..2] == "\r\n" ==> text[0] == text[..2][0];
  }

  lemma NormalizeAfterBreak(open: string, text: string, rest: string, normalized: string)
    requires text == "\r\n" + rest || (text == "\n" + rest && DropCr(open) == open)
    requires Join(Extend([""], rest), "\r\n") == "" + normalized
    ensures Join(Extend([open], text), "\r\n") == open + ("\r\n" + normalized)
  {
    hide Extend, PushChar, Join;
    BreakCloses(open, text, rest);
    assert "" + normalized == normalized;
  }

  lemma NormalizeAfterChar(open: string, c: char, rest: string, normalized: string)
    requires c != '\n'
    requires Join(Extend([open + [c]], rest), "\r\n") == open + [c] + normalized
    ensures Join(Extend([open], [c] + rest), "\r\n") == open + ([c] + normalized)
  {
    hide Extend, PushChar, Join;
    CharStaysOpen(open, c, rest);
    assert open + [c] + normalized == open + ([c] + normalized);
  }

  /** Normalising the breaks is joining the text's lines with CRLF. */
  lemma {:induction false} NormalizeIsJoin(open: string, text: string)
    requires DropCr(open) == open || text == "" || text[0] != '\n'
    ensures Join(Extend([open], text), "\r\n") == open + NormalizeBreaks(text)
    decreases |text|
  {
    if text == "" {
      assert open + "" == open;
    } else {
      NormalizeStep(text);
      var n := if |text| >= 2 && text[..2] == "\r\n" then 2 else 1;
      var rest := text[n..];
      assert text == text[..n] + rest;
      if n == 2 || text[0] == '\n' {
        NormalizeIsJoin("", rest);
        NormalizeAfterBreak(open, text, rest, NormalizeBreaks(rest));
      } else {
        assert text == [text[0]] + rest;
        assert rest != "" ==> text[..2] == [text[0], rest[0]];
        NormalizeIsJoin(open + [text[0]], rest);
        NormalizeAfterChar(open, text[0], rest, NormalizeBreaks(rest));
      }
    }
  }

  lemma {:induction false} StuffAcrossBreak(line: string, rest: string, lineStart: bool)
    ensures Stuff(line + "\r\n" + rest, lineStart) == Stuff(line, lineStart) + "\r\n" + Stuff(rest, true)
  {
    if line == "" {
      var s := "\r\n" + rest;
      assert "" + "\r\n" + rest == s;
      assert s[1..] == "\n" + rest && s[1..][1..] == rest;
      assert Stuff(s[1..], true) == "\n" + Stuff(rest, true);
    } else {
      assert (line + "\r\n" + rest)[1..] == line[1..] + "\r\n" + rest;
      StuffAcrossBreak(line[1..], rest, LineTerminator(line[0]));
    }
  }

  lemma {:induction false} StuffByLine(lines: seq<string>)
    requires lines != []
    ensures Stuff(Join(lines, "\r\n"), true) == Join(StuffedLines(lines), "\r\n")
  {
    if |lines| > 1 {
      StuffAcrossBreak(lines[0], Join(lines[1..], "\r\n"), true);
      StuffByLine(lines[1..]);
      assert StuffedLines(lines)[1..] == StuffedLines(lines[1..]);
    }
  }

  lemma {:induction false} StuffedIsSendable(line: string, lineStart: bool)
    requires '\n' !in line
    ensures '\n' !in Stuff(line, lineStart)
    ensures line != "" ==> Stuff(line, lineStart) != ""
    ensures lineStart ==> Stuff(line, lineStart) != "."
  {
    if line != "" { StuffedIsSendable(line[1..], LineTerminator(line[0])); }
  }

  /** The lines on the wire before the end mark. */
  function WireLines(email: Email): seq<string> {
    HeaderLines(email) + [""] + StuffedLines(Lines(email.text))
  }

  lemma BodyIsLines(text: string)
    ensures Stuff(NormalizeBreaks(text), true) + "\r\n" == Terminated(StuffedLines(Lines(text)))
  {
    NormalizeIsJoin("", text);
    assert "" + NormalizeBreaks(text) == NormalizeBreaks(text);
    StuffByLine(Lines(text));
    JoinIsTerminated(StuffedLines(Lines(text)));
  }

  lemma TerminatedOne(line: string)
    ensures Terminated([line]) == line + "\r\n"
  {
    assert [line][1..] == [];
    assert line + "\r\n" + "" == line + "\r\n";
  }

  lemma MessageIsLines(email: Email)
    ensures FormatMessage(email) == Terminated(WireLines(email)) + ".\r\n"
  {
    var head := HeaderLines(email) + [""];
    var body := Stuff(NormalizeBreaks(email.text), true);
    assert HeaderLines(email) + ["", body, ".", ""] == head + [body] + ["."] + [""];
    JoinTerminated(head + [body] + ["."]);
    TerminatedConcat(head + [body], ["."]);
    TerminatedConcat(head, [body]);
    TerminatedConcat(head, StuffedLines(Lines(email.text)));
    TerminatedOne(body);
    TerminatedOne(".");
    BodyIsLines(email.text);
  }

  lemma WireIsSendable(email: Email)
    requires '\n' !in email.from && '\n' !in email.to
    ensures forall i :: 0 <= i < |WireLines(email)| ==> Sendable(WireLines(email)[i])
  {
    hide HeaderLines, Sendable, Lines, StuffedLines;
    HeaderIsSendable(email);
    TextIsSendable(email.text);
    assert Sendable("") by { EmptyIsSendable(); }
  }

  lemma EmptyIsSendable()
    ensures Sendable("")
  {
  }

  lemma FieldIsSendable(name: string, value: string)
    requires '\n' !in name && '\n' !in value && |name| > 1
    ensures Sendable(name + value)
  {
  }

  lemma TypeIsSendable()
    ensures Sendable("Content-Type: text/plain; charset=utf-8")
  {
  }

  lemma EncodingIsSendable()
    ensures Sendable("Content-Transfer-Encoding: 8bit")
  {
  }

  lemma HeaderIsSendable(email: Email)
    requires '\n' !in email.from && '\n' !in email.to
    ensures forall i :: 0 <= i < |HeaderLines(email)| ==> Sendable(HeaderLines(email)[i])
  {
    hide Sendable, EscapeMailHeader;
    FieldIsSendable("From: ", email.from);
    FieldIsSendable("To: ", email.to);
    FieldIsSendable("Subject: ", EscapeMailHeader(email.subject));
    TypeIsSendable();
    EncodingIsSendable();
  }

  lemma TextIsSendable(text: string)
    ensures forall i :: 0 <= i < |StuffedLines(Lines(text))| ==> Sendable(StuffedLines(Lines(text))[i])
  {
    var lines := Lines(text);
    ExtendFreeOfLf([""], text);
    forall i | 0 <= i < |lines| ensures Sendable(Stuff(lines[i], true)) { StuffedIsSendable(lines[i], true); }
  }
}
