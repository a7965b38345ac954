/**
 The incremental reader of Unix mail spools: splitting a spool into messages and
 extracting the command, user and output from each message cron has sent.
 */
module Mbox {
  import opened Wrappers
  import opened Text
  import opened Grouping

  /**
   A cron mail. The envelope line stands for the date derived from it, and the
   envelope and subject together for the digest computed from them.
   */
  datatype CronMail = CronMail(envelope: string, subject: string, command: string, user: string, body: string)

  predicate IsFromLine(line: string) {
    HasPrefix(line, "From ") && |Fields(line)| >= 3
  }

  /** An envelope line: "From ", then at least two words. */
  predicate EnvelopeParts(line: string, g: string, a: string, h: string, b: string, t: string) {
    && line == "From " + (g + a + (h + b + t))
    && White(g) && Word(a) && White(h) && h != "" && Word(b) && (t == "" || IsSpace(t[0]))
  }

  ghost predicate IsEnvelope(line: string) {
    exists g, a, h, b, t :: EnvelopeParts(line, g, a, h, b, t)
  }

  lemma FromFields(rest: string)
    ensures Fields("From " + rest) == ["From"] + Fields(rest)
  {
    assert "From " + rest == "" + "From" + (" " + rest);
    FieldsCons("", "From", " " + rest);
    FieldsWhite(" ", rest);
  }

  lemma EnvelopeIff(line: string)
    ensures IsFromLine(line) <==> IsEnvelope(line)
  {
    if IsFromLine(line) {
      var rest := line[5..];
      assert line == "From " + rest;
      FromFields(rest);
      SecondWord(rest);
    }
    if IsEnvelope(line) {
      var g, a, h, b, t :| EnvelopeParts(line, g, a, h, b, t);
      FromFields(g + a + (h + b + t));
      FieldsCons(g, a, h + b + t);
      FieldsCons(h, b, t);
    }
  }

  lemma SecondWord(rest: string)
    requires |Fields(rest)| >= 2
    ensures IsEnvelope("From " + rest)
  {
    if White(rest) {
      FieldsNone(rest);
    } else {
      var g, a, tail := FirstWord(rest);
      FieldsCons(g, a, tail);
      if White(tail) {
        FieldsNone(tail);
      } else {
        var h, b, t := FirstWord(tail);
        assert IsSpace(tail[0]) && (h + b)[0] == tail[0];
        assert EnvelopeParts("From " + rest, g, a, h, b, t);
      }
    }
  }

  // ------------------------------------------------------------------- one message

  /** Position of the first empty line at or after i: the end of the headers. */
  function HeaderEnd(lines: seq<string>, i: nat): (n: nat)
    requires i <= |lines|
    ensures i <= n <= |lines|
    ensures forall k :: i <= k < n ==> lines[k] != ""
    ensures n < |lines| ==> lines[n] == ""
    decreases |lines| - i
  {
    if i == |lines| || lines[i] == "" then i else HeaderEnd(lines, i + 1)
  }

  function AddHeader(h: map<string, string>, line: string): map<string, string>
    requires line != ""
  {
    if line[0] == ' ' || line[0] == '\t' then h
    else
      var idx := IndexOf(line, ':');
      if 0 < idx < |line| then h[ToLower(TrimSpace(line[..idx])) := TrimSpace(line[idx + 1..])] else h
  }

  function Headers(lines: seq<string>): map<string, string>
    requires forall k :: 0 <= k < |lines| ==> lines[k] != ""
  {
    if lines == [] then map[]
    else AddHeader(Headers(lines[..|lines| - 1]), lines[|lines| - 1])
  }

  datatype CronSubject = CronSubject(command: string, user: string)

  /** parseCronSubject: "Cron <user@host> command". */
  function ParseCronSubject(subject: string): Option<CronSubject> {
    if !HasPrefix(ToUpper(subject), "CRON ") then None
    else
      var rest := TrimSpace(subject[5..]);
      if !HasPrefix(rest, "<") then None
      else
        var end := IndexOf(rest, '>');
        if end == |rest| then None
        else
          var command := TrimSpace(rest[end + 1..]);
          if command == "" then None else Some(CronSubject(command, rest[1..end]))
  }

  /** A subject as cron writes it: "Cron " in any case, white space, the user in angle brackets, the command. */
  ghost predicate IsCronSubject(s: string, command: string, user: string) {
    exists p, ws, tail :: HasCronParts(s, command, user, p, ws, tail)
  }

  ghost predicate HasCronParts(s: string, command: string, user: string, p: string, ws: string, tail: string) {
    && s == p + ws + "<" + user + ">" + tail
    && |p| == 5 && ToUpper(p) == "CRON " && White(ws)
    && '>' !in user && command == TrimSpace(tail) && command != ""
  }

  /** A subject in parts is parsed into them. */
  lemma CronPartsParse(s: string, command: string, user: string, p: string, ws: string, tail: string)
    requires HasCronParts(s, command, user, p, ws, tail)
    ensures ParseCronSubject(s) == Some(CronSubject(command, user))
  {
    var a, b := TrimCut(tail);
    var core := "<" + user + ['>'] + (a + command);
    assert s[5..] == ws + core + b && s[..5] == p;
    UpperPrefix(s);
    CoreParts(user, a, command);
    TrimIs(ws, core, b);
  }

  lemma CoreParts(user: string, a: string, command: string)
    requires '>' !in user && White(a) && Tight(command)
    ensures var core := "<" + user + ['>'] + (a + command);
            && Tight(core) && IndexOf(core, '>') == |user| + 1 < |core|
            && core[1..|user| + 1] == user && TrimSpace(core[|user| + 2..]) == command
  {
    var core := "<" + user + ['>'] + (a + command);
    assert core[0] == '<' && core[|core| - 1] == command[|command| - 1];
    assert '>' !in "<" + user;
    IndexOfFirst("<" + user, a + command, '>');
    assert core[|user| + 2..] == a + command;
    assert a + command == a + command + "";
    TrimIs(a, command, "");
  }

  lemma UpperPrefix(s: string)
    ensures |s| >= 5 ==> (HasPrefix(ToUpper(s), "CRON ") <==> ToUpper(s[..5]) == "CRON ")
  {
    if |s| >= 5 {
      assert ToUpper(s)[..5] == ToUpper(s[..5]);
    }
  }

  lemma UserPart(rest: string, end: nat)
    requires HasPrefix(rest, "<") && end == IndexOf(rest, '>') && end < |rest|
    ensures end >= 1 && '>' !in rest[1..end]
    ensures rest == "<" + rest[1..end] + ">" + rest[end + 1..]
  {
    IndexOfFound(rest, '>');
    assert rest[0] == '<';
    assert '>' !in rest[1..end] by { assert forall i :: 1 <= i < end ==> rest[i] in rest[..end]; }
    InBrackets(rest, end);
  }

  lemma InBrackets(s: string, end: nat)
    requires 1 <= end < |s| && s[0] == '<' && s[end] == '>'
    ensures s == "<" + s[1..end] + ">" + s[end + 1..]
  {
    assert s[..1] == "<" && s[end..end + 1] == ">";
    CutMiddle(s, end);
  }

  lemma CutMiddle<T>(s: seq<T>, end: nat)
    requires 1 <= end < |s|
    ensures s == s[..1] + s[1..end] + s[end..end + 1] + s[end + 1..]
  {
  }

  /** The trimmed rest of a subject, with the white space b that was behind it. */
  lemma RestInParts(rest: string, b: string, end: nat)
    requires HasPrefix(rest, "<") && end == IndexOf(rest, '>') && end < |rest| && White(b)
    ensures end >= 1 && '>' !in rest[1..end]
    ensures rest + b == "<" + rest[1..end] + ">" + (rest[end + 1..] + b)
    ensures TrimSpace(rest[end + 1..] + b) == TrimSpace(rest[end + 1..])
  {
    UserPart(rest, end);
    TrimMore(rest[end + 1..], b);
    Associative("<" + rest[1..end] + ">", rest[end + 1..], b);
  }

  /** A parsed subject has those parts. */
  lemma ParsedCronParts(s: string)
    requires ParseCronSubject(s).Some?
    ensures IsCronSubject(s, ParseCronSubject(s).value.command, ParseCronSubject(s).value.user)
  {
    UpperPrefix(s);
    var a, b := TrimCut(s[5..]);
    var rest := TrimSpace(s[5..]);
    var end := IndexOf(rest, '>');
    RestInParts(rest, b, end);
    FromParts(s, a, rest, b, end);
  }

  lemma FromParts(s: string, a: string, rest: string, b: string, end: nat)
    requires |s| >= 5 && ToUpper(s[..5]) == "CRON " && White(a) && s[5..] == a + rest + b
    requires 1 <= end < |rest| && '>' !in rest[1..end] && TrimSpace(rest[end + 1..]) != ""
    requires rest + b == "<" + rest[1..end] + ">" + (rest[end + 1..] + b)
    requires TrimSpace(rest[end + 1..] + b) == TrimSpace(rest[end + 1..])
    ensures IsCronSubject(s, TrimSpace(rest[end + 1..]), rest[1..end])
  {
    var tail := rest[end + 1..] + b;
    assert s == s[..5] + s[5..];
    assert s == s[..5] + a + (rest + b);
    assert s == s[..5] + a + "<" + rest[1..end] + ">" + tail;
    assert HasCronParts(s, TrimSpace(rest[end + 1..]), rest[1..end], s[..5], a, tail);
  }

  /** parseCronSubject accepts exactly such subjects, with that command and user. */
  lemma CronSubjectIff(s: string, command: string, user: string)
    ensures ParseCronSubject(s) == Some(CronSubject(command, user)) <==> IsCronSubject(s, command, user)
  {
    if ParseCronSubject(s).Some? {
      ParsedCronParts(s);
    }
    if IsCronSubject(s, command, user) {
      var p, ws, tail :| HasCronParts(s, command, user, p, ws, tail);
      CronPartsParse(s, command, user, p, ws, tail);
    }
  }

  function StripBlank(lines: seq<string>): seq<string> {
    if lines != [] && Blank(lines[|lines| - 1]) then StripBlank(lines[..|lines| - 1]) else lines
  }

  function Unquote(line: string): string {
    if HasPrefix(line, ">From ") then line[1..] else line
  }

  function UnquoteAll(lines: seq<string>): (r: seq<string>)
    ensures |r| == |lines| && forall i :: 0 <= i < |r| ==> r[i] == Unquote(lines[i])
  {
    seq(|lines|, i requires 0 <= i < |lines| => Unquote(lines[i]))
  }

  function HeaderValue(h: map<string, string>, key: string): string {
    if key in h then h[key] else ""
  }

  function BodyLines(lines: seq<string>): seq<string>
    requires lines != []
  {
    var end := HeaderEnd(lines, 1);
    if end < |lines| then lines[end + 1..] else []
  }

  /** buildMessage: the cron mail in the lines of one message, if it is one. */
  function Message(lines: seq<string>): Option<CronMail> {
    if lines == [] then None else
    var subject := HeaderValue(Headers(lines[1..HeaderEnd(lines, 1)]), "subject");
    if subject == "" then None
    else
      match ParseCronSubject(subject)
      case None => None
      case Some(cs) =>
        var body := Join(UnquoteAll(StripBlank(BodyLines(lines))), '\n');
        Some(CronMail(lines[0], subject, cs.command, cs.user, body))
  }

  // ------------------------------------------------------------------ a whole spool

  /** The cron mails of a spool: one from every stretch between envelope lines that is a cron mail. */
  function Messages(lines: seq<string>): seq<CronMail> {
    Results(IsFromLine, Message, lines)
  }

  function Parse(data: string): seq<CronMail> {
    Messages(Split(data, '\n'))
  }

  /** The subject a stretch of lines carries: the last value of that header, "" if there is none. */
  function SubjectOf(lines: seq<string>): string
    requires lines != []
  {
    HeaderValue(Headers(lines[1..HeaderEnd(lines, 1)]), "subject")
  }

  /** A stretch is read as a cron mail exactly if its subject is one of cron's, with its envelope line, command and user. */
  lemma MessageIff(lines: seq<string>, command: string, user: string)
    requires lines != []
    ensures IsCronSubject(SubjectOf(lines), command, user) <==>
              Message(lines).Some? && Message(lines).value.command == command && Message(lines).value.user == user
    ensures Message(lines).Some? ==>
              && Message(lines).value.envelope == lines[0] && Message(lines).value.subject == SubjectOf(lines)
              && Message(lines).value.body == Join(UnquoteAll(StripBlank(BodyLines(lines))), '\n')
  {
    CronSubjectIff(SubjectOf(lines), command, user);
    EmptyIsNotCron();
  }

  lemma EmptyIsNotCron()
    ensures ParseCronSubject("").None?
  {
  }

  /** The mails of a text are those of its stretches: each comes from one, and each stretch that is one gives it. */
  lemma ParsedFrom(data: string, m: CronMail)
    ensures m in Parse(data) <==> Yields(Message, Groups(IsFromLine, Split(data, '\n')), m)
  {
    ResultsFrom(IsFromLine, Message, Split(data, '\n'), m);
  }

  // ----------------------------------------------------------------------- the loops

  method ReadHeaders(lines: seq<string>) returns (headers: map<string, string>, bodyStart: nat)
    requires lines != []
    ensures headers == Headers(lines[1..HeaderEnd(lines, 1)])
    ensures bodyStart <= |lines| && lines[bodyStart..] == BodyLines(lines)
  {
    headers := map[];
    bodyStart := |lines|;
    var inHeaders := true;
    ghost var end := HeaderEnd(lines, 1);
    for i := 1 to |lines|
      invariant inHeaders <==> i <= end
      invariant bodyStart == if inHeaders then |lines| else end + 1
      invariant headers == Headers(lines[1..if i <= end then i else end])
    {
      if inHeaders {
        if lines[i] == "" {
          bodyStart := i + 1;
          inHeaders := false;
          continue;
        }
        assert lines[1..i + 1][..i - 1] == lines[1..i];
        if lines[i][0] == ' ' || lines[i][0] == '\t' {
          continue;
        }
        var idx := IndexOf(lines[i], ':');
        if 0 < idx < |lines[i]| {
          headers := headers[ToLower(TrimSpace(lines[i][..idx])) := TrimSpace(lines[i][idx + 1..])];
        }
      }
    }
  }

  method CollectBody(lines: seq<string>) returns (body: string)
    ensures body == Join(UnquoteAll(StripBlank(lines)), '\n')
  {
    var bodyLines := lines;
    while |bodyLines| > 0 && Blank(bodyLines[|bodyLines| - 1])
      invariant StripBlank(bodyLines) == StripBlank(lines)
    {
      bodyLines := bodyLines[..|bodyLines| - 1];
    }
    ghost var stripped := bodyLines;
    for i := 0 to |bodyLines|
      invariant |bodyLines| == |stripped|
      invariant forall k :: 0 <= k < i ==> bodyLines[k] == Unquote(stripped[k])
      invariant forall k :: i <= k < |stripped| ==> bodyLines[k] == stripped[k]
    {
      if HasPrefix(bodyLines[i], ">From ") {
        bodyLines := bodyLines[i := bodyLines[i][1..]];
      }
    }
    assert bodyLines == UnquoteAll(stripped);
    body := Join(bodyLines, '\n');
  }

  method BuildMessage(lines: seq<string>) returns (msg: Option<CronMail>)
    ensures msg == Message(lines)
  {
    if |lines| == 0 {
      return None;
    }
    var headers, bodyStart := ReadHeaders(lines);
    var subject := HeaderValue(headers, "subject");
    if subject == "" {
      return None;
    }
    var cs := ParseCronSubject(subject);
    if cs.None? {
      return None;
    }
    var body := CollectBody(lines[bodyStart..]);
    msg := Some(CronMail(lines[0], subject, cs.value.command, cs.value.user, body));
  }

  method ParseMbox(data: string) returns (messages: seq<CronMail>)
    ensures messages == Parse(data)
  {
    messages := BuildGroups(IsFromLine, Message, Split(data, '\n'));
  }

  // ---------------------------------------------- reading in pieces = reading at once

  /** A final empty line, the trace of the last newline, changes no message. */
  lemma TrailingLine(lines: seq<string>)
    requires lines != []
    ensures Message(lines + [""]) == Message(lines)
  {
    var more := lines + [""];
    var end := HeaderEnd(lines, 1);
    HeaderEndStable(lines, 1);
    assert more[1..end] == lines[1..end];
    if end < |lines| {
      assert more[end + 1..] == lines[end + 1..] + [""];
      var body := lines[end + 1..];
      assert (body + [""])[..|body|] == body;
      assert Blank("");
    } else {
      assert more[end + 1..] == [];
    }
  }

  lemma HeaderEndStable(lines: seq<string>, i: nat)
    requires i <= |lines|
    ensures HeaderEnd(lines + [""], i) == HeaderEnd(lines, i)
    decreases |lines| - i
  {
    if i < |lines| && lines[i] != "" {
      HeaderEndStable(lines, i + 1);
    }
  }

  lemma TrailingLineAll(lines: seq<string>)
    ensures Messages(lines + [""]) == Messages(lines)
  {
    forall g: seq<string> | g != [] ensures Message(g + [""]) == Message(g) {
      TrailingLine(g);
    }
    ResultsTrailing(IsFromLine, Message, lines, "");
  }

  /** Whole messages: text that opens with an envelope line and ends with a newline. */
  predicate Complete(a: string) {
    a != "" && a[|a| - 1] == '\n' && IsFromLine(Split(a, '\n')[0])
  }

  lemma SplitComplete(a: string, b: string)
    requires a != "" && a[|a| - 1] == '\n'
    ensures var a' := a[..|a| - 1];
            && Split(a, '\n') == Split(a', '\n') + [""]
            && Split(a + b, '\n') == Split(a', '\n') + Split(b, '\n')
  {
    var a' := a[..|a| - 1];
    assert a == a' + ['\n'] + "";
    SplitConcat(a', "", '\n');
    assert a + b == a' + ['\n'] + b;
    SplitConcat(a', b, '\n');
  }

  /** Whole messages behind any complete lines are read as they are alone. */
  lemma ParseAppend(a: string, b: string)
    requires a != "" && a[|a| - 1] == '\n' && Complete(b)
    ensures Parse(a + b) == Parse(a) + Parse(b)
  {
    var la := Split(a[..|a| - 1], '\n');
    SplitComplete(a, b);
    ResultsConcat(IsFromLine, Message, la, Split(b, '\n'));
    TrailingLineAll(la);
  }

  /** Reading whole messages in two pieces is reading them at once. */
  lemma ParseConcat(a: string, b: string)
    requires Complete(a)
    requires Complete(b)
    ensures Parse(a + b) == Parse(a) + Parse(b)
    ensures Complete(a + b)
  {
    ParseAppend(a, b);
    SplitComplete(a, b);
  }
}
