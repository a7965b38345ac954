/**
 An mbox writer in the default format of Appendix A of RFC 4155, and the round
 trip through the spool reader.
 */
module MboxWriter {
  import opened Wrappers
  import opened Text
  import opened Grouping
  import opened Mbox
  import opened MailSpool

  /** `before` and `after` are the header lines around the subject. */
  datatype Mail = Mail(
    envelope: string,
    before: seq<string>,
    user: string,
    command: string,
    after: seq<string>,
    body: string)

  /** The header that a line sets, if it sets one. */
  function HeaderName(line: string): string
    requires line != ""
  {
    var idx := IndexOf(line, ':');
    if line[0] == ' ' || line[0] == '\t' || idx == 0 || idx == |line| then "" else ToLower(TrimSpace(line[..idx]))
  }

  /** A header line that is neither an envelope line nor a subject. */
  predicate ExtraHeader(line: string) {
    line != "" && '\n' !in line && !IsFromLine(line) && HeaderName(line) != "subject"
  }

  predicate ExtraHeaders(lines: seq<string>) {
    forall i :: 0 <= i < |lines| ==> ExtraHeader(lines[i])
  }

  /** A mail that cron could send: single-line fields, a command with no outer blanks, one subject. */
  predicate WellFormed(m: Mail) {
    && IsFromLine(m.envelope) && '\n' !in m.envelope
    && '\n' !in m.user && '>' !in m.user
    && '\n' !in m.command && Tight(m.command)
    && ExtraHeaders(m.before) && ExtraHeaders(m.after)
  }

  function Quote(line: string): string {
    if HasPrefix(line, "From ") then ">" + line else line
  }

  function QuoteAll(lines: seq<string>): (r: seq<string>)
    ensures |r| == |lines| && forall i :: 0 <= i < |r| ==> r[i] == Quote(lines[i])
  {
    seq(|lines|, i requires 0 <= i < |lines| => Quote(lines[i]))
  }

  function Subject(m: Mail): string {
    "Cron <" + m.user + "> " + m.command
  }

  function SubjectLine(m: Mail): string {
    "Subject: " + Subject(m)
  }

  function HeaderLines(m: Mail): seq<string> {
    m.before + [SubjectLine(m)] + m.after
  }

  function QuotedBody(m: Mail): seq<string> {
    QuoteAll(Split(m.body, '\n')) + [""]
  }

  function MailLines(m: Mail): seq<string> {
    [m.envelope] + HeaderLines(m) + [""] + QuotedBody(m)
  }

  /** One mail as text: its lines, each ended by a newline. */
  function WriteMail(m: Mail): string {
    Join(MailLines(m), '\n') + "\n"
  }

  function WriteAll(ms: seq<Mail>): string {
    if ms == [] then "" else WriteAll(ms[..|ms| - 1]) + WriteMail(ms[|ms| - 1])
  }

  /** The mail as the reader should return it. */
  function Expected(m: Mail): CronMail {
    CronMail(m.envelope, Subject(m), m.command, m.user, m.body)
  }

  function ExpectedAll(ms: seq<Mail>): (r: seq<CronMail>)
    ensures |r| == |ms| && forall i :: 0 <= i < |ms| ==> r[i] == Expected(ms[i])
  {
    seq(|ms|, i requires 0 <= i < |ms| => Expected(ms[i]))
  }

  /** No line already looks quoted, and the last line is not blank. */
  predicate Preservable(body: string) {
    var lines := Split(body, '\n');
    && (body == "" || !Blank(lines[|lines| - 1]))
    && forall i :: 0 <= i < |lines| ==> !HasPrefix(lines[i], ">From ")
  }

  // ---------------------------------------------------------------- one mail's lines

  /** The subject after "Cron ". */
  function Rest(m: Mail): string {
    "<" + m.user + ['>'] + (" " + m.command)
  }

  lemma RestParts(m: Mail)
    requires WellFormed(m)
    ensures HasPrefix(Rest(m), "<") && IndexOf(Rest(m), '>') == |m.user| + 1
    ensures |m.user| + 1 < |Rest(m)| && Rest(m)[1..|m.user| + 1] == m.user
    ensures Rest(m)[|m.user| + 2..] == " " + m.command
  {
    assert '>' !in "<" + m.user;
    IndexOfFirst("<" + m.user, " " + m.command, '>');
    assert Rest(m)[0] == '<';
  }

  lemma RestTight(m: Mail)
    requires WellFormed(m)
    ensures Tight(Rest(m))
  {
    assert Rest(m)[0] == '<' && Rest(m)[|Rest(m)| - 1] == m.command[|m.command| - 1];
  }

  /** The checks of parseCronSubject, passed one by one. */
  lemma ParseSteps(subject: string, rest: string, end: nat)
    requires HasPrefix(ToUpper(subject), "CRON ") && TrimSpace(subject[5..]) == rest
    requires HasPrefix(rest, "<") && IndexOf(rest, '>') == end && 1 <= end < |rest|
    requires TrimSpace(rest[end + 1..]) != ""
    ensures ParseCronSubject(subject) == Some(CronSubject(TrimSpace(rest[end + 1..]), rest[1..end]))
  {
  }

  lemma CronPrefix(rest: string)
    ensures HasPrefix(ToUpper("Cron " + rest), "CRON ")
    ensures ("Cron " + rest)[5..] == rest
  {
    var u := ToUpper("Cron " + rest);
    assert u[..5] == "CRON ";
  }

  lemma SubjectParses(m: Mail)
    requires WellFormed(m)
    ensures ParseCronSubject(Subject(m)) == Some(CronSubject(m.command, m.user))
  {
    assert Subject(m) == "Cron " + Rest(m);
    CronPrefix(Rest(m));
    RestTight(m);
    TrimTight(Rest(m));
    RestParts(m);
    TrimTight(m.command);
    ParseSteps(Subject(m), Rest(m), |m.user| + 1);
  }

  lemma SubjectTight(m: Mail)
    requires WellFormed(m)
    ensures Tight(Subject(m))
  {
    assert Subject(m)[|Subject(m)| - 1] == m.command[|m.command| - 1];
  }

  /** A header line "name: value" adds one header. */
  lemma HeaderAdded(h: map<string, string>, name: string, value: string)
    requires Tight(name) && ':' !in name && Tight(value)
    ensures AddHeader(h, name + [':'] + (" " + value)) == h[ToLower(name) := value]
  {
    var line := name + [':'] + (" " + value);
    IndexOfFirst(name, " " + value, ':');
    assert line[..|name|] == name && line[|name| + 1..] == " " + value;
    assert line[0] == name[0];
    TrimTight(name);
    TrimTight(value);
  }

  lemma SubjectAdded(h: map<string, string>, m: Mail)
    requires WellFormed(m)
    ensures AddHeader(h, SubjectLine(m)) == h["subject" := Subject(m)]
  {
    SubjectTight(m);
    SubjectName();
    HeaderAdded(h, "Subject", Subject(m));
    assert SubjectLine(m) == "Subject" + [':'] + (" " + Subject(m));
  }

  lemma SubjectName()
    ensures Tight("Subject") && ':' !in "Subject" && ToLower("Subject") == "subject"
  {
  }

  lemma ExtraKeepsSubject(h: map<string, string>, line: string)
    requires ExtraHeader(line)
    ensures HeaderValue(AddHeader(h, line), "subject") == HeaderValue(h, "subject")
  {
  }

  lemma HeadersSnoc(lines: seq<string>, line: string)
    requires line != "" && forall i :: 0 <= i < |lines| ==> lines[i] != ""
    ensures Headers(lines + [line]) == AddHeader(Headers(lines), line)
  {
    assert (lines + [line])[..|lines|] == lines;
  }

  /** Line k is the last header of that name. */
  predicate LastNamed(lines: seq<string>, key: string, k: nat)
    requires forall i :: 0 <= i < |lines| ==> lines[i] != ""
  {
    k < |lines| && HeaderName(lines[k]) == key && forall i :: k < i < |lines| ==> HeaderName(lines[i]) != key
  }

  /** A line of the form "name: value", the name in any case and the value trimmed. */
  ghost predicate Gives(line: string, key: string, value: string) {
    exists name, text ::
      line == name + ":" + text && ':' !in name && ToLower(TrimSpace(name)) == key && TrimSpace(text) == value
  }

  lemma NamedGives(h: map<string, string>, line: string)
    requires line != "" && HeaderName(line) != ""
    ensures var key := HeaderName(line); key in AddHeader(h, line) && Gives(line, key, AddHeader(h, line)[key])
  {
    var i := IndexOf(line, ':');
    IndexOfFound(line, ':');
    CutOut(line, i);
    assert line == line[..i] + ":" + line[i + 1..];
  }

  /** A header has the text after the colon of the last line of its name, whatever the case, and none without such a line. */
  lemma {:induction false} HeaderMeaning(lines: seq<string>, key: string)
    requires (forall i :: 0 <= i < |lines| ==> lines[i] != "") && key != ""
    ensures forall k: nat :: LastNamed(lines, key, k) ==>
              key in Headers(lines) && Gives(lines[k], key, Headers(lines)[key])
    ensures (forall i :: 0 <= i < |lines| ==> HeaderName(lines[i]) != key) ==> key !in Headers(lines)
  {
    if lines != [] {
      var n := |lines| - 1;
      var front, line := lines[..n], lines[n];
      HeaderMeaning(front, key);
      HeadersSnoc(front, line);
      assert front + [line] == lines;
      if HeaderName(line) == key {
        NamedGives(Headers(front), line);
      } else {
        forall k: nat ensures LastNamed(lines, key, k) <==> LastNamed(front, key, k) {
          assert k < n ==> front[k] == lines[k];
        }
      }
    }
  }

  lemma LastOf<T>(a: seq<T>, b: seq<T>)
    requires b != []
    ensures a + b == (a + b[..|b| - 1]) + [b[|b| - 1]]
  {
  }

  lemma HeadersNotEmpty(m: Mail, after: seq<string>)
    requires WellFormed(m) && ExtraHeaders(after)
    ensures forall i :: 0 <= i < |m.before + [SubjectLine(m)] + after| ==> (m.before + [SubjectLine(m)] + after)[i] != ""
  {
    assert forall i :: 0 <= i < |after| ==> ExtraHeader(after[i]);
    assert forall i :: 0 <= i < |m.before| ==> ExtraHeader(m.before[i]);
  }

  /** Among other headers, the subject is the one that is read. */
  lemma {:induction false} SubjectHeader(m: Mail, after: seq<string>)
    requires WellFormed(m) && ExtraHeaders(after)
    ensures HeaderValue(Headers(m.before + [SubjectLine(m)] + after), "subject") == Subject(m)
    decreases |after|
  {
    if after == [] {
      assert m.before + [SubjectLine(m)] + after == m.before + [SubjectLine(m)];
      HeadersSnoc(m.before, SubjectLine(m));
      SubjectAdded(Headers(m.before), m);
    } else {
      var n := |after| - 1;
      var front := m.before + [SubjectLine(m)] + after[..n];
      SubjectHeader(m, after[..n]);
      HeadersNotEmpty(m, after[..n]);
      LastOf(m.before + [SubjectLine(m)], after);
      HeadersSnoc(front, after[n]);
      ExtraKeepsSubject(Headers(front), after[n]);
    }
  }

  lemma {:induction false} HeaderEndAt(lines: seq<string>, i: nat, n: nat)
    requires i <= n < |lines| && lines[n] == "" && forall k :: i <= k < n ==> lines[k] != ""
    ensures HeaderEnd(lines, i) == n
    decreases n - i
  {
    if i < n {
      HeaderEndAt(lines, i + 1, n);
    }
  }

  /** What comes back as the body. */
  function BodyRead(body: string): string {
    Join(UnquoteAll(StripBlank(QuoteAll(Split(body, '\n')) + [""])), '\n')
  }

  lemma Parts<T>(a: T, b: seq<T>, c: T, d: seq<T>)
    ensures var s, n := [a] + b + [c] + d, |b| + 1;
            n < |s| && s[0] == a && s[1..n] == b && s[n] == c && s[n + 1..] == d
  {
  }

  lemma PartAt<T>(a: T, b: seq<T>, c: T, d: seq<T>, i: nat)
    requires i < |[a] + b + [c] + d|
    ensures ([a] + b + [c] + d)[i] ==
              if i == 0 then a else if i <= |b| then b[i - 1] else if i == |b| + 1 then c else d[i - |b| - 2]
  {
  }

  /** Where the parts of a mail stand. */
  lemma MailParts(m: Mail)
    requires WellFormed(m)
    ensures var lines, n := MailLines(m), |HeaderLines(m)| + 1;
            && lines != [] && lines[0] == m.envelope && HeaderEnd(lines, 1) == n < |lines|
            && lines[1..n] == HeaderLines(m) && lines[n + 1..] == QuotedBody(m)
  {
    var lines, n := MailLines(m), |HeaderLines(m)| + 1;
    Parts(m.envelope, HeaderLines(m), "", QuotedBody(m));
    HeadersNotEmpty(m, m.after);
    forall k | 1 <= k < n ensures lines[k] != "" { assert lines[k] == lines[1..n][k - 1]; }
    HeaderEndAt(lines, 1, n);
  }

  lemma MessageRead(m: Mail)
    requires WellFormed(m)
    ensures Message(MailLines(m)) == Some(Expected(m).(body := BodyRead(m.body)))
  {
    MailParts(m);
    SubjectHeader(m, m.after);
    SubjectParses(m);
    MessageSteps(m, MailLines(m));
  }

  lemma MessageSteps(m: Mail, lines: seq<string>)
    requires lines != [] && lines[0] == m.envelope && HeaderEnd(lines, 1) < |lines|
    requires HeaderValue(Headers(lines[1..HeaderEnd(lines, 1)]), "subject") == Subject(m)
    requires lines[HeaderEnd(lines, 1) + 1..] == QuotedBody(m)
    requires ParseCronSubject(Subject(m)) == Some(CronSubject(m.command, m.user))
    ensures Message(lines) == Some(Expected(m).(body := BodyRead(m.body)))
  {
    assert Subject(m) != "";
  }

  // ------------------------------------------------------------------------- bodies

  lemma StripFinal(lines: seq<string>)
    ensures StripBlank(lines + [""]) == StripBlank(lines)
  {
    assert (lines + [""])[..|lines|] == lines;
    assert Blank("");
  }

  /** A blank line is not a quoted one, so quoting and stripping commute. */
  lemma QuoteKeepsBlank(line: string)
    ensures Blank(Quote(line)) <==> Blank(line)
  {
    if HasPrefix(line, "From ") {
      NotBlank(line);
      NotBlank(">" + line);
    }
  }

  lemma NotBlank(s: string)
    requires s != "" && !IsSpace(s[0])
    ensures !Blank(s)
  {
    TrimRightKeeps(s);
  }

  lemma {:induction false} TrimRightKeeps(s: string)
    requires s != "" && !IsSpace(s[0])
    ensures TrimRight(s) != ""
  {
    if IsSpace(s[|s| - 1]) {
      TrimRightKeeps(s[..|s| - 1]);
    }
  }

  lemma {:induction false} StripQuoted(lines: seq<string>)
    ensures StripBlank(QuoteAll(lines)) == QuoteAll(StripBlank(lines))
  {
    if lines != [] {
      var n := |lines| - 1;
      QuoteKeepsBlank(lines[n]);
      if Blank(lines[n]) {
        StripQuoted(lines[..n]);
        assert QuoteAll(lines)[..n] == QuoteAll(lines[..n]);
      }
    }
  }

  lemma UnquoteQuote(line: string)
    ensures Unquote(Quote(line)) == line <==> !HasPrefix(line, ">From ")
  {
    if HasPrefix(line, "From ") {
      var quoted := ">" + line;
      assert line == "From " + line[5..];
      assert line[0] == 'F';
      assert quoted == ">From " + line[5..];
      assert HasPrefix(quoted, ">From ");
      assert quoted[1..] == line;
    } else if HasPrefix(line, ">From ") {
      assert |line[1..]| != |line|;
    }
  }

  lemma {:induction false} StripShortens(lines: seq<string>)
    ensures |StripBlank(lines)| <= |lines|
    ensures |StripBlank(lines)| == |lines| <==> lines == [] || !Blank(lines[|lines| - 1])
    ensures StripBlank(lines) <= lines
  {
    if lines != [] && Blank(lines[|lines| - 1]) {
      StripShortens(lines[..|lines| - 1]);
    }
  }

  /** Lines that are not stripped and do not look quoted are the ones that come back. */
  lemma LinesSurvive(lines: seq<string>)
    ensures var kept := StripBlank(lines);
            UnquoteAll(QuoteAll(kept)) == lines <==>
              && (lines == [] || !Blank(lines[|lines| - 1]))
              && forall i :: 0 <= i < |lines| ==> !HasPrefix(lines[i], ">From ")
  {
    var kept := StripBlank(lines);
    var back := UnquoteAll(QuoteAll(kept));
    StripShortens(lines);
    forall i | 0 <= i < |kept| ensures back[i] == kept[i] <==> !HasPrefix(kept[i], ">From ") {
      UnquoteQuote(kept[i]);
    }
  }

  lemma BodyReadLines(body: string)
    ensures BodyRead(body) == Join(UnquoteAll(QuoteAll(StripBlank(Split(body, '\n')))), '\n')
  {
    var lines := Split(body, '\n');
    StripFinal(QuoteAll(lines));
    StripQuoted(lines);
  }

  lemma BackClean(body: string)
    ensures var back := UnquoteAll(QuoteAll(StripBlank(Split(body, '\n'))));
            forall i :: 0 <= i < |back| ==> '\n' !in back[i]
  {
    var lines := Split(body, '\n');
    var kept := StripBlank(lines);
    StripShortens(lines);
    SplitPieces(body, '\n');
    forall i | 0 <= i < |kept| ensures '\n' !in Unquote(Quote(kept[i])) { PieceClean(kept[i]); }
  }

  lemma EmptyBody()
    ensures BodyRead("") == "" && Preservable("")
  {
    BodyReadLines("");
    assert Split("", '\n') == [""];
    assert Blank("");
    assert [""][..0] == [];
    assert StripBlank([""]) == [];
  }

  /** Joined lines are the text they were split from only if they are its lines. */
  lemma JoinDetermines(body: string, back: seq<string>)
    requires body != "" && forall i :: 0 <= i < |back| ==> '\n' !in back[i]
    ensures Join(back, '\n') == body <==> back == Split(body, '\n')
  {
    JoinSplit(body, '\n');
    if back != [] {
      SplitJoin(back, '\n');
    }
  }

  /** The body comes back unchanged exactly when it is preservable. */
  lemma BodySurvives(body: string)
    ensures BodyRead(body) == body <==> Preservable(body)
  {
    if body == "" {
      EmptyBody();
    } else {
      BodyReadLines(body);
      LinesSurvive(Split(body, '\n'));
      BackClean(body);
      JoinDetermines(body, UnquoteAll(QuoteAll(StripBlank(Split(body, '\n')))));
    }
  }

  lemma PieceClean(line: string)
    requires '\n' !in line
    ensures '\n' !in Unquote(Quote(line))
  {
    if HasPrefix(line, "From ") {
      assert '\n' !in ">" + line;
    }
  }

  // ------------------------------------------------------------------- whole mailboxes

  /** The text of a mail splits into its lines and one last empty piece. */
  lemma WrittenLines(m: Mail)
    requires WellFormed(m)
    ensures Split(WriteMail(m), '\n') == MailLines(m) + [""]
  {
    LinesClean(m);
    SplitJoin(MailLines(m), '\n');
    var text := Join(MailLines(m), '\n');
    assert WriteMail(m) == text + ['\n'] + "";
    SplitConcat(text, "", '\n');
    SplitPlain("", '\n');
  }

  /** The lines of a mail: none holds a newline, and only the first is an envelope line. */
  lemma LineClean(m: Mail, i: nat)
    requires WellFormed(m) && i < |MailLines(m)|
    ensures '\n' !in MailLines(m)[i] && (i > 0 ==> !IsFromLine(MailLines(m)[i]))
  {
    var lines, n := MailLines(m), |HeaderLines(m)| + 1;
    PartAt(m.envelope, HeaderLines(m), "", QuotedBody(m), i);
    if 1 <= i < n {
      HeaderClean(m, i - 1);
    } else if n < i {
      BodyClean(m, i - n - 1);
    }
  }

  lemma LinesClean(m: Mail)
    requires WellFormed(m)
    ensures forall i :: 0 <= i < |MailLines(m)| ==> '\n' !in MailLines(m)[i]
    ensures forall i :: 1 <= i < |MailLines(m)| ==> !IsFromLine(MailLines(m)[i])
  {
    forall i | 0 <= i < |MailLines(m)|
      ensures '\n' !in MailLines(m)[i] && (i > 0 ==> !IsFromLine(MailLines(m)[i]))
    {
      LineClean(m, i);
    }
  }

  lemma HeaderClean(m: Mail, i: nat)
    requires WellFormed(m) && i < |HeaderLines(m)|
    ensures '\n' !in HeaderLines(m)[i] && !IsFromLine(HeaderLines(m)[i])
  {
    if i == |m.before| {
      assert '\n' !in "Subject: Cron <";
      assert SubjectLine(m) == "Subject: Cron <" + m.user + "> " + m.command;
      assert SubjectLine(m)[0] == 'S';
    } else {
      assert ExtraHeader(HeaderLines(m)[i]);
    }
  }

  lemma BodyClean(m: Mail, i: nat)
    requires i < |QuotedBody(m)|
    ensures '\n' !in QuotedBody(m)[i] && !IsFromLine(QuotedBody(m)[i])
  {
    SplitPieces(m.body, '\n');
    if i < |QuotedBody(m)| - 1 {
      assert QuotedBody(m)[i] == Quote(Split(m.body, '\n')[i]);
      QuotedIsBody(Split(m.body, '\n')[i]);
    }
  }

  /** No line of a mail but its first opens a message. */
  lemma OneMessage(m: Mail)
    requires WellFormed(m)
    ensures Messages(MailLines(m)) == [Expected(m).(body := BodyRead(m.body))]
  {
    LinesClean(m);
    MailParts(m);
    MessageRead(m);
    SingleResult(IsFromLine, Message, MailLines(m));
  }

  lemma QuotedIsBody(line: string)
    ensures !HasPrefix(Quote(line), "From ")
  {
    if HasPrefix(line, "From ") {
      assert (">" + line)[0] == '>';
    }
  }

  lemma ReadBack(m: Mail)
    requires WellFormed(m)
    ensures Parse(WriteMail(m)) == [Expected(m).(body := BodyRead(m.body))]
    ensures Complete(WriteMail(m))
  {
    WrittenLines(m);
    TrailingLineAll(MailLines(m));
    OneMessage(m);
  }

  predicate AllPreservable(ms: seq<Mail>) {
    forall i :: 0 <= i < |ms| ==> Preservable(ms[i].body)
  }

  /**
   Any mailbox of well-formed cron mails reads back with every command, user and
   body unchanged exactly when each body is preservable.
   */
  lemma {:induction false} RoundTrip(ms: seq<Mail>)
    requires forall i :: 0 <= i < |ms| ==> WellFormed(ms[i])
    ensures Whole(WriteAll(ms))
    ensures |Parse(WriteAll(ms))| == |ms|
    ensures Parse(WriteAll(ms)) == ExpectedAll(ms) <==> AllPreservable(ms)
  {
    if ms == [] {
      ParseEmpty();
    } else {
      var n := |ms| - 1;
      assert WellFormed(ms[n]);
      RoundTrip(ms[..n]);
      AppendMail(ms);
      RoundTripSnoc(ms, Parse(WriteAll(ms[..n])));
    }
  }

  lemma AppendMail(ms: seq<Mail>)
    requires ms != [] && WellFormed(ms[|ms| - 1])
    requires Whole(WriteAll(ms[..|ms| - 1]))
    ensures var m := ms[|ms| - 1];
            && Whole(WriteAll(ms))
            && Parse(WriteAll(ms)) == Parse(WriteAll(ms[..|ms| - 1])) + [Expected(m).(body := BodyRead(m.body))]
  {
    var m := ms[|ms| - 1];
    ReadBack(m);
    ParseWhole(WriteAll(ms[..|ms| - 1]), WriteMail(m));
  }

  lemma RoundTripSnoc(ms: seq<Mail>, read: seq<CronMail>)
    requires ms != [] && |read| == |ms| - 1
    requires read == ExpectedAll(ms[..|ms| - 1]) <==> AllPreservable(ms[..|ms| - 1])
    ensures var m := ms[|ms| - 1];
            read + [Expected(m).(body := BodyRead(m.body))] == ExpectedAll(ms) <==> AllPreservable(ms)
  {
    var n := |ms| - 1;
    var m := ms[n];
    var all := read + [Expected(m).(body := BodyRead(m.body))];
    BodySurvives(m.body);
    assert ExpectedAll(ms) == ExpectedAll(ms[..n]) + [Expected(m)];
    assert all == ExpectedAll(ms) <==> read == ExpectedAll(ms[..n]) && all[n] == Expected(m);
  }

  /** Such a loss with real mails: the same mail twice, the second after the mailbox was cleared. */
  lemma SecondMailLost(m: Mail)
    requires WellFormed(m)
    ensures var x := WriteMail(m);
            var steps := [Deliver(x), Scan(true)] + [Clear(false), Deliver(x)];
            var s := After(steps);
            Run(steps) && !Enabled(s, Scan(true)) && Next(s, Scan(true)).collected == s.collected != s.delivered
  {
    ReadBack(m);
    RegrownMailboxLosesMail(WriteMail(m), WriteMail(m));
  }
}
