/** Printing crontabs, the round trip through the parser, and what discovery guarantees to the process matcher. */
module CrontabPrinter {
  import opened Wrappers
  import opened Text
  import opened Crontab
  import opened CommandWords
  import Matching

  /** A timezone with or without quotes, an entry, or a line that sets and schedules nothing. */
  datatype Item =
    | SetTimezone(name: string, quote: string, tz: string)
    | Schedule(fields: seq<string>, user: string, command: string)
    | Ignored(line: string)

  /** White-space-separated fields in front of the rest of a line. */
  function PrintFields(fields: seq<string>, rest: string): string {
    if fields == [] then rest else fields[0] + [' '] + PrintFields(fields[1..], rest)
  }

  function PrintRest(user: string, command: string, hasUser: bool): string {
    if hasUser then user + [' '] + command else command
  }

  function PrintItem(i: Item, hasUser: bool): string {
    match i
    case SetTimezone(name, quote, tz) => name + "=" + quote + tz + quote
    case Schedule(fields, user, command) => PrintFields(fields, PrintRest(user, command, hasUser))
    case Ignored(line) => line
  }

  function PrintLines(items: seq<Item>, hasUser: bool): (r: seq<string>)
    ensures |r| == |items| && forall i :: 0 <= i < |r| ==> r[i] == PrintItem(items[i], hasUser)
  {
    seq(|items|, i requires 0 <= i < |items| => PrintItem(items[i], hasUser))
  }

  function Print(items: seq<Item>, hasUser: bool): string {
    Join(PrintLines(items, hasUser), '\n')
  }

  /** A timezone without outer blanks or quotes. */
  predicate PlainTimezone(tz: string) {
    tz == "" || (Tight(tz) && !QuoteChar(tz[0]) && !QuoteChar(tz[|tz| - 1]))
  }

  /** Nothing but white space, or a comment or an @-entry after it. */
  ghost predicate Ignorable(line: string) {
    White(line) || exists a, rest :: White(a) && (line == a + "#" + rest || line == a + "@" + rest)
  }

  ghost predicate WellFormed(i: Item, hasUser: bool) {
    match i
    case SetTimezone(name, quote, tz) =>
      && (name == "CRON_TZ" || name == "TZ") && (quote == "" || quote == "'" || quote == "\"")
      && PlainTimezone(tz) && '\n' !in tz
    case Ignored(line) => Ignorable(line) && '\n' !in line
    case Schedule(fields, user, command) =>
      && |fields| == 5
      && (forall k :: 0 <= k < 5 ==> Word(fields[k]))
      && fields[0][0] != '#' && fields[0][0] != '@'
      && !HasPrefix(fields[0], "TZ=") && !HasPrefix(fields[0], "CRON_TZ=")
      && (if hasUser then Word(user) else user == "")
      && Tight(command) && '\n' !in command
  }

  function ExpectedJob(i: Item, tz: string): Job
    requires i.Schedule?
  {
    Job(Join(i.fields, ' '), tz, i.user, i.command, NormalizeCommand(i.command))
  }

  /** The entries in order, each with the last timezone set before it. */
  function Expected(items: seq<Item>, tz: string): seq<Job> {
    if items == [] then []
    else
      match items[0]
      case SetTimezone(_, _, newTz) => Expected(items[1..], newTz)
      case Ignored(_) => Expected(items[1..], tz)
      case Schedule(_, _, _) => [ExpectedJob(items[0], tz)] + Expected(items[1..], tz)
  }

  // ------------------------------------------------------------------------ one line

  lemma {:induction false} TokenLenWord(w: string, t: string)
    requires Word(w)
    ensures TokenLen(w + [' '] + t) == |w|
  {
    if |w| > 1 {
      TokenLenWord(w[1..], t);
      assert (w + [' '] + t)[1..] == w[1..] + [' '] + t;
    } else {
      assert (w + [' '] + t)[1..] == [' '] + t;
    }
  }

  lemma PrintedStart(fields: seq<string>, rest: string)
    requires forall k :: 0 <= k < |fields| ==> Word(fields[k])
    requires rest != "" && !IsSpace(rest[0])
    ensures var line := PrintFields(fields, rest); line != "" && !IsSpace(line[0])
  {
    if fields != [] {
      assert PrintFields(fields, rest)[0] == fields[0][0];
    }
  }

  lemma {:induction false} CutPrinted(fields: seq<string>, rest: string)
    requires forall k :: 0 <= k < |fields| ==> Word(fields[k])
    requires rest != "" && !IsSpace(rest[0])
    ensures CutTokens(PrintFields(fields, rest), |fields|) == Some(Cut(fields, rest))
  {
    if fields != [] {
      var w, t := fields[0], PrintFields(fields[1..], rest);
      CutPrinted(fields[1..], rest);
      PrintedStart(fields[1..], rest);
      TokenLenWord(w, t);
      CutOne(w, t, |fields|);
      assert [w] + fields[1..] == fields;
    }
  }

  lemma CutOne(w: string, t: string, n: nat)
    requires Word(w) && TokenLen(w + [' '] + t) == |w| && t != "" && !IsSpace(t[0]) && n > 0
    ensures CutTokens(w + [' '] + t, n) ==
              match CutTokens(t, n - 1) case None => None case Some(c) => Some(Cut([w] + c.tokens, c.rest))
  {
    var line := w + [' '] + t;
    assert line[..|w|] == w;
    assert line[|w|..] == [' '] + t;
    assert ([' '] + t)[1..] == t;
    assert SpaceLen([' '] + t) == 1;
    assert line[|w| + 1..] == t;
  }

  lemma {:induction false} PrintFieldsEnd(fields: seq<string>, rest: string)
    requires rest != ""
    ensures var s := PrintFields(fields, rest); s != "" && s[|s| - 1] == rest[|rest| - 1]
  {
    if fields != [] {
      PrintFieldsEnd(fields[1..], rest);
    }
  }

  lemma RestParses(user: string, command: string, hasUser: bool)
    requires if hasUser then Word(user) else user == ""
    requires Tight(command)
    ensures var rest := PrintRest(user, command, hasUser);
            && Tight(rest)
            && (hasUser ==>
                  var k := IndexOf(rest, ' ');
                  k == |user| < |rest| && rest[..k] == user && TrimSpace(rest[k + 1..]) == command)
  {
    TrimTight(command);
    if hasUser {
      assert ' ' !in user;
      IndexOfFirst(user, command, ' ');
      var rest := user + [' '] + command;
      assert rest[..|user|] == user && rest[|user| + 1..] == command;
    }
  }

  lemma EntryParses(i: Item, hasUser: bool)
    requires i.Schedule? && WellFormed(i, hasUser)
    ensures ParseCronLine(PrintItem(i, hasUser), hasUser, "") == Some(ExpectedJob(i, ""))
  {
    var rest := PrintRest(i.user, i.command, hasUser);
    RestParses(i.user, i.command, hasUser);
    CutPrinted(i.fields, rest);
    TrimTight(rest);
  }

  lemma EntryLine(i: Item, hasUser: bool)
    requires i.Schedule? && WellFormed(i, hasUser)
    ensures var line := PrintItem(i, hasUser);
            TrimSpace(line) == line && line != "" && line[0] == i.fields[0][0] && ParseTZLine(line) == None
  {
    var rest := PrintRest(i.user, i.command, hasUser);
    RestParses(i.user, i.command, hasUser);
    EntryTight(i.fields, rest);
    var f := i.fields[0];
    PrefixInFirst(f, PrintFields(i.fields[1..], rest), "TZ=");
    PrefixInFirst(f, PrintFields(i.fields[1..], rest), "CRON_TZ=");
  }

  lemma EntryTight(fields: seq<string>, rest: string)
    requires fields != [] && forall k :: 0 <= k < |fields| ==> Word(fields[k])
    requires Tight(rest)
    ensures var line := PrintFields(fields, rest);
            TrimSpace(line) == line && line != "" && Word(fields[0]) && line[0] == fields[0][0]
  {
    var line := PrintFields(fields, rest);
    PrintFieldsEnd(fields, rest);
    assert line[0] == fields[0][0];
    TrimTight(line);
  }

  /** A prefix without blanks lies within the first word. */
  lemma PrefixInFirst(w: string, t: string, p: string)
    requires ' ' !in p
    ensures HasPrefix(w + [' '] + t, p) <==> HasPrefix(w, p)
  {
    var line := w + [' '] + t;
    assert p <= line ==> forall k :: 0 <= k < |p| ==> p[k] == line[k];
    assert line[..|w|] == w;
    assert line[|w|] == ' ';
  }

  lemma QuoteLeft(q: char, s: string)
    requires QuoteChar(q)
    ensures TrimQuotesLeft([q] + s) == TrimQuotesLeft(s)
  {
    assert ([q] + s)[1..] == s;
  }

  lemma QuoteRight(s: string, q: char)
    requires QuoteChar(q)
    ensures TrimQuotesRight(s + [q]) == TrimQuotesRight(s)
  {
    assert (s + [q])[..|s|] == s;
  }

  lemma QuotesCome(quote: string, tz: string)
    requires quote == "" || (|quote| == 1 && QuoteChar(quote[0]))
    requires PlainTimezone(tz)
    ensures TrimQuotesRight(TrimQuotesLeft(quote + tz + quote)) == tz
  {
    if quote == "" {
      assert quote + tz + quote == tz;
    } else {
      var q := quote[0];
      assert quote + tz + quote == [q] + (tz + [q]);
      QuoteLeft(q, tz + [q]);
      if tz == "" {
        QuoteLeft(q, "");
      } else {
        QuoteRight(tz, q);
      }
    }
  }

  lemma NamedTimezone(value: string)
    ensures ParseTZLine("TZ=" + value) == Some(TrimQuotesRight(TrimQuotesLeft(value)))
    ensures ParseTZLine("CRON_TZ=" + value) == Some(TrimQuotesRight(TrimQuotesLeft(value)))
  {
    assert ("TZ=" + value)[0] == 'T' && "CRON_TZ="[0] == 'C';
    assert ("TZ=" + value)[3..] == value;
    assert ("CRON_TZ=" + value)[8..] == value;
  }

  lemma StartTight(start: string, value: string)
    requires Tight(start) && (value == "" || !IsSpace(value[|value| - 1]))
    ensures TrimSpace(start + value) == start + value && start + value != "" && (start + value)[0] == start[0]
  {
    var line := start + value;
    assert line[|line| - 1] == if value == "" then start[|start| - 1] else value[|value| - 1];
    TrimTight(line);
  }

  lemma QuotedEnd(quote: string, tz: string)
    requires quote == "" || quote == "'" || quote == "\""
    requires PlainTimezone(tz)
    ensures var value := quote + tz + quote; value == "" || !IsSpace(value[|value| - 1])
  {
    var value := quote + tz + quote;
    if quote == "" {
      assert value == tz;
    } else {
      assert value[|value| - 1] == quote[0];
    }
  }

  lemma TimezoneLine(name: string, quote: string, tz: string)
    requires name == "CRON_TZ" || name == "TZ"
    requires quote == "" || quote == "'" || quote == "\""
    requires PlainTimezone(tz)
    ensures var line := name + "=" + quote + tz + quote;
            TrimSpace(line) == line && line != "" && line[0] != '#' && ParseTZLine(line) == Some(tz)
  {
    var value := quote + tz + quote;
    QuotesCome(quote, tz);
    QuotedEnd(quote, tz);
    NamedTimezone(value);
    TimezoneText(name, quote, tz);
    StartTight(if name == "TZ" then "TZ=" else "CRON_TZ=", value);
  }

  lemma TimezoneText(name: string, quote: string, tz: string)
    requires name == "CRON_TZ" || name == "TZ"
    ensures name + "=" + quote + tz + quote == (if name == "TZ" then "TZ=" else "CRON_TZ=") + (quote + tz + quote)
  {
    assert name + "=" == if name == "TZ" then "TZ=" else "CRON_TZ=";
  }

  lemma {:induction false} TrimLeftMore(a: string, s: string)
    requires White(a)
    ensures TrimLeft(a + s) == TrimLeft(s)
  {
    if a == "" {
      assert a + s == s;
    } else {
      TrimLeftMore(a[1..], s);
      assert (a + s)[1..] == a[1..] + s;
    }
  }

  lemma {:induction false} TrimRightStart(s: string)
    requires s != "" && !IsSpace(s[0])
    ensures TrimRight(s) != "" && TrimRight(s)[0] == s[0]
  {
    if |s| > 1 && IsSpace(s[|s| - 1]) {
      TrimRightStart(s[..|s| - 1]);
    }
  }

  lemma TrimKeepsFirst(a: string, s: string)
    requires White(a) && s != "" && !IsSpace(s[0])
    ensures TrimSpace(a + s) != "" && TrimSpace(a + s)[0] == s[0]
  {
    TrimLeftMore(a, s);
    TrimRightStart(s);
  }

  /** The first character that is not white space decides what to skip. */
  lemma IgnoredLine(line: string, hasUser: bool)
    requires Ignorable(line)
    ensures Classify(line, hasUser) == Skip
  {
    if White(line) {
      TrimWhite(line);
    } else {
      var a, rest :| White(a) && (line == a + "#" + rest || line == a + "@" + rest);
      var s := line[|a|..];
      assert line == a + s && (s[0] == '#' || s[0] == '@');
      TrimKeepsFirst(a, s);
      SkippedStart(TrimSpace(line));
    }
  }

  lemma SkippedStart(line: string)
    requires line != "" && (line[0] == '#' || line[0] == '@')
    ensures ParseTZLine(line) == None && (HasPrefix(line, "#") || HasPrefix(line, "@"))
  {
    assert "TZ="[0] == 'T' && "CRON_TZ="[0] == 'C';
    assert line[..1] == [line[0]];
  }

  /** What the parser should make of an item's line. */
  predicate Means(l: Line, i: Item) {
    match i
    case SetTimezone(_, _, tz) => l == Timezone(tz)
    case Ignored(_) => l == Skip
    case Schedule(_, _, _) => l == Entry(ExpectedJob(i, ""))
  }

  lemma ClassifiedTimezone(line: string, hasUser: bool)
    requires TrimSpace(line) == line && line != "" && line[0] != '#' && ParseTZLine(line).Some?
    ensures Classify(line, hasUser) == Timezone(ParseTZLine(line).value)
  {
  }

  lemma ClassifiedEntry(line: string, hasUser: bool)
    requires TrimSpace(line) == line && line != "" && line[0] != '#' && line[0] != '@'
    requires ParseTZLine(line).None? && ParseCronLine(line, hasUser, "").Some?
    ensures Classify(line, hasUser) == Entry(ParseCronLine(line, hasUser, "").value)
  {
  }

  lemma ItemClassified(i: Item, hasUser: bool)
    requires WellFormed(i, hasUser)
    ensures Means(Classify(PrintItem(i, hasUser), hasUser), i)
  {
    match i
    case SetTimezone(name, quote, tz) =>
      TimezoneLine(name, quote, tz);
      ClassifiedTimezone(PrintItem(i, hasUser), hasUser);
    case Ignored(line) => IgnoredLine(line, hasUser);
    case Schedule(_, _, _) =>
      EntryParses(i, hasUser);
      EntryLine(i, hasUser);
      ClassifiedEntry(PrintItem(i, hasUser), hasUser);
  }

  // ---------------------------------------------------------------------- whole files

  lemma {:induction false} JobsOfPrinted(items: seq<Item>, lines: seq<string>, kind: string -> Line, tz: string)
    requires |lines| == |items|
    requires forall i :: 0 <= i < |items| ==> Means(kind(lines[i]), items[i])
    ensures JobsOf(lines, kind, tz) == Expected(items, tz)
  {
    if items != [] {
      assert Means(kind(lines[0]), items[0]);
      var next := if items[0].SetTimezone? then items[0].tz else tz;
      forall i | 0 <= i < |items| - 1 ensures Means(kind(lines[1..][i]), items[1..][i]) {
        assert lines[1..][i] == lines[i + 1] && items[1..][i] == items[i + 1];
      }
      JobsOfPrinted(items[1..], lines[1..], kind, next);
    }
  }

  lemma {:induction false} WordsClean(fields: seq<string>, rest: string)
    requires forall k :: 0 <= k < |fields| ==> Word(fields[k])
    requires '\n' !in rest
    ensures '\n' !in PrintFields(fields, rest)
  {
    if fields != [] {
      WordsClean(fields[1..], rest);
    }
  }

  lemma ItemClean(i: Item, hasUser: bool)
    requires WellFormed(i, hasUser)
    ensures '\n' !in PrintItem(i, hasUser)
  {
    if i.Schedule? {
      WordsClean(i.fields, PrintRest(i.user, i.command, hasUser));
    }
  }

  /**
   Printing any list of timezone lines, entries and lines to ignore and parsing it
   returns the entries in order, each with the last preceding timezone, or UTC.
   */
  lemma RoundTrip(items: seq<Item>, hasUser: bool)
    requires forall i :: 0 <= i < |items| ==> WellFormed(items[i], hasUser)
    ensures Jobs(Print(items, hasUser), hasUser) == Expected(items, "UTC")
  {
    var lines := PrintLines(items, hasUser);
    var kind := line => Classify(line, hasUser);
    if items == [] {
      SplitPlain("", '\n');
      IgnoredLine("", hasUser);
      assert kind("") == Skip;
      assert [""][1..] == [];
    } else {
      forall i | 0 <= i < |items| ensures '\n' !in lines[i] && Means(kind(lines[i]), items[i]) {
        ItemClean(items[i], hasUser);
        ItemClassified(items[i], hasUser);
      }
      SplitJoin(lines, '\n');
      JobsOfPrinted(items, lines, kind, "UTC");
    }
  }

  // ------------------------------------------------------------------ what an entry is

  /** Tokens, each followed by all the white space up to the next, and what is left. */
  ghost predicate IsCut(line: string, tokens: seq<string>, rest: string)
    decreases |tokens|
  {
    if tokens == [] then line == rest && rest != ""
    else exists gap, tail :: NextToken(line, tokens[0], gap, tail) && IsCut(tail, tokens[1..], rest)
  }

  predicate NextToken(line: string, token: string, gap: string, tail: string) {
    line == token + (gap + tail) && Token(token) && Gap(gap) && gap != "" && (tail == "" || !ReSpace(tail[0]))
  }

  lemma {:induction false} TokenLenToken(s: string)
    ensures forall i :: 0 <= i < TokenLen(s) ==> !ReSpace(s[i])
    ensures TokenLen(s) < |s| ==> ReSpace(s[TokenLen(s)])
  {
    if s != "" && !ReSpace(s[0]) {
      TokenLenToken(s[1..]);
      forall i | 0 <= i < TokenLen(s) ensures !ReSpace(s[i]) {
        assert i > 0 ==> s[i] == s[1..][i - 1];
      }
    }
  }

  /** There is only one way to take a token off a line. */
  lemma TokenOff(line: string, token: string, gap: string, tail: string)
    requires NextToken(line, token, gap, tail)
    ensures TokenLen(line) == |token| && line[..|token|] == token && SpaceLen(line[|token|..]) == |gap|
    ensures line[|token| + |gap|..] == tail
  {
    TokenLenIs(token, gap + tail);
    assert line[|token|..] == gap + tail;
    SpaceLenIs(gap, tail);
    DropMore(line, |token|, |gap|);
  }

  lemma SplitAt(s: string, k: nat, g: nat)
    requires k + g <= |s|
    ensures s == s[..k] + (s[k..][..g] + s[k + g..])
  {
  }

  lemma TokenOn(line: string)
    requires StartsWithToken(line)
    ensures var k := TokenLen(line); var g := SpaceLen(line[k..]);
            NextToken(line, line[..k], line[k..][..g], line[k + g..])
  {
    var k := TokenLen(line);
    var after := line[k..];
    var g := SpaceLen(after);
    TokenLenToken(line);
    TakeToken(line, k);
    SpaceLenGap(after);
    SplitAt(line, k, g);
    DropMore(line, k, g);
    assert g < |after| ==> after[g..][0] == after[g];
  }

  lemma TakeToken(s: string, k: nat)
    requires 0 < k <= |s| && forall i :: 0 <= i < k ==> !ReSpace(s[i])
    ensures Token(s[..k])
  {
  }

  predicate StartsWithToken(line: string) {
    TokenLen(line) > 0 && SpaceLen(line[TokenLen(line)..]) > 0
  }

  /** What follows the first token and the white space after it. */
  function AfterToken(line: string): string {
    line[TokenLen(line) + SpaceLen(line[TokenLen(line)..])..]
  }

  lemma IsCutStep(line: string, tokens: seq<string>, rest: string)
    requires tokens != []
    ensures IsCut(line, tokens, rest) <==>
              && StartsWithToken(line) && tokens[0] == line[..TokenLen(line)]
              && IsCut(AfterToken(line), tokens[1..], rest)
  {
    if StartsWithToken(line) {
      TokenOn(line);
    }
    forall gap, tail | NextToken(line, tokens[0], gap, tail)
      ensures StartsWithToken(line) && line[..TokenLen(line)] == tokens[0] && AfterToken(line) == tail
    {
      TokenOff(line, tokens[0], gap, tail);
    }
  }

  lemma CutStep(line: string, n: nat, tokens: seq<string>, rest: string)
    requires n > 0 && |tokens| == n
    ensures CutTokens(line, n) == Some(Cut(tokens, rest)) <==>
              && StartsWithToken(line) && tokens[0] == line[..TokenLen(line)]
              && CutTokens(AfterToken(line), n - 1) == Some(Cut(tokens[1..], rest))
  {
    if StartsWithToken(line) && CutTokens(AfterToken(line), n - 1).Some? {
      var c := CutTokens(AfterToken(line), n - 1).value;
      assert ([line[..TokenLen(line)]] + c.tokens)[1..] == c.tokens;
      assert tokens == [tokens[0]] + tokens[1..];
    }
  }

  lemma {:induction false} CutIff(line: string, n: nat, tokens: seq<string>, rest: string)
    requires |tokens| == n
    ensures CutTokens(line, n) == Some(Cut(tokens, rest)) <==> IsCut(line, tokens, rest)
    decreases n
  {
    if n > 0 {
      IsCutStep(line, tokens, rest);
      CutStep(line, n, tokens, rest);
      CutIff(AfterToken(line), n - 1, tokens[1..], rest);
    }
  }

  lemma {:induction false} CutLength(line: string, n: nat)
    ensures CutTokens(line, n).Some? ==> |CutTokens(line, n).value.tokens| == n
    decreases n
  {
    if n > 0 && TokenLen(line) > 0 {
      CutLength(line[TokenLen(line) + SpaceLen(line[TokenLen(line)..])..], n - 1);
    }
  }

  predicate UserThen(rest: string, user: string, x: string) {
    rest == user + " " + x && ' ' !in user
  }

  /** The job of an entry: in a system crontab the first field of the rest names the user. */
  ghost predicate IsEntryOf(job: Job, tokens: seq<string>, rest: string, hasUser: bool) {
    && job.schedule == Join(tokens, ' ') && job.normalized == NormalizeCommand(job.rawCommand)
    && if hasUser then exists x :: UserThen(rest, job.user, x) && job.rawCommand == TrimSpace(x)
       else job.user == "" && job.rawCommand == rest
  }

  ghost predicate IsEntry(line: string, job: Job, hasUser: bool) {
    exists tokens, rest :: |tokens| == 5 && IsCut(line, tokens, rest) && IsEntryOf(job, tokens, TrimSpace(rest), hasUser)
  }

  lemma UserFirst(rest: string)
    requires IndexOf(rest, ' ') < |rest|
    ensures var k := IndexOf(rest, ' '); UserThen(rest, rest[..k], rest[k + 1..])
  {
    var k := IndexOf(rest, ' ');
    IndexOfFound(rest, ' ');
    CutOut(rest, k);
  }

  lemma UserOnly(rest: string, user: string, x: string)
    requires UserThen(rest, user, x)
    ensures var k := IndexOf(rest, ' '); k < |rest| && rest[..k] == user && rest[k + 1..] == x
  {
    IndexOfFirst(user, x, ' ');
  }

  /** A line gives a job exactly if it consists of five fields, a user where there is one, and a command. */
  lemma EntryIff(line: string, hasUser: bool, job: Job)
    ensures ParseCronLine(line, hasUser, job.timezone) == Some(job) <==> IsEntry(line, job, hasUser)
  {
    CutLength(line, 5);
    if CutTokens(line, 5).Some? {
      var m := CutTokens(line, 5).value;
      CutIff(line, 5, m.tokens, m.rest);
      EntryJob(m, TrimSpace(m.rest), hasUser, line, job);
    }
    forall tokens: seq<string>, rest | |tokens| == 5 && IsCut(line, tokens, rest)
      ensures CutTokens(line, 5) == Some(Cut(tokens, rest))
    {
      CutIff(line, 5, tokens, rest);
    }
  }

  lemma EntryJob(m: Cut, rest: string, hasUser: bool, line: string, job: Job)
    requires CutTokens(line, 5) == Some(m) && rest == TrimSpace(m.rest)
    ensures ParseCronLine(line, hasUser, job.timezone) == Some(job) <==> IsEntryOf(job, m.tokens, rest, hasUser)
  {
    var k := IndexOf(rest, ' ');
    if k < |rest| {
      UserFirst(rest);
    }
    forall x | UserThen(rest, job.user, x) ensures k < |rest| && rest[..k] == job.user && rest[k + 1..] == x {
      UserOnly(rest, job.user, x);
    }
  }

  // ---------------------------------------------------------------------- discovery

  lemma {:induction false} JobsNormalized(lines: seq<string>, kind: string -> Line, tz: string, job: Job)
    requires forall l :: kind(l).Entry? ==> kind(l).job.normalized == NormalizeCommand(kind(l).job.rawCommand)
    requires job in JobsOf(lines, kind, tz)
    ensures job.normalized == NormalizeCommand(job.rawCommand)
    decreases |lines|
  {
    match kind(lines[0])
    case Skip => JobsNormalized(lines[1..], kind, tz, job);
    case Timezone(z) => JobsNormalized(lines[1..], kind, z, job);
    case Entry(j) =>
      if job != j.(timezone := tz) {
        JobsNormalized(lines[1..], kind, tz, job);
      } else {
        assert kind(lines[0]).Entry?;
      }
  }

  /** On every discovered job, whatever the file, the process matcher can take the first token. */
  lemma DiscoveredIsIndexable(content: string, hasUser: bool, job: Job)
    requires job in Jobs(content, hasUser)
    ensures Matching.Indexable(job.normalized)
  {
    var kind := line => Classify(line, hasUser);
    JobsNormalized(Split(content, '\n'), kind, "UTC", job);
    NormalizedIsCollapsed(job.rawCommand);
  }
}
