/** The crontab parser: timezone lines, schedule entries and command normalization. */
module Crontab {
  import opened Wrappers
  import opened Text

  // ------------------------------------------------------------ the regular expressions

  /** \s in Go's regular expressions */
  predicate ReSpace(c: char) {
    c == ' ' || c == '\t' || c == '\n' || c == '\r' || c == '\U{0C}'
  }

  function SpaceLen(s: string): (n: nat)
    ensures n <= |s|
  {
    if s == "" || !ReSpace(s[0]) then 0 else 1 + SpaceLen(s[1..])
  }

  function TokenLen(s: string): (n: nat)
    ensures n <= |s|
  {
    if s == "" || ReSpace(s[0]) then 0 else 1 + TokenLen(s[1..])
  }

  datatype Cut = Cut(tokens: seq<string>, rest: string)

  /** n tokens, each followed by white space, and a non-empty rest: ^(\S+)\s+...(.+)$ */
  function CutTokens(line: string, n: nat): Option<Cut>
    decreases n
  {
    if n == 0 then (if line == "" then None else Some(Cut([], line)))
    else
      var k := TokenLen(line);
      if k == 0 then None
      else
        var gap := SpaceLen(line[k..]);
        if gap == 0 then None
        else
          match CutTokens(line[k + gap..], n - 1)
          case None => None
          case Some(c) => Some(Cut([line[..k]] + c.tokens, c.rest))
  }

  // ------------------------------------------------------------------ normalization

  /** Length of a match of \s*>\s*\/\S+ at the start of s, 0 if there is none. */
  function RedirectLen(s: string): (n: nat)
    ensures n <= |s|
  {
    var i := SpaceLen(s);
    if i == |s| || s[i] != '>' then 0
    else
      var j := i + 1 + SpaceLen(s[i + 1..]);
      if j == |s| || s[j] != '/' then 0
      else
        var k := TokenLen(s[j + 1..]);
        if k == 0 then 0 else j + 1 + k
  }

  function StripRedirects(s: string): string
    decreases |s|
  {
    if s == "" then ""
    else
      var n := RedirectLen(s);
      if n > 0 then StripRedirects(s[n..]) else [s[0]] + StripRedirects(s[1..])
  }

  /** strings.ReplaceAll with an empty replacement */
  function Remove(s: string, what: string): string
    requires what != ""
    decreases |s|
  {
    if s == "" then ""
    else if what <= s then Remove(s[|what|..], what)
    else [s[0]] + Remove(s[1..], what)
  }

  function NormalizeCommand(cmd: string): string {
    var a := StripRedirects(cmd);
    var b := Remove(a, "> /dev/null 2>&1");
    var c := Remove(b, "2>&1");
    var d := Remove(c, ">/dev/null");
    TrimSpace(Join(Fields(d), ' '))
  }

  // ------------------------------------------------------------------------ one line

  datatype Job = Job(schedule: string, timezone: string, user: string, rawCommand: string, normalized: string)

  predicate QuoteChar(c: char) {
    c == '"' || c == '\'' || c == ' '
  }

  function TrimQuotesLeft(s: string): string {
    if s != "" && QuoteChar(s[0]) then TrimQuotesLeft(s[1..]) else s
  }

  function TrimQuotesRight(s: string): string {
    if s != "" && QuoteChar(s[|s| - 1]) then TrimQuotesRight(s[..|s| - 1]) else s
  }

  function ParseTZLine(line: string): Option<string> {
    if HasPrefix(line, "CRON_TZ=") then Some(TrimQuotesRight(TrimQuotesLeft(line[8..])))
    else if HasPrefix(line, "TZ=") then Some(TrimQuotesRight(TrimQuotesLeft(line[3..])))
    else None
  }

  function ParseCronLine(line: string, hasUser: bool, tz: string): Option<Job> {
    match CutTokens(line, 5)
    case None => None
    case Some(m) =>
      var schedule := Join(m.tokens, ' ');
      var rest := TrimSpace(m.rest);
      if hasUser then
        var k := IndexOf(rest, ' ');
        if k == |rest| then None
        else
          var raw := TrimSpace(rest[k + 1..]);
          Some(Job(schedule, tz, rest[..k], raw, NormalizeCommand(raw)))
      else Some(Job(schedule, tz, "", rest, NormalizeCommand(rest)))
  }

  /** What a line means to the parser; an entry still lacks its timezone. */
  datatype Line = Skip | Timezone(tz: string) | Entry(job: Job)

  /** The decisions of the parser's loop about one line, in their order. */
  function Classify(raw: string, hasUser: bool): Line {
    var line := TrimSpace(raw);
    if line == "" || HasPrefix(line, "#") then Skip
    else if ParseTZLine(line).Some? then Timezone(ParseTZLine(line).value)
    else if HasPrefix(line, "@") then Skip
    else
      match ParseCronLine(line, hasUser, "")
      case None => Skip
      case Some(job) => Entry(job)
  }

  // ------------------------------------------------------------------------ the file

  /** The jobs of classified lines: each entry gets the last timezone before it. */
  function JobsOf(lines: seq<string>, kind: string -> Line, tz: string): seq<Job>
    decreases |lines|
  {
    if lines == [] then []
    else
      match kind(lines[0])
      case Skip => JobsOf(lines[1..], kind, tz)
      case Timezone(newTz) => JobsOf(lines[1..], kind, newTz)
      case Entry(job) => [job.(timezone := tz)] + JobsOf(lines[1..], kind, tz)
  }

  /** The loop of parseCrontab, carrying the current timezone and the jobs so far. */
  method CollectJobs(lines: seq<string>, kind: string -> Line) returns (jobs: seq<Job>)
    ensures jobs == JobsOf(lines, kind, "UTC")
  {
    jobs := [];
    var currentTZ := "UTC";
    assert lines[0..] == lines;
    for i := 0 to |lines|
      invariant JobsOf(lines, kind, "UTC") == jobs + JobsOf(lines[i..], kind, currentTZ)
    {
      assert lines[i..][1..] == lines[i + 1..];
      var line := kind(lines[i]);
      if line.Skip? {
        continue;
      }
      if line.Timezone? {
        currentTZ := line.tz;
        continue;
      }
      jobs := jobs + [line.job.(timezone := currentTZ)];
    }
  }

  function Jobs(content: string, hasUser: bool): seq<Job> {
    JobsOf(Split(content, '\n'), line => Classify(line, hasUser), "UTC")
  }

  /** parseCrontab */
  method ParseCrontab(content: string, hasUser: bool) returns (jobs: seq<Job>)
    ensures jobs == Jobs(content, hasUser)
  {
    jobs := CollectJobs(Split(content, '\n'), line => Classify(line, hasUser));
  }

  // -------------------------------------------------------------- normalized commands

  /** Words joined by single blanks split into those words again. */
  lemma {:induction false} FieldsJoin(ws: seq<string>)
    requires forall i :: 0 <= i < |ws| ==> Word(ws[i])
    ensures Fields(Join(ws, ' ')) == ws
  {
    if ws != [] {
      var w := ws[0];
      if |ws| == 1 {
        WordLenExact(w, "");
        assert w + "" == w;
        assert w[..|w|] == w && w[|w|..] == "";
      } else {
        var t := Join(ws[1..], ' ');
        FieldsJoin(ws[1..]);
        WordLenExact(w, [' '] + t);
        var s := w + ([' '] + t);
        assert s == Join(ws, ' ');
        assert s[..|w|] == w && s[|w|..] == [' '] + t;
        assert ([' '] + t)[1..] == t;
        assert Fields(s) == [w] + Fields([' '] + t);
      }
    }
  }

  lemma {:induction false} JoinTight(ws: seq<string>)
    requires ws != [] && forall i :: 0 <= i < |ws| ==> Word(ws[i])
    ensures Tight(Join(ws, ' '))
  {
    if |ws| > 1 {
      JoinTight(ws[1..]);
      var t := Join(ws[1..], ' ');
      var s := ws[0] + [' '] + t;
      assert s[|s| - 1] == t[|t| - 1];
    }
  }

  /**
   Every normalized command is its own whitespace-collapsed form, and is empty
   exactly when it has no first token: taking the first token never fails.
   */
  lemma NormalizedIsCollapsed(cmd: string)
    ensures var n := NormalizeCommand(cmd);
            n == Join(Fields(n), ' ') && (n == "" <==> Fields(n) == [])
  {
    var d := Remove(Remove(Remove(StripRedirects(cmd), "> /dev/null 2>&1"), "2>&1"), ">/dev/null");
    CollapseOnce(d);
  }

  lemma CollapseOnce(d: string)
    ensures var n := TrimSpace(Join(Fields(d), ' '));
            n == Join(Fields(n), ' ') && (n == "" <==> Fields(n) == [])
  {
    var ws := Fields(d);
    FieldsAreWords(d);
    FieldsJoin(ws);
    if ws != [] {
      JoinTight(ws);
      TrimTight(Join(ws, ' '));
    }
  }
}
