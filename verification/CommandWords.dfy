/** What normalizing a command keeps and removes, and which processes then match it. */
module CommandWords {
  import opened Wrappers
  import opened Text
  import opened Crontab
  import Matching

  // ------------------------------------------------------------------ redirections

  predicate Gap(g: string) {
    forall i :: 0 <= i < |g| ==> ReSpace(g[i])
  }

  /** The characters \S+ of a path. */
  predicate Token(p: string) {
    p != "" && forall i :: 0 <= i < |p| ==> !ReSpace(p[i])
  }

  lemma {:induction false} SpaceLenIs(g: string, s: string)
    requires Gap(g) && (s == "" || !ReSpace(s[0]))
    ensures SpaceLen(g + s) == |g|
  {
    if g == "" {
      assert g + s == s;
    } else {
      SpaceLenIs(g[1..], s);
      assert (g + s)[1..] == g[1..] + s;
    }
  }

  lemma {:induction false} TokenLenIs(p: string, t: string)
    requires (forall i :: 0 <= i < |p| ==> !ReSpace(p[i])) && (t == "" || ReSpace(t[0]))
    ensures TokenLen(p + t) == |p|
  {
    if p == "" {
      assert p + t == t;
    } else {
      TokenLenIs(p[1..], t);
      assert (p + t)[1..] == p[1..] + t;
    }
  }

  lemma {:induction false} SpaceLenGap(s: string)
    ensures Gap(s[..SpaceLen(s)])
    ensures SpaceLen(s) < |s| ==> !ReSpace(s[SpaceLen(s)])
  {
    if s != "" && ReSpace(s[0]) {
      SpaceLenGap(s[1..]);
      assert s[..SpaceLen(s)] == [s[0]] + s[1..][..SpaceLen(s[1..])];
    }
  }

  /** A redirection into an absolute path: \s*>\s*\/\S+ */
  function Redirection(g: string, h: string, p: string): string {
    g + ">" + h + "/" + p
  }

  lemma RedirectLenIs(g: string, h: string, p: string, t: string)
    requires Gap(g) && Gap(h) && Token(p) && (t == "" || ReSpace(t[0]))
    ensures RedirectLen(Redirection(g, h, p) + t) == |Redirection(g, h, p)|
  {
    var path := p + t;
    var rest := h + ("/" + path);
    var s := g + (">" + rest);
    RedirectionSplit(g, h, p, t);
    SpaceLenIs(g, ">" + rest);
    SpaceLenIs(h, "/" + path);
    TokenLenIs(p, t);
    After(g, ">", rest);
    After(h, "/", path);
    var i, m := |g|, |h|;
    DropMore(s, i + 1, m + 1);
    assert s[i + 1..][m] == s[i + 1 + m];
  }

  lemma After(g: string, mark: string, rest: string)
    requires |mark| == 1
    ensures (g + (mark + rest))[|g|] == mark[0] && (g + (mark + rest))[|g| + 1..] == rest
  {
  }

  lemma RedirectionSplit(g: string, h: string, p: string, t: string)
    ensures Redirection(g, h, p) + t == g + (">" + (h + ("/" + (p + t))))
  {
  }

  /** Where no redirection starts: a stretch of text up to the white space in front of the next one. */
  lemma NoRedirect(s: string)
    requires s != "" && (SpaceLen(s) < |s| ==> s[SpaceLen(s)] != '>')
    ensures RedirectLen(s) == 0 && StripRedirects(s) == [s[0]] + StripRedirects(s[1..])
  {
  }

  lemma {:induction false} StripPlain(s: string)
    requires '>' !in s
    ensures StripRedirects(s) == s
    decreases |s|
  {
    if s != "" {
      NoRedirect(s);
      StripPlain(s[1..]);
    }
  }

  predicate NoGapAtEnd(c: string) {
    c == "" || !ReSpace(c[|c| - 1])
  }

  lemma GapAt(s: string, n: nat, i: nat)
    requires i < n <= |s| && Gap(s[..n])
    ensures ReSpace(s[i])
  {
    assert s[..n][i] == s[i];
  }

  lemma NextIsText(c: string, s: string)
    requires c != "" && '>' !in c && NoGapAtEnd(c)
    ensures SpaceLen(c + s) < |c + s| && (c + s)[SpaceLen(c + s)] != '>'
  {
    var n := SpaceLen(c + s);
    SpaceLenGap(c + s);
    if n >= |c| {
      GapAt(c + s, n, |c| - 1);
      assert false;
    }
    assert (c + s)[n] == c[n];
  }

  lemma StripStep(c: string, s: string)
    requires c != "" && '>' !in c && NoGapAtEnd(c)
    ensures StripRedirects(c + s) == [c[0]] + StripRedirects(c[1..] + s)
  {
    NextIsText(c, s);
    NoRedirect(c + s);
    assert (c + s)[1..] == c[1..] + s;
  }

  /** Text before a redirection stays. */
  lemma {:induction false} StripAfter(c: string, s: string)
    requires '>' !in c && NoGapAtEnd(c)
    ensures StripRedirects(c + s) == c + StripRedirects(s)
    decreases |c|
  {
    if c == "" {
      assert c + s == s;
    } else {
      var tail := c[1..];
      StripStep(c, s);
      StripAfter(tail, s);
      RegroupFirst(c[0], tail, StripRedirects(s));
      assert [c[0]] + tail == c;
    }
  }

  /** A redirection is removed with the white space before it. */
  lemma StripOne(g: string, h: string, p: string, t: string)
    requires Gap(g) && Gap(h) && Token(p) && (t == "" || ReSpace(t[0]))
    ensures StripRedirects(Redirection(g, h, p) + t) == StripRedirects(t)
  {
    var r := Redirection(g, h, p);
    RedirectLenIs(g, h, p, t);
    assert (r + t)[|r|..] == t;
  }

  // ----------------------------------------------------------------- fixed patterns

  predicate Occurs(s: string, what: string, i: nat) {
    i <= |s| && what <= s[i..]
  }

  /** Removing what does not occur changes nothing. */
  lemma {:induction false} RemoveAbsent(s: string, what: string)
    requires what != "" && forall i: nat :: i <= |s| ==> !Occurs(s, what, i)
    ensures Remove(s, what) == s
    decreases |s|
  {
    if s != "" {
      assert !Occurs(s, what, 0);
      forall i: nat | i <= |s| - 1 ensures !Occurs(s[1..], what, i) {
        assert !Occurs(s, what, i + 1);
        assert s[i + 1..] == s[1..][i..];
      }
      RemoveAbsent(s[1..], what);
    }
  }

  lemma PatternHasArrow(s: string, what: string, i: nat, k: nat)
    requires Occurs(s, what, i) && k < |what|
    ensures i + k < |s| && s[i + k] == what[k]
  {
    assert what[k] == s[i..][k];
  }

  lemma RemovePlain(s: string, what: string)
    requires '>' !in s && '>' in what
    ensures Remove(s, what) == s
  {
    var k :| 0 <= k < |what| && what[k] == '>';
    forall i: nat | i <= |s| ensures !Occurs(s, what, i) {
      if Occurs(s, what, i) {
        PatternHasArrow(s, what, i, k);
      }
    }
    RemoveAbsent(s, what);
  }

  /** The last steps of normalization leave text without '>' alone but for its white space. */
  lemma CollapsePlain(s: string)
    ensures TrimSpace(Join(Fields(s), ' ')) == Join(Fields(s), ' ')
  {
    FieldsAreWords(s);
    if Fields(s) == [] {
      TrimWhite("");
    } else {
      JoinTight(Fields(s));
      TrimTight(Join(Fields(s), ' '));
    }
  }

  lemma NormalizePlain(cmd: string, s: string)
    requires StripRedirects(cmd) == s && '>' !in s
    ensures NormalizeCommand(cmd) == Join(Fields(s), ' ')
  {
    assert "> /dev/null 2>&1"[0] == '>' && "2>&1"[1] == '>' && ">/dev/null"[0] == '>';
    RemovePlain(s, "> /dev/null 2>&1");
    RemovePlain(s, "2>&1");
    RemovePlain(s, ">/dev/null");
    CollapsePlain(s);
  }

  /** A command that redirects nothing keeps its words, one blank apart. */
  lemma PlainCommand(cmd: string)
    requires '>' !in cmd
    ensures NormalizeCommand(cmd) == Join(Fields(cmd), ' ')
  {
    StripPlain(cmd);
    NormalizePlain(cmd, cmd);
  }

  lemma {:induction false} GapCut(c: string) returns (front: string, b: string)
    ensures c == front + b && NoGapAtEnd(front) && Gap(b)
  {
    if c != "" && ReSpace(c[|c| - 1]) {
      front, b := GapCut(c[..|c| - 1]);
      b := b + [c[|c| - 1]];
    } else {
      front, b := c, "";
    }
  }

  lemma StripTrailing(c: string, g: string, h: string, p: string, t: string) returns (front: string, b: string)
    requires '>' !in c && Gap(g) && Gap(h) && Token(p) && (t == "" || ReSpace(t[0]))
    ensures c == front + b && Gap(b) && NoGapAtEnd(front)
    ensures StripRedirects(c + Redirection(g, h, p) + t) == front + StripRedirects(t)
  {
    front, b := GapCut(c);
    assert c + Redirection(g, h, p) + t == front + (Redirection(b + g, h, p) + t);
    StripAfter(front, Redirection(b + g, h, p) + t);
    StripOne(b + g, h, p, t);
  }

  /** A redirection into a file at the end of a command disappears. */
  lemma RedirectedCommand(c: string, g: string, h: string, p: string)
    requires '>' !in c && Gap(g) && Gap(h) && Token(p)
    ensures NormalizeCommand(c + (g + ">" + h + "/" + p)) == Join(Fields(c), ' ')
  {
    var front, b := StripTrailing(c, g, h, p, "");
    assert c + Redirection(g, h, p) + "" == c + (g + ">" + h + "/" + p);
    assert front + "" == front;
    NormalizePlain(c + (g + ">" + h + "/" + p), front);
    FieldsMore(front, b);
  }

  lemma RemoveOnce(a: string, b: string)
    requires '>' !in a && '>' !in b
    ensures Remove(a + "2>&1" + b, "2>&1") == a + b
    decreases |a|
  {
    var what := "2>&1";
    var s := a + what + b;
    if a == "" {
      assert s == what + b;
      assert s[|what|..] == b;
      assert what[1] == '>';
      RemovePlain(b, what);
    } else {
      assert s[1] != '>' by { assert |a| > 1 ==> s[1] == a[1]; }
      assert !(what <= s) by { assert what[1] == '>'; }
      assert s[1..] == a[1..] + what + b;
      RemoveOnce(a[1..], b);
    }
  }

  lemma LongPatternAbsent(front: string)
    requires '>' !in front
    ensures Remove(front + " 2>&1", "> /dev/null 2>&1") == front + " 2>&1"
  {
    var s, what := front + " 2>&1", "> /dev/null 2>&1";
    forall i: nat | i <= |s| ensures !Occurs(s, what, i) {
      if Occurs(s, what, i) {
        PatternHasArrow(s, what, i, 0);
        PatternHasArrow(s, what, i, 15);
      }
    }
    RemoveAbsent(s, what);
  }

  lemma NormalizeStderr(cmd: string, front: string)
    requires StripRedirects(cmd) == front + " 2>&1" && '>' !in front
    ensures NormalizeCommand(cmd) == Join(Fields(front), ' ')
  {
    var rest := front + " ";
    LongPatternAbsent(front);
    assert front + " 2>&1" == rest + "2>&1" + "" && rest + "" == rest;
    RemoveOnce(rest, "");
    assert ">/dev/null"[0] == '>';
    RemovePlain(rest, ">/dev/null");
    CollapsePlain(rest);
    FieldsMore(front, " ");
  }

  /** So does one that takes standard error along: the usual " > /path 2>&1". */
  lemma SilencedCommand(c: string, g: string, h: string, p: string)
    requires '>' !in c && Gap(g) && Gap(h) && Token(p)
    ensures NormalizeCommand(c + (g + ">" + h + "/" + p) + " 2>&1") == Join(Fields(c), ' ')
  {
    var t := " 2>&1";
    assert t[0] == ' ';
    var front, b := StripTrailing(c, g, h, p, t);
    StripStderr();
    NormalizeStderr(c + Redirection(g, h, p) + t, front);
    FieldsMore(front, b);
  }

  lemma StripStderr()
    ensures StripRedirects(" 2>&1") == " 2>&1"
  {
    var c := " 2";
    assert c[0] == ' ' && c[1] == '2';
    StripAmpersand();
    StripAfter(c, ">&1");
    StderrText();
  }

  lemma StderrText()
    ensures " 2" + ">&1" == " 2>&1"
  {
  }

  lemma StripAmpersand()
    ensures StripRedirects(">&1") == ">&1"
  {
    var s := ">&1";
    assert SpaceLen(s) == 0 && s[1..] == "&1" && SpaceLen("&1") == 0;
    assert RedirectLen(s) == 0;
    StripPlain("&1");
  }

  /** A redirection of a numbered stream into a file leaves the number behind as a word of its own. */
  lemma NumberStays(c: string, h: string, p: string)
    requires '>' !in c && Gap(h) && Token(p)
    ensures NormalizeCommand(c + " 2" + (">" + h + "/" + p)) == Join(Fields(c) + ["2"], ' ')
  {
    var front := c + " 2";
    assert '>' !in front by { assert '>' !in " 2"; }
    RedirectedCommand(front, "", h, p);
    NoGap(h, p);
    assert c + " " + "2" == front;
    FieldsLast(c, "2");
  }

  lemma NoGap(h: string, p: string)
    ensures "" + ">" + h + "/" + p == ">" + h + "/" + p
  {
  }

  lemma {:induction false} FieldsLast(s: string, w: string)
    requires Word(w)
    ensures Fields(s + " " + w) == Fields(s) + [w]
    decreases |s|
  {
    if White(s) {
      FieldsNone(s);
      FieldsNone("");
      FieldsCons(s + " ", w, "");
      assert s + " " + w + "" == s + " " + w;
      assert [] + [w] == [w] + [];
    } else {
      var a, v, t := FirstWord(s);
      var t' := t + " " + w;
      assert s + " " + w == a + v + t';
      FieldsCons(a, v, t);
      FieldsCons(a, v, t');
      FieldsLast(t, w);
      Associative([v], Fields(t), [w]);
    }
  }

  // --------------------------------------------------------------------- matching

  /** w occurs in a command line. */
  ghost predicate Within(cmdline: string, w: string) {
    exists x, y :: cmdline == x + w + y
  }

  lemma ContainsIsWithin(s: string, w: string)
    ensures Contains(s, w) <==> Within(s, w)
  {
    if Contains(s, w) {
      var i :| 0 <= i <= |s| && w <= s[i..];
      assert s == s[..i] + w + s[i + |w|..];
    }
    if Within(s, w) {
      var x, y :| s == x + w + y;
      assert s[|x|..] == w + y;
    }
  }

  /** A process matches a command exactly when its command line contains the command's first word. */
  lemma MatchesIff(cmdline: string, a: string, w: string, t: string)
    requires White(a) && Word(w) && (t == "" || IsSpace(t[0]))
    ensures Matching.Indexable(a + w + t)
    ensures Matching.MatchesCommand(cmdline, a + w + t) <==> Within(cmdline, w)
  {
    FieldsCons(a, w, t);
    ContainsIsWithin(cmdline, w);
  }

  /** A process that runs a normalized command, whatever surrounds it, matches that command. */
  lemma RunningMatches(cmd: string, x: string, y: string)
    requires NormalizeCommand(cmd) != ""
    ensures var n := NormalizeCommand(cmd);
            Matching.Indexable(n) && Matching.MatchesCommand(x + n + y, n)
  {
    var n := NormalizeCommand(cmd);
    NormalizedIsCollapsed(cmd);
    assert !White(n) by {
      if White(n) { FieldsNone(n); }
    }
    var a, w, t := FirstWord(n);
    MatchesIff(x + n + y, a, w, t);
    assert x + n + y == (x + a) + w + (t + y);
  }
}
