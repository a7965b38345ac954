/**
 The parts of Go's `strings` package the agent's parsers use, over ASCII text.
 */
module Text {

  predicate IsSpace(c: char) {
    c == ' ' || c == '\t' || c == '\n' || c == '\r' || c == '\U{0B}' || c == '\U{0C}'
  }

  predicate HasPrefix(s: string, p: string) {
    p <= s
  }

  // ---------------------------------------------------------------------------- Index

  /** strings.Index for a single character: its first position, or the length when absent. */
  function IndexOf(s: string, c: char): (n: nat)
    ensures n <= |s|
  {
    if s == "" || s[0] == c then 0 else 1 + IndexOf(s[1..], c)
  }

  lemma {:induction false} IndexOfFirst(a: string, b: string, c: char)
    requires c !in a
    ensures IndexOf(a + [c] + b, c) == |a|
  {
    if a == "" {
      assert a + [c] + b == [c] + b;
    } else {
      IndexOfFirst(a[1..], b, c);
      assert (a + [c] + b)[1..] == a[1..] + [c] + b;
    }
  }

  lemma {:induction false} IndexOfFound(s: string, c: char)
    ensures c !in s[..IndexOf(s, c)]
    ensures IndexOf(s, c) < |s| <==> c in s
    ensures IndexOf(s, c) < |s| ==> s[IndexOf(s, c)] == c
  {
    if s != "" && s[0] != c {
      IndexOfFound(s[1..], c);
      assert s == [s[0]] + s[1..];
      assert s[..IndexOf(s, c)] == [s[0]] + s[1..][..IndexOf(s[1..], c)];
    }
  }

  // --------------------------------------------------------------------- Split, Join

  /** strings.Split for a one-character separator. */
  function Split(s: string, sep: char): (r: seq<string>)
    ensures |r| >= 1
    decreases |s|
  {
    var n := IndexOf(s, sep);
    if n == |s| then [s] else [s[..n]] + Split(s[n + 1..], sep)
  }

  lemma {:induction false} SplitPieces(s: string, sep: char)
    ensures forall i :: 0 <= i < |Split(s, sep)| ==> sep !in Split(s, sep)[i]
    decreases |s|
  {
    var n := IndexOf(s, sep);
    IndexOfFound(s, sep);
    if n < |s| {
      SplitPieces(s[n + 1..], sep);
    }
  }

  /** strings.Join for a one-character separator. */
  function Join(lines: seq<string>, sep: char): string {
    if lines == [] then ""
    else if |lines| == 1 then lines[0]
    else lines[0] + [sep] + Join(lines[1..], sep)
  }

  lemma SplitFirst(a: string, b: string, sep: char)
    requires sep !in a
    ensures Split(a + [sep] + b, sep) == [a] + Split(b, sep)
  {
    var s := a + [sep] + b;
    IndexOfFirst(a, b, sep);
    assert s[..|a|] == a && s[|a| + 1..] == b;
  }

  lemma RegroupSep<T>(x: seq<T>, sep: T, rest: seq<T>, b: seq<T>)
    ensures x + [sep] + rest + [sep] + b == x + [sep] + (rest + [sep] + b)
  {
  }

  lemma RegroupFirst<T>(x: T, a: seq<T>, b: seq<T>)
    ensures [x] + a + b == [x] + (a + b)
  {
  }

  lemma {:induction false} SplitConcat(a: string, b: string, sep: char)
    ensures Split(a + [sep] + b, sep) == Split(a, sep) + Split(b, sep)
    decreases |a|
  {
    var n := IndexOf(a, sep);
    IndexOfFound(a, sep);
    if n == |a| {
      SplitFirst(a, b, sep);
    } else {
      var first, rest := a[..n], a[n + 1..];
      SplitConcat(rest, b, sep);
      assert a == first + [sep] + rest;
      RegroupSep(first, sep, rest, b);
      SplitFirst(first, rest + [sep] + b, sep);
      RegroupFirst(first, Split(rest, sep), Split(b, sep));
    }
  }

  lemma SplitPlain(s: string, sep: char)
    requires sep !in s
    ensures Split(s, sep) == [s]
  {
    IndexOfFound(s, sep);
  }

  /** Splitting a joined text gives its lines back. */
  lemma {:induction false} SplitJoin(lines: seq<string>, sep: char)
    requires lines != [] && forall i :: 0 <= i < |lines| ==> sep !in lines[i]
    ensures Split(Join(lines, sep), sep) == lines
  {
    if |lines| == 1 {
      SplitPlain(lines[0], sep);
    } else {
      SplitJoin(lines[1..], sep);
      SplitFirst(lines[0], Join(lines[1..], sep), sep);
    }
  }

  lemma CutFirst(line: string, rest: string, o: nat, sep: char)
    requires sep !in line && o <= |line|
    ensures Split((line + [sep] + rest)[o..], sep) == [line[o..]] + Split(rest, sep)
  {
    assert sep !in line[o..];
    assert (line + [sep] + rest)[o..] == line[o..] + [sep] + rest;
    SplitFirst(line[o..], rest, sep);
  }

  /** The lines from number k on, the first without its first c characters. */
  function LinesFrom(lines: seq<string>, k: nat, c: nat): seq<string>
    requires k < |lines| && c <= |lines[k]|
  {
    [lines[k][c..]] + lines[k + 1..]
  }

  lemma DropMore<T>(s: seq<T>, i: nat, k: nat)
    requires i + k <= |s|
    ensures s[i..][k..] == s[i + k..]
  {
  }

  lemma CutOut<T>(s: seq<T>, k: nat)
    requires k < |s|
    ensures s == s[..k] + [s[k]] + s[k + 1..]
  {
  }

  /** What cutting off o characters leaves of the lines: from character c of line k on. */
  ghost predicate CutTo(s: string, o: nat, sep: char, k: nat, c: nat)
    requires o <= |s|
  {
    && k < |Split(s, sep)| && c <= |Split(s, sep)[k]|
    && Split(s[o..], sep) == LinesFrom(Split(s, sep), k, c)
    && (o > 0 ==> k > 0 || c > 0)
  }

  lemma CutLast(s: string, o: nat, sep: char)
    requires o <= |s| && sep !in s
    ensures CutTo(s, o, sep, 0, o)
  {
    SplitPlain(s, sep);
    SplitPlain(s[o..], sep);
  }

  lemma CutHere(first: string, rest: string, o: nat, sep: char)
    requires sep !in first && o <= |first|
    ensures CutTo(first + [sep] + rest, o, sep, 0, o)
  {
    SplitFirst(first, rest, sep);
    CutFirst(first, rest, o, sep);
  }

  lemma CutLater(first: string, rest: string, o: nat, sep: char, k: nat, c: nat)
    requires sep !in first && o <= |rest| && CutTo(rest, o, sep, k, c)
    ensures CutTo(first + [sep] + rest, |first| + 1 + o, sep, k + 1, c)
  {
    SplitFirst(first, rest, sep);
    assert (first + [sep] + rest)[|first| + 1 + o..] == rest[o..];
    LinesFromTail([first], Split(rest, sep), k, c);
  }

  /** Cutting off the front of a text leaves the end of one line and all lines after it. */
  lemma {:induction false} CutLines(s: string, o: nat, sep: char) returns (k: nat, c: nat)
    requires o <= |s|
    ensures CutTo(s, o, sep, k, c)
    decreases |s|
  {
    var n := IndexOf(s, sep);
    IndexOfFound(s, sep);
    if n == |s| {
      k, c := 0, o;
      CutLast(s, o, sep);
    } else {
      var first, rest := s[..n], s[n + 1..];
      CutOut(s, n);
      if o <= n {
        k, c := 0, o;
        CutHere(first, rest, o, sep);
      } else {
        k, c := CutLines(rest, o - n - 1, sep);
        CutLater(first, rest, o - n - 1, sep, k, c);
        k := k + 1;
      }
    }
  }

  lemma LinesFromTail(first: seq<string>, lines: seq<string>, k: nat, c: nat)
    requires |first| == 1 && k < |lines| && c <= |lines[k]|
    ensures LinesFrom(first + lines, k + 1, c) == LinesFrom(lines, k, c)
  {
  }

  /** Joining the pieces of a text gives it back. */
  lemma {:induction false} JoinSplit(s: string, sep: char)
    ensures Join(Split(s, sep), sep) == s
    decreases |s|
  {
    var n := IndexOf(s, sep);
    if n < |s| {
      JoinSplit(s[n + 1..], sep);
      IndexOfFound(s, sep);
      assert Split(s, sep)[1..] == Split(s[n + 1..], sep);
    }
  }

  // ------------------------------------------------------------------------ TrimSpace

  function TrimLeft(s: string): (r: string)
    ensures |r| <= |s|
  {
    if s != "" && IsSpace(s[0]) then TrimLeft(s[1..]) else s
  }

  function TrimRight(s: string): string {
    if s != "" && IsSpace(s[|s| - 1]) then TrimRight(s[..|s| - 1]) else s
  }

  function TrimSpace(s: string): string {
    TrimRight(TrimLeft(s))
  }

  /** Text that starts and ends with a non-space character. */
  predicate Tight(s: string) {
    s != "" && !IsSpace(s[0]) && !IsSpace(s[|s| - 1])
  }

  lemma TrimTight(s: string)
    requires Tight(s)
    ensures TrimSpace(s) == s && TrimSpace(" " + s) == s
  {
    assert (" " + s)[1..] == s;
  }

  predicate Blank(s: string) {
    TrimSpace(s) == ""
  }

  predicate White(s: string) {
    forall i :: 0 <= i < |s| ==> IsSpace(s[i])
  }

  lemma {:induction false} TrimLeftIs(a: string, core: string)
    requires White(a) && (core == "" || !IsSpace(core[0]))
    ensures TrimLeft(a + core) == core
  {
    if a == "" {
      assert a + core == core;
    } else {
      TrimLeftIs(a[1..], core);
      assert (a + core)[1..] == a[1..] + core;
    }
  }

  lemma {:induction false} TrimRightIs(core: string, b: string)
    requires White(b) && (core == "" || !IsSpace(core[|core| - 1]))
    ensures TrimRight(core + b) == core
  {
    if b == "" {
      assert core + b == core;
    } else {
      TrimRightIs(core, b[..|b| - 1]);
      assert (core + b)[..|core + b| - 1] == core + b[..|b| - 1];
    }
  }

  /** Trimming takes the white space off both ends ... */
  lemma TrimIs(a: string, core: string, b: string)
    requires White(a) && White(b) && Tight(core)
    ensures TrimSpace(a + core + b) == core
  {
    assert a + core + b == a + (core + b);
    TrimLeftIs(a, core + b);
    TrimRightIs(core, b);
  }

  lemma TrimWhite(s: string)
    requires White(s)
    ensures TrimSpace(s) == ""
  {
    TrimLeftIs(s, "");
    assert s + "" == s;
  }

  lemma {:induction false} TrimLeftCut(s: string) returns (a: string)
    ensures White(a) && s == a + TrimLeft(s) && (TrimLeft(s) == "" || !IsSpace(TrimLeft(s)[0]))
  {
    a := "";
    if s != "" && IsSpace(s[0]) {
      var rest := TrimLeftCut(s[1..]);
      a := [s[0]] + rest;
      assert s == [s[0]] + s[1..];
    }
  }

  lemma {:induction false} TrimRightCut(s: string) returns (b: string)
    ensures White(b) && s == TrimRight(s) + b && (TrimRight(s) == "" || !IsSpace(TrimRight(s)[|TrimRight(s)| - 1]))
  {
    b := "";
    if s != "" && IsSpace(s[|s| - 1]) {
      var rest := TrimRightCut(s[..|s| - 1]);
      b := rest + [s[|s| - 1]];
      assert s == s[..|s| - 1] + [s[|s| - 1]];
    }
  }

  /** ... and nothing else: what is left has none at its ends, or nothing is left of white space. */
  lemma TrimCut(s: string) returns (a: string, b: string)
    ensures White(a) && White(b) && s == a + TrimSpace(s) + b
    ensures TrimSpace(s) == "" || Tight(TrimSpace(s))
  {
    a := TrimLeftCut(s);
    b := TrimRightCut(TrimLeft(s));
    CutsMeet(a, TrimLeft(s), TrimSpace(s), b);
  }

  lemma CutsMeet(a: string, left: string, core: string, b: string)
    requires left == core + b && (left == "" || !IsSpace(left[0]))
    requires core == "" || !IsSpace(core[|core| - 1])
    ensures a + left == a + core + b && (core == "" || Tight(core))
  {
    assert core != "" ==> core[0] == left[0];
  }

  /** White space at the end does not matter. */
  lemma TrimMore(s: string, b: string)
    requires White(b)
    ensures TrimSpace(s + b) == TrimSpace(s)
  {
    var c, d := TrimCut(s);
    var core := TrimSpace(s);
    if core == "" {
      assert s == c + d;
      TrimWhite(s + b);
    } else {
      assert s + b == c + core + (d + b);
      TrimIs(c, core, d + b);
    }
  }

  // --------------------------------------------------------------------------- Fields

  function WordLen(s: string): (n: nat)
    ensures n <= |s|
  {
    if s == "" || IsSpace(s[0]) then 0 else 1 + WordLen(s[1..])
  }

  /** strings.Fields */
  function Fields(s: string): seq<string>
    decreases |s|
  {
    if s == "" then []
    else if IsSpace(s[0]) then Fields(s[1..])
    else
      var n := WordLen(s);
      [s[..n]] + Fields(s[n..])
  }

  /** A word: non-empty and free of white space. */
  predicate Word(w: string) {
    w != "" && forall i :: 0 <= i < |w| ==> !IsSpace(w[i])
  }

  lemma {:induction false} WordLenWord(s: string)
    requires s != "" && !IsSpace(s[0])
    ensures Word(s[..WordLen(s)])
    ensures WordLen(s) < |s| ==> IsSpace(s[WordLen(s)])
  {
    if |s| > 1 && !IsSpace(s[1]) {
      WordLenWord(s[1..]);
      assert s[..WordLen(s)] == [s[0]] + s[1..][..WordLen(s[1..])];
    } else {
      assert WordLen(s) == 1;
    }
  }

  lemma {:induction false} FieldsAreWords(s: string)
    ensures forall i :: 0 <= i < |Fields(s)| ==> Word(Fields(s)[i])
    decreases |s|
  {
    if s != "" {
      if IsSpace(s[0]) {
        FieldsAreWords(s[1..]);
      } else {
        WordLenWord(s);
        FieldsAreWords(s[WordLen(s)..]);
      }
    }
  }

  lemma {:induction false} WordLenExact(w: string, t: string)
    requires Word(w) && (t == "" || IsSpace(t[0]))
    ensures WordLen(w + t) == |w|
  {
    if |w| > 1 {
      WordLenExact(w[1..], t);
      assert (w + t)[1..] == w[1..] + t;
    } else {
      assert (w + t)[1..] == t;
    }
  }

  lemma {:induction false} FieldsWhite(a: string, s: string)
    requires White(a)
    ensures Fields(a + s) == Fields(s)
  {
    if a == "" {
      assert a + s == s;
    } else {
      FieldsWhite(a[1..], s);
      assert (a + s)[1..] == a[1..] + s;
    }
  }

  /** The words of a text are its longest stretches without white space, in order: its first word and those of the rest ... */
  lemma FieldsCons(a: string, w: string, t: string)
    requires White(a) && Word(w) && (t == "" || IsSpace(t[0]))
    ensures Fields(a + w + t) == [w] + Fields(t)
  {
    assert a + w + t == a + (w + t);
    FieldsWhite(a, w + t);
    WordLenExact(w, t);
    assert (w + t)[..|w|] == w && (w + t)[|w|..] == t;
  }

  /** ... and none in white space. */
  lemma FieldsNone(a: string)
    requires White(a)
    ensures Fields(a) == []
  {
    FieldsWhite(a, "");
    assert a + "" == a;
  }

  lemma {:induction false} FirstWord(s: string) returns (a: string, w: string, t: string)
    requires !White(s)
    ensures White(a) && Word(w) && (t == "" || IsSpace(t[0])) && s == a + w + t
    decreases |s|
  {
    if IsSpace(s[0]) {
      assert s == [s[0]] + s[1..];
      a, w, t := FirstWord(s[1..]);
      a := [s[0]] + a;
    } else {
      WordLenWord(s);
      a, w, t := "", s[..WordLen(s)], s[WordLen(s)..];
    }
  }

  /** White space at the end adds no word. */
  lemma {:induction false} FieldsMore(s: string, b: string)
    requires White(b)
    ensures Fields(s + b) == Fields(s)
    decreases |s|
  {
    if White(s) {
      FieldsNone(s);
      FieldsNone(s + b);
    } else {
      var a, w, t := FirstWord(s);
      assert s + b == a + w + (t + b);
      FieldsCons(a, w, t);
      FieldsCons(a, w, t + b);
      FieldsMore(t, b);
    }
  }

  /** strings.Contains */
  predicate Contains(s: string, t: string) {
    exists i :: 0 <= i <= |s| && t <= s[i..]
  }

  function LowerChar(c: char): char {
    if 'A' <= c <= 'Z' then c - 'A' + 'a' else c
  }

  function UpperChar(c: char): char {
    if 'a' <= c <= 'z' then c - 'a' + 'A' else c
  }

  function ToLower(s: string): (r: string)
    ensures |r| == |s| && forall i :: 0 <= i < |s| ==> r[i] == LowerChar(s[i])
  {
    seq(|s|, i requires 0 <= i < |s| => LowerChar(s[i]))
  }

  function ToUpper(s: string): (r: string)
    ensures |r| == |s| && forall i :: 0 <= i < |s| ==> r[i] == UpperChar(s[i])
  {
    seq(|s|, i requires 0 <= i < |s| => UpperChar(s[i]))
  }
}
