/** Cutting a sequence into stretches that each begin at a marked element. */
module Grouping {
  import opened Wrappers

  /** The stretches of s, each from one start element up to the next. */
  function Groups<T>(start: T -> bool, s: seq<T>): seq<seq<T>> {
    if s == [] then []
    else if start(s[0]) then GroupsFrom(start, [s[0]], s[1..])
    else Groups(start, s[1..])
  }

  /** The same, inside a stretch whose elements so far are cur. */
  function GroupsFrom<T>(start: T -> bool, cur: seq<T>, rest: seq<T>): seq<seq<T>>
    decreases |rest|
  {
    if rest == [] then [cur]
    else if start(rest[0]) then [cur] + GroupsFrom(start, [rest[0]], rest[1..])
    else GroupsFrom(start, cur + [rest[0]], rest[1..])
  }

  function ToSeq<M>(o: Option<M>): seq<M> {
    if o.Some? then [o.value] else []
  }

  /** The results of f on the elements that have one. */
  function FlatMap<G, M>(f: G -> Option<M>, gs: seq<G>): seq<M> {
    if gs == [] then [] else ToSeq(f(gs[0])) + FlatMap(f, gs[1..])
  }

  function Flatten<T>(gs: seq<seq<T>>): seq<T> {
    if gs == [] then [] else gs[0] + Flatten(gs[1..])
  }

  /** How many elements precede the first start. */
  function Skipped<T>(start: T -> bool, s: seq<T>): (n: nat)
    ensures n <= |s|
    ensures forall i :: 0 <= i < n ==> !start(s[i])
    ensures n < |s| ==> start(s[n])
  {
    if s == [] || start(s[0]) then 0 else 1 + Skipped(start, s[1..])
  }

  ghost predicate IsGroup<T>(start: T -> bool, g: seq<T>) {
    g != [] && start(g[0]) && forall i :: 1 <= i < |g| ==> !start(g[i])
  }

  /** The stretches are exactly the cut of s, after its first start, at its start elements. */
  lemma {:induction false} GroupsCut<T>(start: T -> bool, s: seq<T>)
    ensures Flatten(Groups(start, s)) == s[Skipped(start, s)..]
    ensures forall i :: 0 <= i < |Groups(start, s)| ==> IsGroup(start, Groups(start, s)[i])
  {
    if s != [] {
      if start(s[0]) {
        GroupsFromCut(start, [s[0]], s[1..]);
      } else {
        GroupsCut(start, s[1..]);
      }
    }
  }

  lemma {:induction false} GroupsFromCut<T>(start: T -> bool, cur: seq<T>, rest: seq<T>)
    requires IsGroup(start, cur)
    ensures Flatten(GroupsFrom(start, cur, rest)) == cur + rest
    ensures forall i :: 0 <= i < |GroupsFrom(start, cur, rest)| ==> IsGroup(start, GroupsFrom(start, cur, rest)[i])
    decreases |rest|
  {
    if rest != [] {
      if start(rest[0]) {
        GroupsFromCut(start, [rest[0]], rest[1..]);
        assert GroupsFrom(start, cur, rest)[1..] == GroupsFrom(start, [rest[0]], rest[1..]);
      } else {
        GroupsFromCut(start, cur + [rest[0]], rest[1..]);
      }
    }
  }

  lemma {:induction false} GroupsConcat<T>(start: T -> bool, a: seq<T>, b: seq<T>)
    requires b != [] && start(b[0])
    ensures Groups(start, a + b) == Groups(start, a) + Groups(start, b)
  {
    if a == [] {
      assert a + b == b;
    } else {
      assert (a + b)[1..] == a[1..] + b;
      if start(a[0]) {
        GroupsFromConcat(start, [a[0]], a[1..], b);
      } else {
        GroupsConcat(start, a[1..], b);
      }
    }
  }

  lemma {:induction false} GroupsFromConcat<T>(start: T -> bool, cur: seq<T>, a: seq<T>, b: seq<T>)
    requires b != [] && start(b[0])
    ensures GroupsFrom(start, cur, a + b) == GroupsFrom(start, cur, a) + Groups(start, b)
    decreases |a|
  {
    if a == [] {
      assert a + b == b;
    } else {
      assert (a + b)[1..] == a[1..] + b;
      if start(a[0]) {
        GroupsFromConcat(start, [a[0]], a[1..], b);
      } else {
        GroupsFromConcat(start, cur + [a[0]], a[1..], b);
      }
    }
  }

  lemma {:induction false} FlatMapConcat<G, M>(f: G -> Option<M>, a: seq<G>, b: seq<G>)
    ensures FlatMap(f, a + b) == FlatMap(f, a) + FlatMap(f, b)
  {
    if a == [] {
      assert a + b == b;
    } else {
      FlatMapConcat(f, a[1..], b);
      assert (a + b)[0] == a[0] && (a + b)[1..] == a[1..] + b;
      Associative(ToSeq(f(a[0])), FlatMap(f, a[1..]), FlatMap(f, b));
    }
  }

  /** An element that f ignores at the end of a stretch is ignored at the end of the sequence. */
  lemma {:induction false} FlatMapTrailing<T(!new), M>(start: T -> bool, f: seq<T> -> Option<M>, s: seq<T>, x: T)
    requires !start(x) && forall g :: g != [] ==> f(g + [x]) == f(g)
    ensures FlatMap(f, Groups(start, s + [x])) == FlatMap(f, Groups(start, s))
  {
    if s == [] {
      assert (s + [x])[1..] == [];
    } else {
      assert (s + [x])[1..] == s[1..] + [x];
      if start(s[0]) {
        FlatMapTrailingFrom(start, f, [s[0]], s[1..], x);
      } else {
        FlatMapTrailing(start, f, s[1..], x);
      }
    }
  }

  lemma {:induction false} FlatMapTrailingFrom<T(!new), M>(
    start: T -> bool, f: seq<T> -> Option<M>, cur: seq<T>, rest: seq<T>, x: T)
    requires cur != []
    requires !start(x) && forall g :: g != [] ==> f(g + [x]) == f(g)
    ensures FlatMap(f, GroupsFrom(start, cur, rest + [x])) == FlatMap(f, GroupsFrom(start, cur, rest))
    decreases |rest|
  {
    if rest == [] {
      assert (rest + [x])[1..] == [];
      assert f(cur + [x]) == f(cur);
    } else {
      assert (rest + [x])[1..] == rest[1..] + [x];
      if start(rest[0]) {
        FlatMapTrailingFrom(start, f, [rest[0]], rest[1..], x);
        var more, less := GroupsFrom(start, [rest[0]], rest[1..] + [x]), GroupsFrom(start, [rest[0]], rest[1..]);
        assert ([cur] + more)[1..] == more && ([cur] + less)[1..] == less;
      } else {
        FlatMapTrailingFrom(start, f, cur + [rest[0]], rest[1..], x);
      }
    }
  }

  /** What the stretches of s build, one result from each stretch that builds any. */
  function Results<T, M>(start: T -> bool, build: seq<T> -> Option<M>, s: seq<T>): seq<M> {
    FlatMap(build, Groups(start, s))
  }

  /** Some stretch has this result. */
  ghost predicate Yields<G, M(!new)>(f: G -> Option<M>, gs: seq<G>, m: M) {
    exists i :: 0 <= i < |gs| && f(gs[i]) == Some(m)
  }

  lemma {:induction false} FlatMapHas<G, M(!new)>(f: G -> Option<M>, gs: seq<G>, m: M)
    ensures m in FlatMap(f, gs) <==> Yields(f, gs, m)
  {
    if gs != [] {
      FlatMapHas(f, gs[1..], m);
      assert m in ToSeq(f(gs[0])) <==> f(gs[0]) == Some(m);
      if i :| 0 <= i < |gs[1..]| && f(gs[1..][i]) == Some(m) {
        assert f(gs[i + 1]) == Some(m);
      }
      if i :| 0 <= i < |gs| && f(gs[i]) == Some(m) {
        assert i > 0 ==> gs[1..][i - 1] == gs[i];
      }
    }
  }

  /** The results are those of the stretches that have one. */
  lemma ResultsFrom<T, M(!new)>(start: T -> bool, build: seq<T> -> Option<M>, s: seq<T>, m: M)
    ensures m in Results(start, build, s) <==> Yields(build, Groups(start, s), m)
  {
    FlatMapHas(build, Groups(start, s), m);
  }

  method AddResult<T, M>(build: seq<T> -> Option<M>, current: seq<T>, done: seq<M>) returns (results: seq<M>)
    ensures results == done + ToSeq(build(current))
  {
    results := done;
    var r := build(current);
    if r.Some? {
      results := results + [r.value];
    }
  }

  /** The accumulating loop that cuts and builds in one pass. */
  method BuildGroups<T, M>(start: T -> bool, build: seq<T> -> Option<M>, s: seq<T>) returns (results: seq<M>)
    ensures results == Results(start, build, s)
  {
    results := [];
    var current: seq<T> := [];
    var inGroup := false;
    ghost var all := FlatMap(build, Groups(start, s));
    assert s[0..] == s;
    for i := 0 to |s|
      invariant all == results + FlatMap(build, Ahead(start, inGroup, current, s[i..]))
    {
      AheadStep(start, build, inGroup, current, s[i..], results);
      assert s[i..][0] == s[i] && s[i..][1..] == s[i + 1..];
      if start(s[i]) {
        if inGroup {
          results := AddResult(build, current, results);
        }
        current := [s[i]];
        inGroup := true;
      } else if inGroup {
        current := current + [s[i]];
      }
    }
    assert s[|s|..] == [];
    AheadEnd(start, build, inGroup, current, results);
    if inGroup {
      results := AddResult(build, current, results);
    }
  }

  /** The stretches still to be built when the loop is inside cur or before the first start. */
  ghost function Ahead<T>(start: T -> bool, inGroup: bool, cur: seq<T>, rest: seq<T>): seq<seq<T>> {
    if inGroup then GroupsFrom(start, cur, rest) else Groups(start, rest)
  }

  lemma AheadStep<T, M>(
    start: T -> bool, f: seq<T> -> Option<M>, inGroup: bool, cur: seq<T>, rest: seq<T>, done: seq<M>)
    requires rest != []
    ensures var more := Ahead(start, true, [rest[0]], rest[1..]);
            done + FlatMap(f, Ahead(start, inGroup, cur, rest)) ==
              if start(rest[0]) then (if inGroup then done + ToSeq(f(cur)) else done) + FlatMap(f, more)
              else done + FlatMap(f, Ahead(start, inGroup, if inGroup then cur + [rest[0]] else cur, rest[1..]))
  {
    var more := Ahead(start, true, [rest[0]], rest[1..]);
    if start(rest[0]) && inGroup {
      assert ([cur] + more)[0] == cur && ([cur] + more)[1..] == more;
      Associative(done, ToSeq(f(cur)), FlatMap(f, more));
    }
  }

  lemma AheadEnd<T, M>(start: T -> bool, f: seq<T> -> Option<M>, inGroup: bool, cur: seq<T>, done: seq<M>)
    ensures done + FlatMap(f, Ahead(start, inGroup, cur, [])) == if inGroup then done + ToSeq(f(cur)) else done
  {
    assert [cur][1..] == [];
  }

  /** Results of a sequence cut at a start element are those of its two parts. */
  lemma ResultsConcat<T, M>(start: T -> bool, build: seq<T> -> Option<M>, a: seq<T>, b: seq<T>)
    requires b != [] && start(b[0])
    ensures Results(start, build, a + b) == Results(start, build, a) + Results(start, build, b)
  {
    GroupsConcat(start, a, b);
    FlatMapConcat(build, Groups(start, a), Groups(start, b));
  }

  /** An element that changes no stretch at its end changes no result at the end. */
  lemma ResultsTrailing<T(!new), M>(start: T -> bool, build: seq<T> -> Option<M>, s: seq<T>, x: T)
    requires !start(x) && forall g :: g != [] ==> build(g + [x]) == build(g)
    ensures Results(start, build, s + [x]) == Results(start, build, s)
  {
    FlatMapTrailing(start, build, s, x);
  }

  /** Without a start element nothing is built. */
  lemma {:induction false} NoGroup<T>(start: T -> bool, s: seq<T>)
    requires forall i :: 0 <= i < |s| ==> !start(s[i])
    ensures Groups(start, s) == []
  {
    if s != [] {
      NoGroup(start, s[1..]);
    }
  }

  lemma NoResult<T, M>(start: T -> bool, build: seq<T> -> Option<M>, s: seq<T>)
    requires forall i :: 0 <= i < |s| ==> !start(s[i])
    ensures Results(start, build, s) == []
  {
    NoGroup(start, s);
  }

  lemma {:induction false} SingleGroup<T>(start: T -> bool, cur: seq<T>, rest: seq<T>)
    requires forall i :: 0 <= i < |rest| ==> !start(rest[i])
    ensures GroupsFrom(start, cur, rest) == [cur + rest]
    decreases |rest|
  {
    if rest == [] {
      assert cur + rest == cur;
    } else {
      SingleGroup(start, cur + [rest[0]], rest[1..]);
      assert cur + [rest[0]] + rest[1..] == cur + rest;
    }
  }

  lemma SingleResult<T, M>(start: T -> bool, build: seq<T> -> Option<M>, s: seq<T>)
    requires IsGroup(start, s) && build(s).Some?
    ensures Results(start, build, s) == [build(s).value]
  {
    SingleGroup(start, [s[0]], s[1..]);
    assert [s[0]] + s[1..] == s;
    assert Groups(start, s) == [s];
    assert FlatMap(build, [s]) == ToSeq(build(s)) + FlatMap(build, [s][1..]);
  }
}
