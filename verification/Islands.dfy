/**
 The first half of the recovery report: the common table expressions
 `ordered_execs`, `islands` and `failure_islands` of GetJobRecoveryStats, which
 find the runs of bad executions by grouping on the difference of two row
 numbers, and the plain left-to-right scan they are equivalent to.

 Executions of one job have distinct creation times, so a job's history is a map
 from creation time to status.
 */
module Islands {
  import opened Ordered

  type Time = int

  datatype Status = Running | Success | Failed | Unknown | Partial | Missed

  type History = map<Time, Status>

  /** status IN ('failed','unknown','missed') */
  predicate IsBad(s: Status) {
    s == Failed || s == Unknown || s == Missed
  }

  // ---------------------------------------------------------------- ordered_execs

  /** ROW_NUMBER() OVER (PARTITION BY job_id ORDER BY created_at) */
  ghost function RowNumber(h: History, t: Time): nat {
    |set u | u in h && u <= t|
  }

  /** ROW_NUMBER() OVER (PARTITION BY job_id, is_bad ORDER BY created_at) */
  ghost function TypeRowNumber(h: History, t: Time): nat
    requires t in h
  {
    |set u | u in h && u <= t && IsBad(h[u]) == IsBad(h[t])|
  }

  // ---------------------------------------------------------------------- islands

  /** rn - type_rn */
  ghost function IslandId(h: History, t: Time): int
    requires t in h
  {
    RowNumber(h, t) - TypeRowNumber(h, t)
  }

  // -------------------------------------------------------------- failure_islands

  ghost function BadTimes(h: History): set<Time> {
    set t | t in h && IsBad(h[t])
  }

  ghost function IslandIds(h: History): set<int> {
    set t | t in BadTimes(h) :: IslandId(h, t)
  }

  /** The bad rows of one GROUP BY group. */
  ghost function Group(h: History, k: int): (g: set<Time>)
    ensures k in IslandIds(h) <==> g != {}
  {
    var g := set t | t in BadTimes(h) && IslandId(h, t) == k;
    assert k in IslandIds(h) ==> exists t :: t in g by {
      if k in IslandIds(h) {
        var t :| t in BadTimes(h) && IslandId(h, t) == k;
        assert t in g;
      }
    }
    g
  }

  /** A row of failure_islands: a run of bad executions. */
  datatype Island = Island(start: Time, end: Time, count: nat)

  ghost function FailureIsland(h: History, k: int): Island
    requires k in IslandIds(h)
  {
    var g := Group(h, k);
    Island(Min(g), Max(g), |g|)
  }

  /** All rows of failure_islands, in order of island id. */
  ghost function FailureIslands(h: History): seq<Island> {
    IslandsOf(h, Sorted(IslandIds(h)))
  }

  ghost function IslandsOf(h: History, ks: seq<int>): seq<Island>
    requires forall i :: 0 <= i < |ks| ==> ks[i] in IslandIds(h)
  {
    if ks == [] then [] else IslandsOf(h, ks[..|ks| - 1]) + [FailureIsland(h, ks[|ks| - 1])]
  }

  // ------------------------------------------------------------ reference: a scan

  ghost predicate Within(ts: seq<Time>, h: History) {
    forall i :: 0 <= i < |ts| ==> ts[i] in h
  }

  /** The same runs by one pass over the executions in time order. */
  ghost function Runs(h: History, ts: seq<Time>): (r: seq<Island>)
    requires Within(ts, h)
    ensures ts != [] && IsBad(h[ts[|ts| - 1]]) ==> r != [] && r[|r| - 1].end == ts[|ts| - 1]
  {
    if ts == [] then []
    else
      var n := |ts| - 1;
      var t, rest := ts[n], ts[..n];
      var r := Runs(h, rest);
      if !IsBad(h[t]) then r
      else if n > 0 && IsBad(h[ts[n - 1]]) then
        var last := r[|r| - 1];
        r[..|r| - 1] + [Island(last.start, t, last.count + 1)]
      else r + [Island(t, t, 1)]
  }

  // ----------------------------------------------------- why the difference works

  /** rn - type_rn of a bad row counts the rows before it that are not bad. */
  lemma IslandIdCountsGood(h: History, t: Time)
    requires t in h && IsBad(h[t])
    ensures IslandId(h, t) == |set u | u in h && u <= t && !IsBad(h[u])|
  {
    var all := set u | u in h && u <= t;
    var bad := set u | u in h && u <= t && IsBad(h[u]) == IsBad(h[t]);
    var good := set u | u in h && u <= t && !IsBad(h[u]);
    assert all == bad + good && bad !! good;
  }

  /**
   Two bad rows fall in the same group exactly when every row between them is
   bad; ids grow with time. So the groups are the maximal runs.
   */
  lemma SameIslandIffNoGap(h: History, t: Time, u: Time)
    requires t in h && IsBad(h[t])
    requires u in h && IsBad(h[u])
    requires t <= u
    ensures IslandId(h, t) <= IslandId(h, u)
    ensures IslandId(h, t) == IslandId(h, u) <==> forall v :: v in h && t <= v <= u ==> IsBad(h[v])
  {
    IslandIdCountsGood(h, t);
    IslandIdCountsGood(h, u);
    var before := set v | v in h && v <= t && !IsBad(h[v]);
    var upTo := set v | v in h && v <= u && !IsBad(h[v]);
    SubsetCard(before, upTo);
    if forall v :: v in h && t <= v <= u ==> IsBad(h[v]) {
      assert before == upTo;
    } else {
      var v :| v in h && t <= v <= u && !IsBad(h[v]);
      assert v in upTo && v !in before;
    }
  }

  // -------------------------------------------------- the groups are the scanned runs

  /** Row numbers look only backwards: a later row changes no earlier island id. */
  lemma LaterRowKeepsIds(h: History, m: Time, t: Time)
    requires m in h && t in h && t < m
    ensures IslandId(h - {m}, t) == IslandId(h, t)
  {
    var h' := h - {m};
    assert (set u | u in h' && u <= t) == (set u | u in h && u <= t);
    assert (set u | u in h' && u <= t && IsBad(h'[u]) == IsBad(h'[t]))
        == (set u | u in h && u <= t && IsBad(h[u]) == IsBad(h[t]));
  }

  ghost predicate IsLast(h: History, m: Time) {
    m in h && forall t :: t in h ==> t <= m
  }

  /** A good last row adds no island and changes none. */
  lemma GoodRowAddsNothing(h: History, m: Time)
    requires IsLast(h, m) && !IsBad(h[m])
    ensures FailureIslands(h) == FailureIslands(h - {m})
  {
    var h' := h - {m};
    assert BadTimes(h) == BadTimes(h');
    forall t | t in BadTimes(h) ensures IslandId(h', t) == IslandId(h, t) { LaterRowKeepsIds(h, m, t); }
    assert IslandIds(h) == IslandIds(h') by { SameImages(h, h'); }
    forall k | k in IslandIds(h) ensures FailureIsland(h, k) == FailureIsland(h', k) {
      assert Group(h, k) == Group(h', k);
    }
    SameIslands(h, h', Sorted(IslandIds(h)));
  }

  lemma SameIslands(h: History, h': History, ks: seq<int>)
    requires forall i :: 0 <= i < |ks| ==> ks[i] in IslandIds(h) && ks[i] in IslandIds(h')
    requires forall i :: 0 <= i < |ks| ==> FailureIsland(h, ks[i]) == FailureIsland(h', ks[i])
    ensures IslandsOf(h, ks) == IslandsOf(h', ks)
  {
    if ks != [] {
      SameIslands(h, h', ks[..|ks| - 1]);
    }
  }

  lemma IslandsSnoc(h: History, ks: seq<int>, k: int)
    requires k in IslandIds(h) && forall i :: 0 <= i < |ks| ==> ks[i] in IslandIds(h)
    ensures IslandsOf(h, ks + [k]) == IslandsOf(h, ks) + [FailureIsland(h, k)]
  {
    assert (ks + [k])[..|ks|] == ks;
  }

  lemma SameImages(h: History, h': History)
    requires BadTimes(h) == BadTimes(h')
    requires forall t :: t in BadTimes(h) ==> IslandId(h', t) == IslandId(h, t)
    ensures IslandIds(h) == IslandIds(h')
  {
    forall k ensures k in IslandIds(h) <==> k in IslandIds(h') {
      if k in IslandIds(h) {
        var t :| t in BadTimes(h) && IslandId(h, t) == k;
        assert t in BadTimes(h') && IslandId(h', t) == k;
      }
      if k in IslandIds(h') {
        var t :| t in BadTimes(h') && IslandId(h', t) == k;
        assert t in BadTimes(h) && IslandId(h, t) == k;
      }
    }
  }

  /** How a bad last row m, with island id k, changes ids and groups. */
  lemma BadRowJoins(h: History, m: Time)
    requires IsLast(h, m) && IsBad(h[m])
    ensures var h' := h - {m}; var k := IslandId(h, m);
            && IslandIds(h) == IslandIds(h') + {k}
            && (forall j :: j in IslandIds(h') ==> j <= k)
            && (forall j :: Group(h, j) == if j == k then Group(h', j) + {m} else Group(h', j))
  {
    var h' := h - {m};
    var k := IslandId(h, m);
    assert BadTimes(h) == BadTimes(h') + {m};
    forall t | t in BadTimes(h') ensures IslandId(h', t) == IslandId(h, t) && IslandId(h, t) <= k {
      LaterRowKeepsIds(h, m, t);
      SameIslandIffNoGap(h, t, m);
    }
    forall j ensures Group(h, j) == if j == k then Group(h', j) + {m} else Group(h', j) {
    }
    forall j ensures j in IslandIds(h) <==> j in IslandIds(h') + {k} {
      assert j in IslandIds(h) <==> Group(h, j) != {};
      assert j in IslandIds(h') <==> Group(h', j) != {};
    }
    forall j | j in IslandIds(h') ensures j <= k {
      var t :| t in BadTimes(h') && IslandId(h', t) == j;
    }
  }

  /** A bad last row m changes no island but its own. */
  lemma OtherIslandsKept(h: History, m: Time, j: int)
    requires IsLast(h, m) && IsBad(h[m])
    requires j in IslandIds(h - {m}) && j != IslandId(h, m)
    ensures j in IslandIds(h) && FailureIsland(h, j) == FailureIsland(h - {m}, j)
  {
    BadRowJoins(h, m);
    assert Group(h, j) == Group(h - {m}, j);
  }

  lemma OldIslandsKept(h: History, m: Time, ks: seq<int>)
    requires IsLast(h, m) && IsBad(h[m])
    requires forall i :: 0 <= i < |ks| ==> ks[i] in IslandIds(h - {m}) && ks[i] != IslandId(h, m)
    ensures forall i :: 0 <= i < |ks| ==> ks[i] in IslandIds(h)
    ensures IslandsOf(h, ks) == IslandsOf(h - {m}, ks)
  {
    forall i | 0 <= i < |ks| ensures ks[i] in IslandIds(h) && FailureIsland(h, ks[i]) == FailureIsland(h - {m}, ks[i]) {
      OtherIslandsKept(h, m, ks[i]);
    }
    SameIslands(h, h - {m}, ks);
  }

  /** A bad last row m that follows a bad row p belongs to the newest island. */
  lemma JoinsNewest(h: History, m: Time, p: Time)
    requires IsLast(h, m) && IsBad(h[m])
    requires IsLast(h - {m}, p) && IsBad(h[p])
    ensures p in Group(h - {m}, IslandId(h, m))
  {
    SameIslandIffNoGap(h, p, m);
    LaterRowKeepsIds(h, m, p);
    assert forall v :: v in h ==> v == m || v in h - {m};
  }

  lemma ExtendedGroup(h: History, m: Time, p: Time)
    requires IsLast(h, m) && IsBad(h[m])
    requires IsLast(h - {m}, p) && IsBad(h[p])
    ensures var h' := h - {m}; var k := IslandId(h, m);
            && k in IslandIds(h') && IslandIds(h) == IslandIds(h')
            && (forall j :: j in IslandIds(h') ==> j <= k)
            && FailureIsland(h, k) == Island(FailureIsland(h', k).start, m, FailureIsland(h', k).count + 1)
  {
    var h' := h - {m};
    var k := IslandId(h, m);
    BadRowJoins(h, m);
    JoinsNewest(h, m, p);
    var g, g' := Group(h, k), Group(h', k);
    GrownSet(g', m);
    assert m !in g';
    assert IslandIds(h) == IslandIds(h');
  }

  lemma GrownSet(g: set<int>, m: int)
    requires g != {} && m !in g && forall x :: x in g ==> x <= m
    ensures Min(g + {m}) == Min(g) && Max(g + {m}) == m && |g + {m}| == |g| + 1
  {
  }

  /** A bad last row after a bad row p lengthens the newest island by one. */
  lemma BadRowExtends(h: History, m: Time, p: Time)
    requires IsLast(h, m) && IsBad(h[m])
    requires IsLast(h - {m}, p) && IsBad(h[p])
    ensures var was := FailureIslands(h - {m});
            && was != []
            && var last := was[|was| - 1];
               FailureIslands(h) == was[..|was| - 1] + [Island(last.start, m, last.count + 1)]
  {
    var h' := h - {m};
    var k := IslandId(h, m);
    ExtendedGroup(h, m, p);
    SortedLast(IslandIds(h'), k);
    var ks := Sorted(IslandIds(h'));
    var others := ks[..|ks| - 1];
    OldIslandsKept(h, m, others);
    assert ks == others + [k];
    IslandsSnoc(h, others, k);
    IslandsSnoc(h', others, k);
  }

  /** A bad last row m with no bad row right before it is an island of its own. */
  lemma OpenedGroup(h: History, m: Time)
    requires IsLast(h, m) && IsBad(h[m])
    requires h - {m} == map[] || exists p :: IsLast(h - {m}, p) && !IsBad(h[p])
    ensures var k := IslandId(h, m);
            && IslandIds(h) == IslandIds(h - {m}) + {k}
            && (forall j :: j in IslandIds(h - {m}) ==> j < k)
            && FailureIsland(h, k) == Island(m, m, 1)
  {
    var h' := h - {m};
    var k := IslandId(h, m);
    BadRowJoins(h, m);
    forall t | t in BadTimes(h') ensures IslandId(h', t) < k {
      var p :| IsLast(h', p) && !IsBad(h[p]);
      SameIslandIffNoGap(h, t, m);
      LaterRowKeepsIds(h, m, t);
      assert p in h && t <= p <= m;
    }
    assert Group(h', k) == {};
    assert Group(h, k) == {m};
    assert Min({m}) == m && Max({m}) == m;
  }

  /** A bad last row with no bad row right before it opens a new island. */
  lemma BadRowOpens(h: History, m: Time)
    requires IsLast(h, m) && IsBad(h[m])
    requires h - {m} == map[] || exists p :: IsLast(h - {m}, p) && !IsBad(h[p])
    ensures FailureIslands(h) == FailureIslands(h - {m}) + [Island(m, m, 1)]
  {
    var h' := h - {m};
    var k := IslandId(h, m);
    OpenedGroup(h, m);
    SortedSnoc(IslandIds(h'), k);
    var ks := Sorted(IslandIds(h'));
    OldIslandsKept(h, m, ks);
    IslandsSnoc(h, ks, k);
  }

  /** The keys of a history in order, split at the last one. */
  lemma SortedSplit(h: History)
    requires h != map[]
    ensures var ts := Sorted(h.Keys); var n := |ts| - 1;
            n >= 0 && IsLast(h, ts[n]) && Sorted((h - {ts[n]}).Keys) == ts[..n]
  {
    assert h.Keys != {};
    var m := Max(h.Keys);
    var rest := h.Keys - {m};
    assert rest + {m} == h.Keys;
    assert (h - {m}).Keys == rest;
    SortedSnoc(rest, m);
    assert IsLast(h, m);
  }

  lemma SortedEmpty(h: History)
    ensures h == map[] <==> Sorted(h.Keys) == []
  {
    assert h == map[] <==> h.Keys == {};
    assert |h.Keys| == 0 <==> h.Keys == {};
  }

  /**
   Grouping bad rows by rn - type_rn yields exactly the runs that a one-pass scan
   finds, with the same start, end and count, in the same order.
   */
  lemma {:induction false} IslandsAreRuns(h: History)
    ensures Within(Sorted(h.Keys), h)
    ensures FailureIslands(h) == Runs(h, Sorted(h.Keys))
    decreases |h.Keys|
  {
    var ts := Sorted(h.Keys);
    assert Within(ts, h) by {
      forall i | 0 <= i < |ts| ensures ts[i] in h { assert ts[i] in h.Keys; }
    }
    SortedEmpty(h);
    if h == map[] {
      assert IslandIds(h) == {};
    } else {
      SortedSplit(h);
      var n := |ts| - 1;
      var h' := h - {ts[n]};
      assert h'.Keys == h.Keys - {ts[n]};
      IslandsAreRuns(h');
      RunsRestrict(h, h', ts[..n]);
      LastRowStep(h, ts);
    }
  }

  /** One step of the scan does to the runs what the last row does to the islands. */
  lemma LastRowStep(h: History, ts: seq<Time>)
    requires ts == Sorted(h.Keys) && Within(ts, h) && ts != []
    requires IsLast(h, ts[|ts| - 1])
    requires Sorted((h - {ts[|ts| - 1]}).Keys) == ts[..|ts| - 1]
    requires FailureIslands(h - {ts[|ts| - 1]}) == Runs(h, ts[..|ts| - 1])
    ensures FailureIslands(h) == Runs(h, ts)
  {
    var n := |ts| - 1;
    var m, h' := ts[n], h - {ts[n]};
    SortedEmpty(h');
    if h' != map[] {
      SortedSplit(h');
    }
    if !IsBad(h[m]) {
      GoodRowAddsNothing(h, m);
    } else if n > 0 && IsBad(h[ts[n - 1]]) {
      BadRowExtends(h, m, ts[n - 1]);
    } else {
      BadRowOpens(h, m);
    }
  }

  /** The scan reads only the statuses at the times it is given. */
  lemma {:induction false} RunsRestrict(h: History, h': History, ts: seq<Time>)
    requires Within(ts, h) && Within(ts, h')
    requires forall i :: 0 <= i < |ts| ==> h[ts[i]] == h'[ts[i]]
    ensures Runs(h, ts) == Runs(h', ts)
  {
    if ts != [] {
      RunsRestrict(h, h', ts[..|ts| - 1]);
    }
  }

  // ------------------------------------------------------------------ consequences

  ghost function CountSum(r: seq<Island>): nat {
    if r == [] then 0 else CountSum(r[..|r| - 1]) + r[|r| - 1].count
  }

  ghost function BadAmong(h: History, ts: seq<Time>): set<Time>
    requires Within(ts, h)
  {
    set i | 0 <= i < |ts| && IsBad(h[ts[i]]) :: ts[i]
  }

  /** The scanned runs together hold every bad execution once. */
  lemma {:induction false} RunsCoverBadRows(h: History, ts: seq<Time>)
    requires Within(ts, h) && Increasing(ts)
    ensures CountSum(Runs(h, ts)) == |BadAmong(h, ts)|
  {
    if ts != [] {
      var n := |ts| - 1;
      RunsCoverBadRows(h, ts[..n]);
      BadAmongSnoc(h, ts);
      var r, r' := Runs(h, ts), Runs(h, ts[..n]);
      if IsBad(h[ts[n]]) {
        assert r[..|r| - 1] == if n > 0 && IsBad(h[ts[n - 1]]) then r'[..|r'| - 1] else r';
      }
    }
  }

  lemma BadAmongSnoc(h: History, ts: seq<Time>)
    requires Within(ts, h) && Increasing(ts) && ts != []
    ensures var n := |ts| - 1;
            |BadAmong(h, ts)| == |BadAmong(h, ts[..n])| + if IsBad(h[ts[n]]) then 1 else 0
  {
    var n := |ts| - 1;
    var before := BadAmong(h, ts[..n]);
    assert ts[n] !in before;
    if IsBad(h[ts[n]]) {
      assert BadAmong(h, ts) == before + {ts[n]};
    } else {
      assert BadAmong(h, ts) == before;
    }
  }

  lemma BadAmongAll(h: History)
    ensures Within(Sorted(h.Keys), h) && BadAmong(h, Sorted(h.Keys)) == BadTimes(h)
  {
    IslandsAreRuns(h);
    forall t | t in BadTimes(h) ensures t in BadAmong(h, Sorted(h.Keys)) {
      var i := SortedHas(h.Keys, t);
    }
  }

  /** The failure counts of a job's islands add up to all its bad executions. */
  lemma CountsCoverBadRows(h: History)
    ensures CountSum(FailureIslands(h)) == |BadTimes(h)|
  {
    IslandsAreRuns(h);
    RunsCoverBadRows(h, Sorted(h.Keys));
    BadAmongAll(h);
  }
}
