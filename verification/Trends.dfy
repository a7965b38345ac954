/** The aggregate statistics over a time window: totals, time buckets, hosts and jobs. */
module Trends {
  import opened Wrappers
  import opened Ordered
  import opened Islands
  import opened Executions

  const MICROS: int := 1_000_000

  /** COUNT(*) FILTER (WHERE p) */
  function CountIf<T>(rows: seq<T>, p: T -> bool): nat {
    if rows == [] then 0 else CountIf(rows[..|rows| - 1], p) + if p(rows[|rows| - 1]) then 1 else 0
  }

  /** WHERE created_at >= since AND status != 'running' */
  predicate InWindow(e: Execution, since: Time) {
    e.createdAt >= since && e.status != Running
  }

  function WindowTotal(table: seq<Execution>, since: Time): nat {
    CountIf(table, (e: Execution) => InWindow(e, since))
  }

  /** The start of the bucket of width seconds that holds time t. */
  function Bucket(t: Time, width: int): Time
    requires width > 0
  {
    t / (width * MICROS) * (width * MICROS)
  }

  datatype TrendPoint = TrendPoint(bucket: Time, total: nat, success: nat, failed: nat, unknown: nat)

  predicate InBucket(e: Execution, since: Time, width: int, b: Time)
    requires width > 0
  {
    InWindow(e, since) && Bucket(e.createdAt, width) == b
  }

  function BucketCount(table: seq<Execution>, since: Time, width: int, b: Time, statuses: set<Status>): nat
    requires width > 0
  {
    CountIf(table, (e: Execution) => InBucket(e, since, width, b) && e.status in statuses)
  }

  function BucketTotal(table: seq<Execution>, since: Time, width: int, b: Time): nat
    requires width > 0
  {
    CountIf(table, (e: Execution) => InBucket(e, since, width, b))
  }

  function PointOf(table: seq<Execution>, since: Time, width: int, b: Time): TrendPoint
    requires width > 0
  {
    TrendPoint(
      b,
      BucketTotal(table, since, width, b),
      BucketCount(table, since, width, b, {Success}),
      BucketCount(table, since, width, b, {Failed}),
      BucketCount(table, since, width, b, {Unknown, Partial}))
  }

  ghost function Buckets(table: seq<Execution>, since: Time, width: int): set<Time>
    requires width > 0
  {
    set i | 0 <= i < |table| && InWindow(table[i], since) :: Bucket(table[i].createdAt, width)
  }

  ghost function PointsOf(table: seq<Execution>, since: Time, width: int, bs: seq<Time>): (r: seq<TrendPoint>)
    requires width > 0
    ensures |r| == |bs| && forall i :: 0 <= i < |bs| ==> r[i] == PointOf(table, since, width, bs[i])
  {
    seq(|bs|, i requires 0 <= i < |bs| => PointOf(table, since, width, bs[i]))
  }

  /** GetFailureTrend: one point per bucket that has rows, in time order. */
  ghost function FailureTrend(table: seq<Execution>, since: Time, width: int): seq<TrendPoint>
    requires width > 0
  {
    PointsOf(table, since, width, Sorted(Buckets(table, since, width)))
  }

  // ------------------------------------------------------------- groups add up

  lemma {:induction false} CountSplit<T>(rows: seq<T>, p: T -> bool, q: T -> bool, both: T -> bool)
    requires forall i :: 0 <= i < |rows| ==> (both(rows[i]) <==> p(rows[i]) || q(rows[i])) && !(p(rows[i]) && q(rows[i]))
    ensures CountIf(rows, both) == CountIf(rows, p) + CountIf(rows, q)
  {
    if rows != [] {
      CountSplit(rows[..|rows| - 1], p, q, both);
    }
  }

  lemma {:induction false} CountSame<T>(rows: seq<T>, p: T -> bool, q: T -> bool)
    requires forall i :: 0 <= i < |rows| ==> (p(rows[i]) <==> q(rows[i]))
    ensures CountIf(rows, p) == CountIf(rows, q)
  {
    if rows != [] {
      CountSame(rows[..|rows| - 1], p, q);
    }
  }

  lemma {:induction false} CountNone<T>(rows: seq<T>, p: T -> bool)
    requires forall i :: 0 <= i < |rows| ==> !p(rows[i])
    ensures CountIf(rows, p) == 0
  {
    if rows != [] {
      CountNone(rows[..|rows| - 1], p);
    }
  }

  predicate Distinct<T(==)>(s: seq<T>) {
    forall i, j :: 0 <= i < j < |s| ==> s[i] != s[j]
  }

  function GroupCount<T, K(==)>(rows: seq<T>, p: T -> bool, key: T -> K, k: K): nat {
    CountIf(rows, r => p(r) && key(r) == k)
  }

  /** SUM over groups of the group's COUNT(*). */
  ghost function SumCounts<T, K>(rows: seq<T>, p: T -> bool, key: T -> K, ks: seq<K>): nat {
    if ks == [] then 0
    else
      var k := ks[|ks| - 1];
      SumCounts(rows, p, key, ks[..|ks| - 1]) + GroupCount(rows, p, key, k)
  }

  lemma SumCountsSnoc<T, K>(rows: seq<T>, p: T -> bool, key: T -> K, ks: seq<K>)
    requires ks != []
    ensures var n := |ks| - 1;
            SumCounts(rows, p, key, ks) == SumCounts(rows, p, key, ks[..n]) + GroupCount(rows, p, key, ks[n])
  {
  }

  lemma CountsGroup<T, K>(rows: seq<T>, p: T -> bool, key: T -> K, k: K, q: T -> bool)
    requires forall i :: 0 <= i < |rows| ==> (q(rows[i]) <==> p(rows[i]) && key(rows[i]) == k)
    ensures CountIf(rows, q) == GroupCount(rows, p, key, k)
  {
    CountSame(rows, q, r => p(r) && key(r) == k);
  }

  lemma {:induction false} SumCountsIn<T, K>(rows: seq<T>, p: T -> bool, key: T -> K, ks: seq<K>)
    requires Distinct(ks)
    ensures SumCounts(rows, p, key, ks) == CountIf(rows, r => p(r) && key(r) in ks)
  {
    if ks == [] {
      CountNone(rows, r => p(r) && key(r) in ks);
    } else {
      var n := |ks| - 1;
      var k, front := ks[n], ks[..n];
      SumCountsIn(rows, p, key, front);
      assert ks == front + [k];
      assert k !in front;
      CountSplit(rows, r => p(r) && key(r) in front, r => p(r) && key(r) == k, r => p(r) && key(r) in ks);
    }
  }

  /** Grouping loses and duplicates no row: the group totals add up to the total. */
  lemma GroupsAddUp<T, K>(rows: seq<T>, p: T -> bool, key: T -> K, ks: seq<K>)
    requires Distinct(ks)
    requires forall i :: 0 <= i < |rows| && p(rows[i]) ==> key(rows[i]) in ks
    ensures SumCounts(rows, p, key, ks) == CountIf(rows, p)
  {
    SumCountsIn(rows, p, key, ks);
    CountSame(rows, r => p(r) && key(r) in ks, p);
  }

  /** GROUP BY key: ks lists, in the order of the result, the keys of the rows in question, each once. */
  ghost predicate GroupedBy<T, K>(rows: seq<T>, p: T -> bool, key: T -> K, ks: seq<K>) {
    && Distinct(ks)
    && (forall i :: 0 <= i < |rows| && p(rows[i]) ==> key(rows[i]) in ks)
    && forall k :: 0 <= k < |ks| ==> HasRow(rows, p, key, ks[k])
  }

  ghost predicate HasRow<T, K>(rows: seq<T>, p: T -> bool, key: T -> K, k: K) {
    exists i :: 0 <= i < |rows| && p(rows[i]) && key(rows[i]) == k
  }

  /** ORDER BY failed DESC, total DESC */
  predicate NotBelow(failed: nat, total: nat, otherFailed: nat, otherTotal: nat) {
    failed > otherFailed || (failed == otherFailed && total >= otherTotal)
  }

  // -------------------------------------------------------------------- buckets

  ghost function TotalOfPoints(ps: seq<TrendPoint>): nat {
    if ps == [] then 0 else TotalOfPoints(ps[..|ps| - 1]) + ps[|ps| - 1].total
  }

  lemma BucketBounds(t: Time, width: int)
    requires width > 0
    ensures Bucket(t, width) <= t < Bucket(t, width) + width * MICROS
  {
    var w := width * MICROS;
    assert t == t / w * w + t % w;
  }

  lemma BucketUnique(t: Time, width: int, b: Time, c: int)
    requires width > 0 && b == c * (width * MICROS) && b <= t < b + width * MICROS
    ensures b == Bucket(t, width)
  {
    var w := width * MICROS;
    var d := t / w;
    assert t == d * w + t % w;
    if c < d {
      Scaled(c + 1, d, w);
    } else if c > d {
      Scaled(d + 1, c, w);
    }
  }

  lemma Scaled(a: int, b: int, w: int)
    requires a <= b && w > 0
    ensures a * w <= b * w
  {
  }

  predicate Spans(p: TrendPoint, t: Time, width: int) {
    p.bucket <= t < p.bucket + width * MICROS
  }

  /**
   Each execution of the window lies in exactly one reported bucket, the one whose
   span [b, b + width) holds its time.
   */
  lemma OneBucketEach(table: seq<Execution>, since: Time, width: int, i: nat)
    requires width > 0 && i < |table| && InWindow(table[i], since)
    ensures var ps := FailureTrend(table, since, width); var t := table[i].createdAt;
            && (exists k :: 0 <= k < |ps| && Spans(ps[k], t, width))
            && (forall k, l :: 0 <= k < |ps| && 0 <= l < |ps| && Spans(ps[k], t, width) && Spans(ps[l], t, width) ==> k == l)
  {
    var bs := Sorted(Buckets(table, since, width));
    var ps := FailureTrend(table, since, width);
    var t := table[i].createdAt;
    var k := SortedHas(Buckets(table, since, width), Bucket(t, width));
    BucketBounds(t, width);
    assert Spans(ps[k], t, width);
    forall l | 0 <= l < |ps| && Spans(ps[l], t, width) ensures l == k {
      assert bs[l] in Buckets(table, since, width);
      var r :| 0 <= r < |table| && InWindow(table[r], since) && Bucket(table[r].createdAt, width) == bs[l];
      BucketUnique(t, width, bs[l], table[r].createdAt / (width * MICROS));
      assert bs[l] == bs[k];
    }
  }

  lemma {:induction false} PointsSum(table: seq<Execution>, since: Time, width: int, bs: seq<Time>)
    requires width > 0
    ensures TotalOfPoints(PointsOf(table, since, width, bs)) ==
              SumCounts(table, (e: Execution) => InWindow(e, since), (e: Execution) => Bucket(e.createdAt, width), bs)
  {
    if bs != [] {
      var n := |bs| - 1;
      var b := bs[n];
      PointsSum(table, since, width, bs[..n]);
      assert PointsOf(table, since, width, bs)[..n] == PointsOf(table, since, width, bs[..n]);
      BucketIsGroup(table, since, width, b,
        (e: Execution) => InWindow(e, since), (e: Execution) => Bucket(e.createdAt, width));
    }
  }

  lemma BucketIsGroup(table: seq<Execution>, since: Time, width: int, b: Time, p: Execution -> bool, key: Execution -> int)
    requires width > 0
    requires forall e :: p(e) == InWindow(e, since) && key(e) == Bucket(e.createdAt, width)
    ensures BucketTotal(table, since, width, b) == GroupCount(table, p, key, b)
  {
    CountsGroup(table, p, key, b, (e: Execution) => InBucket(e, since, width, b));
  }

  /** The bucket totals add up to the window total. */
  lemma BucketsAddUp(table: seq<Execution>, since: Time, width: int)
    requires width > 0
    ensures TotalOfPoints(FailureTrend(table, since, width)) == WindowTotal(table, since)
  {
    var bs := Sorted(Buckets(table, since, width));
    var p, key := (e: Execution) => InWindow(e, since), (e: Execution) => Bucket(e.createdAt, width);
    PointsSum(table, since, width, bs);
    forall i | 0 <= i < |table| && p(table[i]) ensures key(table[i]) in bs {
      var k := SortedHas(Buckets(table, since, width), key(table[i]));
    }
    GroupsAddUp(table, p, key, bs);
  }

  /** COUNT(*) FILTER (WHERE status IN statuses) over the window. */
  function WindowCount(table: seq<Execution>, since: Time, statuses: set<Status>): nat {
    CountIf(table, (e: Execution) => InWindow(e, since) && e.status in statuses)
  }

  lemma WindowCountIs(table: seq<Execution>, since: Time, statuses: set<Status>, p: Execution -> bool)
    requires forall e :: p(e) == (InWindow(e, since) && e.status in statuses)
    ensures CountIf(table, p) == WindowCount(table, since, statuses)
  {
    CountSame(table, p, (e: Execution) => InWindow(e, since) && e.status in statuses);
  }

  lemma WindowSplit(table: seq<Execution>, since: Time, s: set<Status>, t: set<Status>)
    requires s !! t
    ensures WindowCount(table, since, s + t) == WindowCount(table, since, s) + WindowCount(table, since, t)
  {
    CountSplit(table,
      (e: Execution) => InWindow(e, since) && e.status in s,
      (e: Execution) => InWindow(e, since) && e.status in t,
      (e: Execution) => InWindow(e, since) && e.status in s + t);
  }

  /** GetWindowStats: its five counts make up its total, so every finished status is counted once. */
  lemma WindowAddsUp(table: seq<Execution>, since: Time)
    ensures WindowTotal(table, since) ==
              WindowCount(table, since, {Success}) + WindowCount(table, since, {Failed})
              + WindowCount(table, since, {Partial}) + WindowCount(table, since, {Unknown})
              + WindowCount(table, since, {Missed})
  {
    WindowSplit(table, since, {Success}, {Failed});
    WindowSplit(table, since, {Success} + {Failed}, {Partial});
    WindowSplit(table, since, {Success} + {Failed} + {Partial}, {Unknown});
    WindowSplit(table, since, {Success} + {Failed} + {Partial} + {Unknown}, {Missed});
    var all := {Success} + {Failed} + {Partial} + {Unknown} + {Missed};
    CountSame(table, (e: Execution) => InWindow(e, since), (e: Execution) => InWindow(e, since) && e.status in all);
  }

  /** What a bucket's total does not report as success, failed or unknown are its missed executions. */
  lemma RestIsMissed(table: seq<Execution>, since: Time, width: int, b: Time)
    requires width > 0
    ensures var p := PointOf(table, since, width, b);
            p.total - p.success - p.failed - p.unknown == BucketCount(table, since, width, b, {Missed})
  {
    BucketSplit(table, since, width, b, {Success}, {Failed});
    BucketSplit(table, since, width, b, {Success, Failed}, {Unknown, Partial});
    BucketSplit(table, since, width, b, {Success, Failed, Unknown, Partial}, {Missed});
    assert {Success} + {Failed} == {Success, Failed};
    assert {Success, Failed} + {Unknown, Partial} == {Success, Failed, Unknown, Partial};
    var all := {Success, Failed, Unknown, Partial} + {Missed};
    CountSame(table, (e: Execution) => InBucket(e, since, width, b),
              (e: Execution) => InBucket(e, since, width, b) && e.status in all);
  }

  lemma BucketSplit(table: seq<Execution>, since: Time, width: int, b: Time, s: set<Status>, t: set<Status>)
    requires width > 0 && s !! t
    ensures BucketCount(table, since, width, b, s + t) ==
              BucketCount(table, since, width, b, s) + BucketCount(table, since, width, b, t)
  {
    CountSplit(table,
      (e: Execution) => InBucket(e, since, width, b) && e.status in s,
      (e: Execution) => InBucket(e, since, width, b) && e.status in t,
      (e: Execution) => InBucket(e, since, width, b) && e.status in s + t);
  }

  // ---------------------------------------------------------------- hosts and jobs

  datatype HostLine = HostLine(host: HostId, total: nat, failed: nat)

  function HostLineOf(table: seq<Execution>, since: Time, host: HostId): HostLine {
    HostLine(
      host,
      CountIf(table, (e: Execution) => InWindow(e, since) && e.host == host),
      CountIf(table, (e: Execution) => InWindow(e, since) && e.status == Failed && e.host == host))
  }

  function HostsOf(lines: seq<HostLine>): (hosts: seq<HostId>)
    ensures |hosts| == |lines| && forall i :: 0 <= i < |lines| ==> hosts[i] == lines[i].host
  {
    seq(|lines|, i requires 0 <= i < |lines| => lines[i].host)
  }

  /** A result of GetHostFailureCounts: one line for each host with rows, worst first; ties may come in any order. */
  ghost predicate IsHostResult(lines: seq<HostLine>, table: seq<Execution>, since: Time) {
    && GroupedBy(table, (e: Execution) => InWindow(e, since), (e: Execution) => e.host, HostsOf(lines))
    && (forall i :: 0 <= i < |lines| ==> lines[i] == HostLineOf(table, since, lines[i].host))
    && forall i, j :: 0 <= i < j < |lines| ==>
         NotBelow(lines[i].failed, lines[i].total, lines[j].failed, lines[j].total)
  }

  function HostTotals(lines: seq<HostLine>): nat {
    if lines == [] then 0 else HostTotals(lines[..|lines| - 1]) + lines[|lines| - 1].total
  }

  function HostFailures(lines: seq<HostLine>): nat {
    if lines == [] then 0 else HostFailures(lines[..|lines| - 1]) + lines[|lines| - 1].failed
  }

  lemma {:induction false} HostSums(lines: seq<HostLine>, table: seq<Execution>, since: Time,
      p: Execution -> bool, failed: Execution -> bool, key: Execution -> HostId)
    requires forall e :: p(e) == InWindow(e, since) && failed(e) == (p(e) && e.status == Failed) && key(e) == e.host
    requires forall i :: 0 <= i < |lines| ==> lines[i] == HostLineOf(table, since, lines[i].host)
    ensures HostTotals(lines) == SumCounts(table, p, key, HostsOf(lines))
    ensures HostFailures(lines) == SumCounts(table, failed, key, HostsOf(lines))
  {
    if lines != [] {
      var n := |lines| - 1;
      var h := lines[n].host;
      HostSums(lines[..n], table, since, p, failed, key);
      assert HostsOf(lines)[..n] == HostsOf(lines[..n]);
      CountsGroup(table, p, key, h, (e: Execution) => InWindow(e, since) && e.host == h);
      CountsGroup(table, failed, key, h, (e: Execution) => InWindow(e, since) && e.status == Failed && e.host == h);
    }
  }

  /** The totals and failures of the reported hosts add up to those of the window. */
  lemma HostsAddUp(lines: seq<HostLine>, table: seq<Execution>, since: Time)
    requires IsHostResult(lines, table, since)
    ensures HostTotals(lines) == WindowTotal(table, since)
    ensures HostFailures(lines) == WindowCount(table, since, {Failed})
  {
    var p, key := (e: Execution) => InWindow(e, since), (e: Execution) => e.host;
    var failed := (e: Execution) => InWindow(e, since) && e.status == Failed;
    HostSums(lines, table, since, p, failed, key);
    GroupsAddUp(table, p, key, HostsOf(lines));
    GroupsAddUp(table, failed, key, HostsOf(lines));
    WindowCountIs(table, since, {Failed}, failed);
  }

  datatype JobRow = JobRow(id: JobId, host: HostId)
  datatype StateRow = StateRow(job: JobId, consecutiveFail: nat)

  /** A row of executions JOIN jobs LEFT JOIN current_job_states. */
  datatype Joined = Joined(execution: Execution, job: JobRow, consecutiveFail: Option<nat>)

  predicate UniqueIds(jobs: seq<JobRow>) {
    forall i, j :: 0 <= i < j < |jobs| ==> jobs[i].id != jobs[j].id
  }

  predicate UniqueStates(states: seq<StateRow>) {
    forall i, j :: 0 <= i < j < |states| ==> states[i].job != states[j].job
  }

  function StatesOf(states: seq<StateRow>, job: JobId): seq<StateRow> {
    if states == [] then []
    else StatesOf(states[..|states| - 1], job) + if states[|states| - 1].job == job then [states[|states| - 1]] else []
  }

  function JobsOf(jobs: seq<JobRow>, job: Option<JobId>): seq<JobRow> {
    if jobs == [] then []
    else JobsOf(jobs[..|jobs| - 1], job) + if Some(jobs[|jobs| - 1].id) == job then [jobs[|jobs| - 1]] else []
  }

  function LeftJoin(e: Execution, j: JobRow, matching: seq<StateRow>): (r: seq<Joined>)
    ensures |r| == if matching == [] then 1 else |matching|
    ensures forall i :: 0 <= i < |r| ==> r[i].execution == e && r[i].job == j
  {
    if matching == [] then [Joined(e, j, None)]
    else seq(|matching|, i requires 0 <= i < |matching| => Joined(e, j, Some(matching[i].consecutiveFail)))
  }

  function JoinJobs(e: Execution, js: seq<JobRow>, states: seq<StateRow>): seq<Joined> {
    if js == [] then []
    else
      var j := js[|js| - 1];
      JoinJobs(e, js[..|js| - 1], states) + LeftJoin(e, j, StatesOf(states, j.id))
  }

  function Join(table: seq<Execution>, jobs: seq<JobRow>, states: seq<StateRow>): seq<Joined> {
    if table == [] then []
    else
      var e := table[|table| - 1];
      Join(table[..|table| - 1], jobs, states) + JoinJobs(e, JobsOf(jobs, e.job), states)
  }

  lemma {:induction false} AtMostOneState(states: seq<StateRow>, job: JobId)
    requires UniqueStates(states)
    ensures |StatesOf(states, job)| <= 1
    ensures StatesOf(states, job) != [] ==> exists i :: 0 <= i < |states| && states[i].job == job
  {
    if states != [] {
      AtMostOneState(states[..|states| - 1], job);
    }
  }

  lemma {:induction false} OneJob(jobs: seq<JobRow>, job: Option<JobId>)
    requires UniqueIds(jobs)
    ensures |JobsOf(jobs, job)| == if exists i :: 0 <= i < |jobs| && Some(jobs[i].id) == job then 1 else 0
    ensures JobsOf(jobs, job) != [] ==> Some(JobsOf(jobs, job)[0].id) == job
  {
    if jobs != [] {
      var n := |jobs| - 1;
      OneJob(jobs[..n], job);
      if i :| 0 <= i < |jobs| && Some(jobs[i].id) == job {
        assert i < n ==> Some(jobs[..n][i].id) == job;
      }
    }
  }

  /** Every execution with a job joins to exactly one row, and no other execution joins at all. */
  lemma JoinOne(e: Execution, jobs: seq<JobRow>, states: seq<StateRow>)
    requires UniqueIds(jobs) && UniqueStates(states)
    requires e.job.Some? ==> exists i :: 0 <= i < |jobs| && jobs[i].id == e.job.value
    ensures var r := JoinJobs(e, JobsOf(jobs, e.job), states);
            && |r| == (if e.job.Some? then 1 else 0)
            && forall i :: 0 <= i < |r| ==> r[i].execution == e && Some(r[i].job.id) == e.job
  {
    OneJob(jobs, e.job);
    var js := JobsOf(jobs, e.job);
    if e.job.Some? {
      var i :| 0 <= i < |jobs| && jobs[i].id == e.job.value;
      assert Some(jobs[i].id) == e.job;
      AtMostOneState(states, js[0].id);
      assert js[..0] == [];
    }
  }

  lemma {:induction false} CountConcat<T>(a: seq<T>, b: seq<T>, p: T -> bool)
    ensures CountIf(a + b, p) == CountIf(a, p) + CountIf(b, p)
  {
    if b == [] {
      assert a + b == a;
    } else {
      CountConcat(a, b[..|b| - 1], p);
      assert (a + b)[..|a + b| - 1] == a + b[..|b| - 1];
    }
  }

  /** Every execution's job exists. */
  ghost predicate JobsKnown(table: seq<Execution>, jobs: seq<JobRow>) {
    forall i :: 0 <= i < |table| && table[i].job.Some? ==> exists k :: 0 <= k < |jobs| && jobs[k].id == table[i].job.value
  }

  lemma {:induction false} JoinCounts(table: seq<Execution>, jobs: seq<JobRow>, states: seq<StateRow>,
      p: Joined -> bool, q: Execution -> bool)
    requires UniqueIds(jobs) && UniqueStates(states) && JobsKnown(table, jobs)
    requires forall r: Joined :: r.execution.job.Some? ==> p(r) == q(r.execution)
    requires forall e: Execution :: q(e) ==> e.job.Some?
    ensures CountIf(Join(table, jobs, states), p) == CountIf(table, q)
  {
    if table != [] {
      var n := |table| - 1;
      var e := table[n];
      var last := JoinJobs(e, JobsOf(jobs, e.job), states);
      JoinCounts(table[..n], jobs, states, p, q);
      JoinOne(e, jobs, states);
      CountConcat(Join(table[..n], jobs, states), last, p);
      if |last| == 1 {
        assert last[..0] == [];
      }
    }
  }

  /** The failure count the left join finds for a job, if any. */
  function FailCountOf(states: seq<StateRow>, job: JobId): Option<nat> {
    var matching := StatesOf(states, job);
    if matching == [] then None else Some(matching[0].consecutiveFail)
  }

  lemma {:induction false} JobsOfKnown(jobs: seq<JobRow>, job: Option<JobId>, i: nat)
    requires i < |JobsOf(jobs, job)|
    ensures JobsOf(jobs, job)[i] in jobs
  {
    if i < |JobsOf(jobs[..|jobs| - 1], job)| {
      JobsOfKnown(jobs[..|jobs| - 1], job, i);
    }
  }

  lemma JoinedRow(e: Execution, jobs: seq<JobRow>, states: seq<StateRow>, i: nat)
    requires UniqueIds(jobs) && UniqueStates(states)
    requires i < |JoinJobs(e, JobsOf(jobs, e.job), states)|
    ensures var r := JoinJobs(e, JobsOf(jobs, e.job), states)[i];
            r.job in jobs && r.consecutiveFail == FailCountOf(states, r.job.id)
  {
    var js := JobsOf(jobs, e.job);
    OneJob(jobs, e.job);
    assert js[..0] == [];
    JobsOfKnown(jobs, e.job, 0);
    AtMostOneState(states, js[0].id);
  }

  lemma {:induction false} JoinedRows(table: seq<Execution>, jobs: seq<JobRow>, states: seq<StateRow>, i: nat)
    requires UniqueIds(jobs) && UniqueStates(states) && i < |Join(table, jobs, states)|
    ensures var r := Join(table, jobs, states)[i];
            r.job in jobs && r.consecutiveFail == FailCountOf(states, r.job.id)
  {
    var n := |table| - 1;
    var front := Join(table[..n], jobs, states);
    if i < |front| {
      JoinedRows(table[..n], jobs, states, i);
    } else {
      JoinedRow(table[n], jobs, states, i - |front|);
    }
  }

  /** Rows of one job agree on host and failure count, so grouping by all three yields one line per job. */
  lemma OneLinePerJob(table: seq<Execution>, jobs: seq<JobRow>, states: seq<StateRow>, i: nat, k: nat)
    requires UniqueIds(jobs) && UniqueStates(states)
    requires i < |Join(table, jobs, states)| && k < |Join(table, jobs, states)|
    ensures var r, q := Join(table, jobs, states)[i], Join(table, jobs, states)[k];
            r.job.id == q.job.id ==> r.job.host == q.job.host && r.consecutiveFail == q.consecutiveFail
  {
    JoinedRows(table, jobs, states, i);
    JoinedRows(table, jobs, states, k);
  }

  /** GROUP BY e.job_id, j.host_id, cjs.consecutive_fail */
  datatype Group = Group(job: JobId, host: HostId, consecutiveFail: Option<nat>)

  function GroupOf(r: Joined): Group {
    Group(r.job.id, r.job.host, r.consecutiveFail)
  }

  datatype JobLine = JobLine(
    job: JobId,
    host: HostId,
    total: nat,
    success: nat,
    failed: nat,
    consecutiveFail: nat,
    lastRunAt: Time)

  function InGroup(rows: seq<Joined>, since: Time, g: Group, statuses: set<Status>): nat {
    CountIf(rows, (r: Joined) => InWindow(r.execution, since) && r.execution.status in statuses && GroupOf(r) == g)
  }

  const Finished: set<Status> := {Success, Failed, Unknown, Partial, Missed}

  ghost predicate IsJobLine(l: JobLine, rows: seq<Joined>, since: Time, g: Group) {
    && l.job == g.job && l.host == g.host
    && l.total == InGroup(rows, since, g, Finished)
    && l.success == InGroup(rows, since, g, {Success})
    && l.failed == InGroup(rows, since, g, {Failed})
    && l.consecutiveFail == (if g.consecutiveFail.Some? then g.consecutiveFail.value else 0)
    && (exists i :: 0 <= i < |rows| && LatestOf(rows[i], rows, since, g) && l.lastRunAt == rows[i].execution.createdAt)
  }

  /** MAX(e.created_at) of the group */
  ghost predicate LatestOf(r: Joined, rows: seq<Joined>, since: Time, g: Group) {
    && InWindow(r.execution, since) && GroupOf(r) == g
    && forall i :: 0 <= i < |rows| && InWindow(rows[i].execution, since) && GroupOf(rows[i]) == g ==>
         rows[i].execution.createdAt <= r.execution.createdAt
  }

  /** A result of GetJobSuccessRates over the joined rows: one line for each group, worst first. */
  ghost predicate IsJobResult(lines: seq<JobLine>, groups: seq<Group>, rows: seq<Joined>, since: Time) {
    && GroupedBy(rows, (r: Joined) => InWindow(r.execution, since), (r: Joined) => GroupOf(r), groups)
    && |lines| == |groups|
    && (forall i :: 0 <= i < |lines| ==> IsJobLine(lines[i], rows, since, groups[i]))
    && forall i, j :: 0 <= i < j < |lines| ==>
         NotBelow(lines[i].failed, lines[i].total, lines[j].failed, lines[j].total)
  }

  function JobTotals(lines: seq<JobLine>): nat {
    if lines == [] then 0 else JobTotals(lines[..|lines| - 1]) + lines[|lines| - 1].total
  }

  lemma JobLineCounts(l: JobLine, rows: seq<Joined>, since: Time, g: Group, p: Joined -> bool, key: Joined -> Group)
    requires IsJobLine(l, rows, since, g)
    requires forall r :: p(r) == InWindow(r.execution, since) && key(r) == GroupOf(r)
    ensures l.total == GroupCount(rows, p, key, g)
  {
    CountsGroup(rows, p, key, g,
      (r: Joined) => InWindow(r.execution, since) && r.execution.status in Finished && GroupOf(r) == g);
  }

  lemma {:induction false} JobSums(lines: seq<JobLine>, groups: seq<Group>, rows: seq<Joined>, since: Time,
      p: Joined -> bool, key: Joined -> Group)
    requires |lines| == |groups| && forall i :: 0 <= i < |lines| ==> IsJobLine(lines[i], rows, since, groups[i])
    requires forall r :: p(r) == InWindow(r.execution, since) && key(r) == GroupOf(r)
    ensures JobTotals(lines) == SumCounts(rows, p, key, groups)
  {
    if lines != [] {
      var n := |lines| - 1;
      JobSums(lines[..n], groups[..n], rows, since, p, key);
      JobLineCounts(lines[n], rows, since, groups[n], p, key);
      SumCountsSnoc(rows, p, key, groups);
    }
  }

  /** No two lines of a result are about the same job, although the grouping is by three columns. */
  lemma JobLinesDistinct(lines: seq<JobLine>, groups: seq<Group>, table: seq<Execution>, jobs: seq<JobRow>,
                         states: seq<StateRow>, since: Time, i: nat, j: nat)
    requires UniqueIds(jobs) && UniqueStates(states)
    requires IsJobResult(lines, groups, Join(table, jobs, states), since) && i < j < |lines|
    ensures lines[i].job != lines[j].job
  {
    var rows := Join(table, jobs, states);
    var p, key := (r: Joined) => InWindow(r.execution, since), (r: Joined) => GroupOf(r);
    assert HasRow(rows, p, key, groups[i]) && HasRow(rows, p, key, groups[j]);
    var k :| 0 <= k < |rows| && p(rows[k]) && key(rows[k]) == groups[i];
    var l :| 0 <= l < |rows| && p(rows[l]) && key(rows[l]) == groups[j];
    OneLinePerJob(table, jobs, states, k, l);
  }

  /** The joins never multiply rows: the totals of the reported jobs add up to the executions with a job. */
  lemma JobsAddUp(lines: seq<JobLine>, groups: seq<Group>, table: seq<Execution>, jobs: seq<JobRow>,
                  states: seq<StateRow>, since: Time)
    requires UniqueIds(jobs) && UniqueStates(states) && JobsKnown(table, jobs)
    requires IsJobResult(lines, groups, Join(table, jobs, states), since)
    ensures JobTotals(lines) == CountIf(table, (e: Execution) => InWindow(e, since) && e.job.Some?)
  {
    var rows := Join(table, jobs, states);
    var p, key := (r: Joined) => InWindow(r.execution, since), (r: Joined) => GroupOf(r);
    JobSums(lines, groups, rows, since, p, key);
    GroupsAddUp(rows, p, key, groups);
    JoinCounts(table, jobs, states, p, (e: Execution) => InWindow(e, since) && e.job.Some?);
  }
}
