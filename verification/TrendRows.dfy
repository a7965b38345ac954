/** What the aggregate statistics say of single executions: each number counts rows of the table. */
module TrendRows {
  import opened Wrappers
  import opened Ordered
  import opened Islands
  import opened Executions
  import opened Trends

  /** The executions that finished, and were recorded since, with one of the statuses. */
  ghost function Since(table: seq<Execution>, since: Time, statuses: set<Status>): set<nat> {
    set i: nat | i < |table| && table[i].createdAt >= since && table[i].status != Running && table[i].status in statuses
  }

  ghost function OfHost(table: seq<Execution>, rows: set<nat>, host: HostId): set<nat> {
    set i | i in rows && i < |table| && table[i].host == host
  }

  ghost function OfJob(table: seq<Execution>, rows: set<nat>, job: JobId): set<nat> {
    set i | i in rows && i < |table| && table[i].job == Some(job)
  }

  /** Those recorded from time b on and before the time width seconds later. */
  ghost function Between(table: seq<Execution>, rows: set<nat>, b: Time, width: int): set<nat> {
    set i | i in rows && i < |table| && b <= table[i].createdAt < b + width * 1_000_000
  }

  const Every: set<Status> := {Success, Failed, Unknown, Partial, Missed, Running}

  // ------------------------------------------------------------------ counts are sets

  ghost function Holding<T>(rows: seq<T>, p: T -> bool): set<nat> {
    set i: nat | i < |rows| && p(rows[i])
  }

  lemma {:induction false} CountsHolding<T>(rows: seq<T>, p: T -> bool)
    ensures CountIf(rows, p) == |Holding(rows, p)|
  {
    if rows == [] {
      assert Holding(rows, p) == {};
    } else {
      var n := |rows| - 1;
      CountsHolding(rows[..n], p);
      assert Holding(rows, p) == Holding(rows[..n], p) + if p(rows[n]) then {n} else {};
    }
  }

  lemma CountsSet<T>(rows: seq<T>, p: T -> bool, s: set<nat>)
    requires forall i: nat :: i in s <==> i < |rows| && p(rows[i])
    ensures CountIf(rows, p) == |s|
  {
    CountsHolding(rows, p);
    assert s == Holding(rows, p);
  }

  // --------------------------------------------------------------------- the window

  /** A window counts the executions recorded at or after its start that are not running. */
  lemma WindowMeaning(table: seq<Execution>, since: Time, statuses: set<Status>)
    ensures WindowTotal(table, since) == |Since(table, since, Every)|
    ensures WindowCount(table, since, statuses) == |Since(table, since, statuses)|
  {
    CountsSet(table, (e: Execution) => InWindow(e, since), Since(table, since, Every));
    CountsSet(table, (e: Execution) => InWindow(e, since) && e.status in statuses, Since(table, since, statuses));
  }

  // -------------------------------------------------------------------- the buckets

  lemma InSpan(t: Time, width: int, c: int)
    requires width > 0
    ensures Bucket(t, width) == c * (width * MICROS) <==> c * (width * MICROS) <= t < c * (width * MICROS) + width * MICROS
  {
    var b := c * (width * MICROS);
    BucketBounds(t, width);
    if b <= t < b + width * MICROS {
      BucketUnique(t, width, b, c);
    }
  }

  lemma BucketRows(table: seq<Execution>, since: Time, width: int, c: int, statuses: set<Status>)
    requires width > 0
    ensures var b := c * (width * MICROS);
            && BucketTotal(table, since, width, b) == |Between(table, Since(table, since, Every), b, width)|
            && BucketCount(table, since, width, b, statuses) == |Between(table, Since(table, since, statuses), b, width)|
  {
    var b := c * (width * MICROS);
    forall i: nat | i < |table|
      ensures Bucket(table[i].createdAt, width) == b <==> b <= table[i].createdAt < b + width * MICROS
    {
      InSpan(table[i].createdAt, width, c);
    }
    CountsSet(table, (e: Execution) => InBucket(e, since, width, b), Between(table, Since(table, since, Every), b, width));
    CountsSet(table, (e: Execution) => InBucket(e, since, width, b) && e.status in statuses,
              Between(table, Since(table, since, statuses), b, width));
  }

  /** Each number of a reported point counts the executions of its status in its span. */
  lemma PointMeaning(table: seq<Execution>, since: Time, width: int, k: nat)
    requires width > 0 && k < |FailureTrend(table, since, width)|
    ensures var p := FailureTrend(table, since, width)[k];
            && p.total == |Between(table, Since(table, since, Every), p.bucket, width)| > 0
            && p.success == |Between(table, Since(table, since, {Success}), p.bucket, width)|
            && p.failed == |Between(table, Since(table, since, {Failed}), p.bucket, width)|
            && p.unknown == |Between(table, Since(table, since, {Unknown, Partial}), p.bucket, width)|
  {
    var bs := Buckets(table, since, width);
    var b := Sorted(bs)[k];
    assert b in bs;
    var i :| 0 <= i < |table| && InWindow(table[i], since) && Bucket(table[i].createdAt, width) == b;
    var c := table[i].createdAt / (width * MICROS);
    BucketRows(table, since, width, c, {Success});
    BucketRows(table, since, width, c, {Failed});
    BucketRows(table, since, width, c, {Unknown, Partial});
    BucketBounds(table[i].createdAt, width);
    assert i in Between(table, Since(table, since, Every), b, width);
  }

  /** The sum of a column of the reported points. */
  ghost function Column(ps: seq<TrendPoint>, of: TrendPoint -> int): int {
    if ps == [] then 0 else Column(ps[..|ps| - 1], of) + of(ps[|ps| - 1])
  }

  lemma {:induction false} ColumnSum(table: seq<Execution>, since: Time, width: int, bs: seq<Time>, statuses: set<Status>,
      of: TrendPoint -> int, p: Execution -> bool, key: Execution -> int)
    requires width > 0
    requires forall b :: of(PointOf(table, since, width, b)) == BucketCount(table, since, width, b, statuses)
    requires forall e :: p(e) == (InWindow(e, since) && e.status in statuses) && key(e) == Bucket(e.createdAt, width)
    ensures Column(PointsOf(table, since, width, bs), of) == SumCounts(table, p, key, bs)
  {
    if bs != [] {
      var n := |bs| - 1;
      var b := bs[n];
      ColumnSum(table, since, width, bs[..n], statuses, of, p, key);
      assert PointsOf(table, since, width, bs)[..n] == PointsOf(table, since, width, bs[..n]);
      CountsGroup(table, p, key, b, (e: Execution) => InBucket(e, since, width, b) && e.status in statuses);
      SumCountsSnoc(table, p, key, bs);
    }
  }

  lemma ColumnAddsUp(table: seq<Execution>, since: Time, width: int, statuses: set<Status>, of: TrendPoint -> int)
    requires width > 0
    requires forall b :: of(PointOf(table, since, width, b)) == BucketCount(table, since, width, b, statuses)
    ensures Column(FailureTrend(table, since, width), of) == |Since(table, since, statuses)|
  {
    var buckets := Buckets(table, since, width);
    var p, key := (e: Execution) => InWindow(e, since) && e.status in statuses, (e: Execution) => Bucket(e.createdAt, width);
    ColumnSum(table, since, width, Sorted(buckets), statuses, of, p, key);
    forall i | 0 <= i < |table| && p(table[i]) ensures key(table[i]) in Sorted(buckets) {
      var k := SortedHas(buckets, key(table[i]));
    }
    GroupsAddUp(table, p, key, Sorted(buckets));
    CountsSet(table, p, Since(table, since, statuses));
  }

  /** Every column of the buckets adds up to the executions of the window with its statuses. */
  lemma ColumnsAddUp(table: seq<Execution>, since: Time, width: int)
    requires width > 0
    ensures var ps := FailureTrend(table, since, width);
            && Column(ps, (p: TrendPoint) => p.success) == |Since(table, since, {Success})|
            && Column(ps, (p: TrendPoint) => p.failed) == |Since(table, since, {Failed})|
            && Column(ps, (p: TrendPoint) => p.unknown) == |Since(table, since, {Unknown, Partial})|
  {
    ColumnAddsUp(table, since, width, {Success}, (p: TrendPoint) => p.success);
    ColumnAddsUp(table, since, width, {Failed}, (p: TrendPoint) => p.failed);
    ColumnAddsUp(table, since, width, {Unknown, Partial}, (p: TrendPoint) => p.unknown);
  }

  // ---------------------------------------------------------------------- the hosts

  /** Each host with executions in the window has one line, which counts them and those that failed. */
  lemma HostLineMeaning(lines: seq<HostLine>, table: seq<Execution>, since: Time)
    requires IsHostResult(lines, table, since)
    ensures forall i :: 0 <= i < |lines| ==>
              && lines[i].total == |OfHost(table, Since(table, since, Every), lines[i].host)| > 0
              && lines[i].failed == |OfHost(table, Since(table, since, {Failed}), lines[i].host)|
    ensures forall i, j :: 0 <= i < j < |lines| ==> lines[i].failed >= lines[j].failed
    ensures forall k :: k in Since(table, since, Every) ==> exists i :: 0 <= i < |lines| && lines[i].host == table[k].host
  {
    forall i | 0 <= i < |lines|
      ensures && lines[i].total == |OfHost(table, Since(table, since, Every), lines[i].host)| > 0
              && lines[i].failed == |OfHost(table, Since(table, since, {Failed}), lines[i].host)|
    {
      var h := lines[i].host;
      var all := OfHost(table, Since(table, since, Every), h);
      CountsSet(table, (e: Execution) => InWindow(e, since) && e.host == h, all);
      CountsSet(table, (e: Execution) => InWindow(e, since) && e.status == Failed && e.host == h,
                OfHost(table, Since(table, since, {Failed}), h));
      assert HostsOf(lines)[i] == h;
      assert HasRow(table, (e: Execution) => InWindow(e, since), (e: Execution) => e.host, HostsOf(lines)[i]);
      var k :| 0 <= k < |table| && InWindow(table[k], since) && table[k].host == h;
      assert k in all;
    }
    forall k | k in Since(table, since, Every) ensures exists i :: 0 <= i < |lines| && lines[i].host == table[k].host {
      assert InWindow(table[k], since);
      assert table[k].host in HostsOf(lines);
      var i :| 0 <= i < |lines| && HostsOf(lines)[i] == table[k].host;
      assert lines[i].host == table[k].host;
    }
  }

  // ----------------------------------------------------------------------- the jobs

  ghost predicate Tables(table: seq<Execution>, jobs: seq<JobRow>, states: seq<StateRow>) {
    UniqueIds(jobs) && UniqueStates(states) && JobsKnown(table, jobs)
  }

  /** Every joined row is an execution with its job ... */
  lemma {:induction false} JoinedFrom(table: seq<Execution>, jobs: seq<JobRow>, states: seq<StateRow>, i: nat)
    requires Tables(table, jobs, states) && i < |Join(table, jobs, states)|
    ensures var r := Join(table, jobs, states)[i]; r.execution in table && Some(r.job.id) == r.execution.job
  {
    var n := |table| - 1;
    var front := Join(table[..n], jobs, states);
    JoinOne(table[n], jobs, states);
    if i < |front| {
      JoinedFrom(table[..n], jobs, states, i);
    }
  }

  lemma FrontStays<T>(a: seq<T>, b: seq<T>, k: nat)
    requires k < |a|
    ensures k < |a + b| && (a + b)[k] == a[k]
  {
  }

  /** ... and every execution with a job is joined. */
  lemma {:induction false} JoinedTo(table: seq<Execution>, jobs: seq<JobRow>, states: seq<StateRow>, i: nat) returns (k: nat)
    requires Tables(table, jobs, states) && i < |table| && table[i].job.Some?
    ensures k < |Join(table, jobs, states)| && Join(table, jobs, states)[k].execution == table[i]
  {
    var n := |table| - 1;
    var front, last := Join(table[..n], jobs, states), JoinJobs(table[n], JobsOf(jobs, table[n].job), states);
    assert Join(table, jobs, states) == front + last;
    if i < n {
      k := JoinedTo(table[..n], jobs, states, i);
      FrontStays(front, last, k);
    } else {
      JoinOne(table[n], jobs, states);
      k := |front|;
    }
  }

  /** The rows of a job that has one are those of its executions. */
  lemma GroupIsJob(table: seq<Execution>, jobs: seq<JobRow>, states: seq<StateRow>, g: Group, k: nat, i: nat)
    requires Tables(table, jobs, states)
    requires k < |Join(table, jobs, states)| && GroupOf(Join(table, jobs, states)[k]) == g
    requires i < |Join(table, jobs, states)|
    ensures var r := Join(table, jobs, states)[i]; GroupOf(r) == g <==> r.execution.job == Some(g.job)
  {
    OneLinePerJob(table, jobs, states, i, k);
    JoinedFrom(table, jobs, states, i);
  }

  lemma GroupCounts(table: seq<Execution>, jobs: seq<JobRow>, states: seq<StateRow>, since: Time, g: Group, k: nat,
                    statuses: set<Status>)
    requires Tables(table, jobs, states)
    requires k < |Join(table, jobs, states)| && GroupOf(Join(table, jobs, states)[k]) == g
    ensures InGroup(Join(table, jobs, states), since, g, statuses) == |OfJob(table, Since(table, since, statuses), g.job)|
  {
    var rows := Join(table, jobs, states);
    var p := (r: Joined) => InWindow(r.execution, since) && r.execution.status in statuses && GroupOf(r) == g;
    var p' := (r: Joined) =>
      InWindow(r.execution, since) && r.execution.status in statuses && r.execution.job == Some(g.job);
    var q := (e: Execution) => InWindow(e, since) && e.status in statuses && e.job == Some(g.job);
    forall i | 0 <= i < |rows| ensures p(rows[i]) <==> p'(rows[i]) {
      GroupIsJob(table, jobs, states, g, k, i);
    }
    CountSame(rows, p, p');
    CountSame(rows, p, (r: Joined) => InWindow(r.execution, since) && r.execution.status in statuses && GroupOf(r) == g);
    JoinCounts(table, jobs, states, p', q);
    CountsSet(table, q, OfJob(table, Since(table, since, statuses), g.job));
  }

  /** COALESCE(consecutive_fail, 0) */
  ghost predicate CachedFailures(n: nat, states: seq<StateRow>, job: JobId) {
    && (forall i :: 0 <= i < |states| && states[i].job == job ==> n == states[i].consecutiveFail)
    && ((forall i :: 0 <= i < |states| ==> states[i].job != job) ==> n == 0)
  }

  lemma {:induction false} StateFound(states: seq<StateRow>, job: JobId)
    requires UniqueStates(states)
    ensures forall i :: 0 <= i < |states| && states[i].job == job ==> StatesOf(states, job) == [states[i]]
  {
    if states != [] {
      var n := |states| - 1;
      StateFound(states[..n], job);
      AtMostOneState(states[..n], job);
    }
  }

  /** What a line says about its job: the counts and the latest of its executions in the window. */
  ghost predicate LineMeans(l: JobLine, table: seq<Execution>, jobs: seq<JobRow>, states: seq<StateRow>, since: Time) {
    var rows := OfJob(table, Since(table, since, Every), l.job);
    && JobRow(l.job, l.host) in jobs
    && l.total == |rows| > 0
    && l.success == |OfJob(table, Since(table, since, {Success}), l.job)|
    && l.failed == |OfJob(table, Since(table, since, {Failed}), l.job)|
    && CachedFailures(l.consecutiveFail, states, l.job)
    && (exists k :: k in rows && table[k].createdAt == l.lastRunAt)
    && (forall k :: k in rows ==> table[k].createdAt <= l.lastRunAt)
  }

  lemma FailuresOf(table: seq<Execution>, jobs: seq<JobRow>, states: seq<StateRow>, i: nat)
    requires Tables(table, jobs, states) && i < |Join(table, jobs, states)|
    ensures var r := Join(table, jobs, states)[i];
            CachedFailures(if r.consecutiveFail.Some? then r.consecutiveFail.value else 0, states, r.job.id)
  {
    JoinedRows(table, jobs, states, i);
    var r := Join(table, jobs, states)[i];
    StateFound(states, r.job.id);
    AtMostOneState(states, r.job.id);
  }

  lemma LatestRun(table: seq<Execution>, jobs: seq<JobRow>, states: seq<StateRow>, since: Time, g: Group, k: nat)
    requires Tables(table, jobs, states)
    requires k < |Join(table, jobs, states)| && LatestOf(Join(table, jobs, states)[k], Join(table, jobs, states), since, g)
    ensures var rows := OfJob(table, Since(table, since, Every), g.job);
            var last := Join(table, jobs, states)[k].execution.createdAt;
            && (exists i :: i in rows && table[i].createdAt == last)
            && (forall i :: i in rows ==> table[i].createdAt <= last)
  {
    var joined := Join(table, jobs, states);
    var rows := OfJob(table, Since(table, since, Every), g.job);
    JoinedFrom(table, jobs, states, k);
    var i :| 0 <= i < |table| && table[i] == joined[k].execution;
    assert i in rows;
    forall i | i in rows ensures table[i].createdAt <= joined[k].execution.createdAt {
      var j := JoinedTo(table, jobs, states, i);
      GroupIsJob(table, jobs, states, g, k, j);
    }
  }

  /** Every line of a result means what it says, and every job with executions in the window has a line. */
  lemma JobLineMeaning(lines: seq<JobLine>, groups: seq<Group>, table: seq<Execution>, jobs: seq<JobRow>,
                       states: seq<StateRow>, since: Time)
    requires Tables(table, jobs, states) && IsJobResult(lines, groups, Join(table, jobs, states), since)
    ensures forall i :: 0 <= i < |lines| ==> LineMeans(lines[i], table, jobs, states, since)
    ensures forall k :: k in Since(table, since, Every) && table[k].job.Some? ==>
              exists i :: 0 <= i < |lines| && Some(lines[i].job) == table[k].job
  {
    var rows := Join(table, jobs, states);
    var p, key := (r: Joined) => InWindow(r.execution, since), (r: Joined) => GroupOf(r);
    forall i | 0 <= i < |lines| ensures LineMeans(lines[i], table, jobs, states, since) {
      var l, g := lines[i], groups[i];
      var k :| 0 <= k < |rows| && LatestOf(rows[k], rows, since, g) && l.lastRunAt == rows[k].execution.createdAt;
      LatestRun(table, jobs, states, since, g, k);
      FinishedCount(table, jobs, states, since, g, k);
      GroupCounts(table, jobs, states, since, g, k, {Success});
      GroupCounts(table, jobs, states, since, g, k, {Failed});
      FailuresOf(table, jobs, states, k);
      JoinedRows(table, jobs, states, k);
    }
    forall k | k in Since(table, since, Every) && table[k].job.Some?
      ensures exists i :: 0 <= i < |lines| && Some(lines[i].job) == table[k].job
    {
      var j := JoinedTo(table, jobs, states, k);
      JoinedFrom(table, jobs, states, j);
      assert p(rows[j]) && key(rows[j]) in groups;
      var i :| 0 <= i < |groups| && groups[i] == GroupOf(rows[j]);
      assert lines[i].job == groups[i].job;
    }
  }

  lemma FinishedCount(table: seq<Execution>, jobs: seq<JobRow>, states: seq<StateRow>, since: Time, g: Group, k: nat)
    requires Tables(table, jobs, states)
    requires k < |Join(table, jobs, states)| && GroupOf(Join(table, jobs, states)[k]) == g
    requires InWindow(Join(table, jobs, states)[k].execution, since)
    ensures InGroup(Join(table, jobs, states), since, g, Finished) == |OfJob(table, Since(table, since, Every), g.job)| > 0
  {
    GroupCounts(table, jobs, states, since, g, k, Finished);
    assert Since(table, since, Finished) == Since(table, since, Every);
    JoinedFrom(table, jobs, states, k);
    var i :| 0 <= i < |table| && table[i] == Join(table, jobs, states)[k].execution;
    GroupIsJob(table, jobs, states, g, k, k);
    assert i in OfJob(table, Since(table, since, Every), g.job);
  }
}
