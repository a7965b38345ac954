/**
 The second half of the recovery report: the `recovery` table expression, the
 ordered result of the whole query over all jobs, and the loops that turn its
 rows into one summary per job.
 */
module Recovery {
  import opened Wrappers
  import opened Ordered
  import opened Islands

  type JobId = int   // UUIDs, compared as 128-bit numbers
  type HostId = int

  datatype Episode = Episode(
    start: Time,
    end: Time,
    count: nat,
    recoveredAt: Option<Time>,
    recoverySeconds: Option<real>)

  /** Creation times are in microseconds; EXTRACT(EPOCH FROM ...) is in seconds. */
  function Seconds(d: int): real {
    d as real / 1000000.0
  }

  // ---------------------------------------------------------------------- recovery

  /** The executions the LEFT JOIN pairs an island with. */
  ghost function SuccessesAfter(h: History, t: Time): set<Time> {
    set u | u in h && u > t && h[u] == Success
  }

  /** DISTINCT ON keeps the earliest of them, or NULL when there is none. */
  ghost function RecoveredAt(h: History, end: Time): Option<Time> {
    var s := SuccessesAfter(h, end);
    if s == {} then None else Some(Min(s))
  }

  ghost function RecoveryOf(h: History, i: Island): Episode {
    var r := RecoveredAt(h, i.end);
    Episode(i.start, i.end, i.count, r, if r.Some? then Some(Seconds(r.value - i.start)) else None)
  }

  // -------------------------------------------------------------- the whole query

  datatype Row = Row(jobId: JobId, hostId: HostId, episode: Episode)

  /** The executions that have a job, by job, and the host of every job. */
  datatype Database = Database(executions: map<JobId, History>, jobs: map<JobId, HostId>)

  /** The rows of the final SELECT, before ORDER BY. */
  ghost predicate IsRow(r: Row, db: Database) {
    && r.jobId in db.executions
    && r.jobId in db.jobs
    && r.hostId == db.jobs[r.jobId]
    && IsEpisode(r.episode, db.executions[r.jobId])
  }

  /** ORDER BY r.job_id, r.episode_start DESC */
  predicate Before(a: Row, b: Row) {
    a.jobId < b.jobId || (a.jobId == b.jobId && a.episode.start > b.episode.start)
  }

  ghost predicate InOrder(rows: seq<Row>) {
    forall i, j :: 0 <= i < j < |rows| ==> Before(rows[i], rows[j])
  }

  ghost predicate IsQueryResult(rows: seq<Row>, db: Database) {
    && InOrder(rows)
    && (forall i :: 0 <= i < |rows| ==> IsRow(rows[i], db))
    && (forall r :: IsRow(r, db) ==> r in rows)
  }

  // ------------------------------------------------------- reference: scan each job

  /** The episodes of the scanned runs, newest first. */
  ghost function NewestFirst(h: History, runs: seq<Island>): (es: seq<Episode>)
    ensures |es| == |runs|
  {
    if runs == [] then []
    else [RecoveryOf(h, runs[|runs| - 1])] + NewestFirst(h, runs[..|runs| - 1])
  }

  lemma {:induction false} NewestAt(h: History, runs: seq<Island>, i: nat)
    requires i < |runs|
    ensures NewestFirst(h, runs)[i] == RecoveryOf(h, runs[|runs| - 1 - i])
  {
    if i > 0 {
      NewestAt(h, runs[..|runs| - 1], i - 1);
    }
  }

  ghost function JobEpisodes(h: History): seq<Episode> {
    IslandsAreRuns(h);
    NewestFirst(h, Runs(h, Sorted(h.Keys)))
  }

  ghost function JobRows(db: Database, j: JobId): (rows: seq<Row>)
    requires j in db.executions && j in db.jobs
  {
    var es := JobEpisodes(db.executions[j]);
    seq(|es|, i requires 0 <= i < |es| => Row(j, db.jobs[j], es[i]))
  }

  ghost function RowsOfJobs(db: Database, js: seq<JobId>): seq<Row>
    requires forall i :: 0 <= i < |js| ==> js[i] in db.executions && js[i] in db.jobs
  {
    if js == [] then [] else RowsOfJobs(db, js[..|js| - 1]) + JobRows(db, js[|js| - 1])
  }

  ghost function KnownJobs(db: Database): set<JobId> {
    db.executions.Keys * db.jobs.Keys
  }

  ghost function ScannedRows(db: Database): seq<Row> {
    RowsOfJobs(db, Sorted(KnownJobs(db)))
  }

  // ------------------------------------------------------ the query computes the scan

  /** Runs in time order, not touching, none ending after a given time. */
  ghost predicate Apart(r: seq<Island>, last: Time) {
    && (forall i :: 0 <= i < |r| ==> r[i].start <= r[i].end <= last)
    && (forall i, j :: 0 <= i < j < |r| ==> r[i].end < r[j].start)
  }

  lemma {:induction false} RunsApart(h: History, ts: seq<Time>, last: Time)
    requires Within(ts, h) && Increasing(ts)
    requires ts != [] ==> ts[|ts| - 1] <= last
    ensures Apart(Runs(h, ts), last)
  {
    if ts != [] {
      var n := |ts| - 1;
      RunsApart(h, ts[..n], ts[n] - 1);
      RunsSnoc(h, ts);
      ApartSnoc(Runs(h, ts[..n]), ts[n], last, Runs(h, ts));
    }
  }

  /** How one more execution changes the runs: not at all, by lengthening the last, or by a new one. */
  ghost predicate Grown(r: seq<Island>, t: Time, r': seq<Island>) {
    || r' == r
    || r' == r + [Island(t, t, 1)]
    || (r != [] && r' == r[..|r| - 1] + [Island(r[|r| - 1].start, t, r[|r| - 1].count + 1)])
  }

  lemma RunsSnoc(h: History, ts: seq<Time>)
    requires Within(ts, h) && ts != []
    ensures Grown(Runs(h, ts[..|ts| - 1]), ts[|ts| - 1], Runs(h, ts))
  {
  }

  lemma ApartSnoc(r: seq<Island>, t: Time, last: Time, r': seq<Island>)
    requires Apart(r, t - 1) && t <= last && Grown(r, t, r')
    ensures Apart(r', last)
  {
    if r' == r {
      ApartLater(r, t - 1, last);
    } else if r' == r + [Island(t, t, 1)] {
      ApartOpen(r, t, last);
    } else {
      ApartExtend(r, t, last);
    }
  }

  lemma ApartLater(r: seq<Island>, t: Time, last: Time)
    requires Apart(r, t) && t <= last
    ensures Apart(r, last)
  {
  }

  lemma ApartExtend(r: seq<Island>, t: Time, last: Time)
    requires r != [] && Apart(r, t - 1) && t <= last
    ensures var e := r[|r| - 1]; Apart(r[..|r| - 1] + [Island(e.start, t, e.count + 1)], last)
  {
  }

  lemma ApartOpen(r: seq<Island>, t: Time, last: Time)
    requires Apart(r, t - 1) && t <= last
    ensures Apart(r + [Island(t, t, 1)], last)
  {
  }

  lemma {:induction false} IslandAt(h: History, ks: seq<int>, i: nat)
    requires forall k :: 0 <= k < |ks| ==> ks[k] in IslandIds(h)
    ensures |IslandsOf(h, ks)| == |ks|
    ensures i < |ks| ==> IslandsOf(h, ks)[i] == FailureIsland(h, ks[i])
  {
    if ks != [] {
      IslandAt(h, ks[..|ks| - 1], i);
    }
  }

  ghost predicate IsEpisode(e: Episode, h: History) {
    exists k :: k in IslandIds(h) && e == RecoveryOf(h, FailureIsland(h, k))
  }

  /** A job's episodes come newest first ... */
  lemma JobEpisodesNewestFirst(h: History)
    ensures var es := JobEpisodes(h);
            forall i, j :: 0 <= i < j < |es| ==> es[i].start > es[j].start
  {
    AllApart(h);
    var runs := Runs(h, Sorted(h.Keys));
    forall i | 0 <= i < |runs| ensures JobEpisodes(h)[i].start == runs[|runs| - 1 - i].start {
      NewestAt(h, runs, i);
    }
  }

  lemma AllApart(h: History)
    ensures Within(Sorted(h.Keys), h)
    ensures exists last :: Apart(Runs(h, Sorted(h.Keys)), last)
  {
    IslandsAreRuns(h);
    var ts := Sorted(h.Keys);
    var last := if ts == [] then 0 else ts[|ts| - 1];
    RunsApart(h, ts, last);
  }

  lemma NewestOfIslands(h: History, ks: seq<int>, i: nat)
    requires i < |ks| && forall k :: 0 <= k < |ks| ==> ks[k] in IslandIds(h)
    ensures |IslandsOf(h, ks)| == |ks|
    ensures NewestFirst(h, IslandsOf(h, ks))[i] == RecoveryOf(h, FailureIsland(h, ks[|ks| - 1 - i]))
  {
    var islands := IslandsOf(h, ks);
    var last := |ks| - 1 - i;
    IslandAt(h, ks, last);
    NewestAt(h, islands, i);
    assert islands[last] == FailureIsland(h, ks[last]);
  }

  lemma EpisodesOfIslands(h: History)
    ensures |JobEpisodes(h)| == |Sorted(IslandIds(h))|
    ensures JobEpisodes(h) == NewestFirst(h, IslandsOf(h, Sorted(IslandIds(h))))
  {
    IslandsAreRuns(h);
    IslandAt(h, Sorted(IslandIds(h)), 0);
  }

  /** The i-th episode is that of the i-th newest island. */
  lemma EpisodeAt(h: History, i: nat)
    requires i < |JobEpisodes(h)|
    ensures var ks := Sorted(IslandIds(h));
            |ks| == |JobEpisodes(h)| && JobEpisodes(h)[i] == RecoveryOf(h, FailureIsland(h, ks[|ks| - 1 - i]))
  {
    EpisodesOfIslands(h);
    NewestOfIslands(h, Sorted(IslandIds(h)), i);
  }

  lemma EpisodeIsIsland(h: History, i: nat)
    requires i < |JobEpisodes(h)|
    ensures IsEpisode(JobEpisodes(h)[i], h)
  {
    EpisodeAt(h, i);
    var ks := Sorted(IslandIds(h));
    assert ks[|ks| - 1 - i] in IslandIds(h);
  }

  lemma IslandIsEpisode(h: History, k: int)
    requires k in IslandIds(h)
    ensures RecoveryOf(h, FailureIsland(h, k)) in JobEpisodes(h)
  {
    var i := SortedHas(IslandIds(h), k);
    EpisodesOfIslands(h);
    EpisodeAt(h, |Sorted(IslandIds(h))| - 1 - i);
  }

  /** ... and are exactly those of its islands. */
  lemma JobEpisodesAreIslands(h: History, e: Episode)
    ensures e in JobEpisodes(h) <==> IsEpisode(e, h)
  {
    if e in JobEpisodes(h) {
      var i :| 0 <= i < |JobEpisodes(h)| && JobEpisodes(h)[i] == e;
      EpisodeIsIsland(h, i);
    }
    if IsEpisode(e, h) {
      var k :| k in IslandIds(h) && e == RecoveryOf(h, FailureIsland(h, k));
      IslandIsEpisode(h, k);
    }
  }

  lemma JobRowsAreResult(db: Database, j: JobId)
    requires j in db.executions && j in db.jobs
    ensures InOrder(JobRows(db, j))
    ensures forall i :: 0 <= i < |JobRows(db, j)| ==> IsRow(JobRows(db, j)[i], db) && JobRows(db, j)[i].jobId == j
    ensures forall r :: IsRow(r, db) && r.jobId == j ==> r in JobRows(db, j)
  {
    var h := db.executions[j];
    var es, rows := JobEpisodes(h), JobRows(db, j);
    JobEpisodesNewestFirst(h);
    forall i | 0 <= i < |rows| ensures IsRow(rows[i], db) {
      JobEpisodesAreIslands(h, es[i]);
    }
    forall r | IsRow(r, db) && r.jobId == j ensures r in rows {
      JobEpisodesAreIslands(h, r.episode);
      var i :| 0 <= i < |es| && es[i] == r.episode;
      assert rows[i] == r;
    }
  }

  /** The rows of jobs js: in order, rows of the query, and all of those of these jobs. */
  ghost predicate RowsOf(rows: seq<Row>, db: Database, js: seq<JobId>) {
    && InOrder(rows)
    && (forall i :: 0 <= i < |rows| ==> IsRow(rows[i], db) && rows[i].jobId in js)
    && (forall r :: IsRow(r, db) && r.jobId in js ==> r in rows)
  }

  lemma RowsOfSnoc(front: seq<Row>, back: seq<Row>, db: Database, js: seq<JobId>)
    requires js != [] && Increasing(js)
    requires RowsOf(front, db, js[..|js| - 1])
    requires RowsOf(back, db, [js[|js| - 1]])
    ensures RowsOf(front + back, db, js)
  {
    var n := |js| - 1;
    assert js == js[..n] + [js[n]];
    forall i | 0 <= i < |front| ensures front[i].jobId < js[n] {
      var k :| 0 <= k < n && js[..n][k] == front[i].jobId;
      assert js[k] < js[n];
    }
    InOrderConcat(front, back, js[n]);
  }

  lemma InOrderConcat(a: seq<Row>, b: seq<Row>, j: JobId)
    requires InOrder(a) && InOrder(b)
    requires forall i :: 0 <= i < |a| ==> a[i].jobId < j
    requires forall i :: 0 <= i < |b| ==> b[i].jobId == j
    ensures InOrder(a + b)
  {
  }

  lemma {:induction false} RowsOfJobsAreResult(db: Database, js: seq<JobId>)
    requires Increasing(js)
    requires forall i :: 0 <= i < |js| ==> js[i] in db.executions && js[i] in db.jobs
    ensures RowsOf(RowsOfJobs(db, js), db, js)
  {
    if js != [] {
      var n := |js| - 1;
      RowsOfJobsAreResult(db, js[..n]);
      JobRowsAreResult(db, js[n]);
      RowsOfSnoc(RowsOfJobs(db, js[..n]), JobRows(db, js[n]), db, js);
    }
  }

  lemma ScannedRowsAreResult(db: Database)
    ensures IsQueryResult(ScannedRows(db), db)
  {
    var js := Sorted(KnownJobs(db));
    RowsOfJobsAreResult(db, js);
    forall r | IsRow(r, db) ensures r.jobId in js {
      var i := SortedHas(KnownJobs(db), r.jobId);
    }
  }

  /** An ordered result is determined by its set of rows. */
  lemma {:induction false} OrderIsUnique(a: seq<Row>, b: seq<Row>)
    requires InOrder(a) && InOrder(b)
    requires forall i :: 0 <= i < |a| ==> a[i] in b
    requires forall i :: 0 <= i < |b| ==> b[i] in a
    ensures a == b
  {
    assert |a| > 0 ==> a[0] in b;
    assert |b| > 0 ==> b[0] in a;
    if a != [] && b != [] {
      assert a[0] == b[0];
      forall i | 0 <= i < |a| - 1 ensures a[1..][i] in b[1..] { InTail(a, b, i + 1); }
      forall i | 0 <= i < |b| - 1 ensures b[1..][i] in a[1..] { InTail(b, a, i + 1); }
      OrderIsUnique(a[1..], b[1..]);
    }
  }

  lemma InTail(a: seq<Row>, b: seq<Row>, i: nat)
    requires InOrder(a) && 0 < i < |a| && b != [] && a[0] == b[0] && a[i] in b
    ensures a[i] in b[1..]
  {
    var k :| 0 <= k < |b| && b[k] == a[i];
    assert Before(a[0], a[i]);
    assert b[1..][k - 1] == a[i];
  }

  /** The query returns exactly the episodes the scan finds, grouped by job, newest first. */
  lemma QueryIsScan(db: Database, rows: seq<Row>)
    ensures IsQueryResult(rows, db) <==> rows == ScannedRows(db)
  {
    ScannedRowsAreResult(db);
    if IsQueryResult(rows, db) {
      OrderIsUnique(rows, ScannedRows(db));
    }
  }

  // --------------------------------------------------------------- facts on recovery

  /** A later episode never recovers earlier, and is unrecovered if an earlier one is. */
  lemma RecoveryMonotone(h: History, s: Time, t: Time)
    requires s <= t
    ensures RecoveredAt(h, s).None? ==> RecoveredAt(h, t).None?
    ensures RecoveredAt(h, t).Some? ==>
              RecoveredAt(h, s).Some? && RecoveredAt(h, s).value <= RecoveredAt(h, t).value
  {
    assert SuccessesAfter(h, t) <= SuccessesAfter(h, s);
  }

  lemma EpisodeRecovery(h: History, i: nat)
    requires i < |JobEpisodes(h)|
    ensures JobEpisodes(h)[i].recoveredAt == RecoveredAt(h, JobEpisodes(h)[i].end)
    ensures JobEpisodes(h)[i].recoveredAt.Some? <==> JobEpisodes(h)[i].recoverySeconds.Some?
  {
    IslandsAreRuns(h);
    NewestAt(h, Runs(h, Sorted(h.Keys)), i);
  }

  lemma EndsDescend(h: History, i: nat, j: nat)
    requires i <= j < |JobEpisodes(h)|
    ensures JobEpisodes(h)[j].end <= JobEpisodes(h)[i].end
  {
    AllApart(h);
    var runs := Runs(h, Sorted(h.Keys));
    NewestAt(h, runs, i);
    NewestAt(h, runs, j);
    assert runs[|runs| - 1 - j].end <= runs[|runs| - 1 - i].end;
  }

  /** Newest first, the unrecovered episodes lead and recovery times never increase. */
  lemma UnrecoveredLead(h: History, i: nat, j: nat)
    requires i <= j < |JobEpisodes(h)|
    ensures var es := JobEpisodes(h);
            && (es[j].recoveredAt.None? ==> es[i].recoveredAt.None?)
            && (es[i].recoveredAt.Some? ==>
                  es[j].recoveredAt.Some? && es[j].recoveredAt.value <= es[i].recoveredAt.value)
  {
    EndsDescend(h, i, j);
    EpisodeRecovery(h, i);
    EpisodeRecovery(h, j);
    RecoveryMonotone(h, JobEpisodes(h)[j].end, JobEpisodes(h)[i].end);
  }

  lemma BadRunEnds(h: History, ts: seq<Time>)
    requires Within(ts, h) && Increasing(ts) && ts != [] && IsBad(h[ts[|ts| - 1]])
    ensures BadAmong(h, ts) != {} && Max(BadAmong(h, ts)) == ts[|ts| - 1]
  {
    assert ts[|ts| - 1] in BadAmong(h, ts);
    assert forall t :: t in BadAmong(h, ts) ==> t <= ts[|ts| - 1];
  }

  /** The newest episode ends with the job's last bad execution. */
  lemma {:induction false} NewestEndsLast(h: History, ts: seq<Time>)
    requires Within(ts, h) && Increasing(ts)
    ensures Runs(h, ts) == [] <==> BadAmong(h, ts) == {}
    ensures BadAmong(h, ts) != {} ==> Runs(h, ts)[|Runs(h, ts)| - 1].end == Max(BadAmong(h, ts))
  {
    if ts != [] {
      var n := |ts| - 1;
      if IsBad(h[ts[n]]) {
        BadRunEnds(h, ts);
      } else {
        NewestEndsLast(h, ts[..n]);
        assert BadAmong(h, ts) == BadAmong(h, ts[..n]);
      }
    }
  }

  lemma NewestEpisode(h: History)
    ensures JobEpisodes(h) == [] <==> BadTimes(h) == {}
    ensures BadTimes(h) != {} ==> JobEpisodes(h)[0].end == Max(BadTimes(h))
  {
    var ts := Sorted(h.Keys);
    IslandsAreRuns(h);
    NewestEndsLast(h, ts);
    BadAmongAll(h);
  }

  // ------------------------------------------------------- episodes in their own terms

  /** failed, unknown or missed */
  ghost predicate BadAt(h: History, t: Time) {
    t in h && (h[t] == Failed || h[t] == Unknown || h[t] == Missed)
  }

  ghost predicate SuccessAt(h: History, t: Time) {
    t in h && h[t] == Success
  }

  /** A time in the history that is not bad lies strictly between two others. */
  ghost predicate Parted(h: History, t: Time, u: Time) {
    exists v :: v in h && t < v < u && !BadAt(h, v)
  }

  /** The first success after a time. */
  ghost predicate FirstSuccess(h: History, end: Time, r: Time) {
    SuccessAt(h, r) && r > end && forall t :: SuccessAt(h, t) && t > end ==> r <= t
  }

  /**
   A maximal stretch of bad executions: its first and last time, its length, the first
   success after it, if any, and the seconds from its first time to that success.
   */
  ghost predicate IsStretch(e: Episode, h: History) {
    && BadAt(h, e.start) && BadAt(h, e.end) && e.start <= e.end
    && (forall t :: t in h && e.start <= t <= e.end ==> BadAt(h, t))
    && (forall t :: BadAt(h, t) && t < e.start ==> Parted(h, t, e.start))
    && (forall t :: BadAt(h, t) && t > e.end ==> Parted(h, e.end, t))
    && e.count == |set t | t in h && e.start <= t <= e.end|
    && (match e.recoveredAt
        case None => e.recoverySeconds == None && forall t :: SuccessAt(h, t) ==> t <= e.end
        case Some(r) =>
          && FirstSuccess(h, e.end, r)
          && e.recoverySeconds.Some? && e.recoverySeconds.value * 1000000.0 == (r - e.start) as real)
  }

  lemma NotSame(h: History, t: Time, u: Time)
    requires BadAt(h, t) && BadAt(h, u) && t < u
    ensures IslandId(h, t) != IslandId(h, u) <==> Parted(h, t, u)
  {
    SameIslandIffNoGap(h, t, u);
    if v :| v in h && t <= v <= u && !IsBad(h[v]) {
      assert t < v < u && !BadAt(h, v);
    }
  }

  /** Rows between two of one island are in it. */
  lemma BetweenIsSame(h: History, t: Time, u: Time, v: Time)
    requires BadAt(h, t) && BadAt(h, u) && t <= v <= u && v in h && IslandId(h, t) == IslandId(h, u)
    ensures BadAt(h, v) && IslandId(h, v) == IslandId(h, t)
  {
    SameIslandIffNoGap(h, t, u);
    SameIslandIffNoGap(h, t, v);
  }

  /** The times of an island. */
  lemma GroupIsStretch(h: History, k: int)
    requires k in IslandIds(h)
    ensures var g := Group(h, k);
            && g != {} && BadAt(h, Min(g)) && BadAt(h, Max(g)) && Min(g) <= Max(g)
            && IslandId(h, Min(g)) == k && IslandId(h, Max(g)) == k
            && g == (set t | t in h && Min(g) <= t <= Max(g))
            && (forall t :: t in h && Min(g) <= t <= Max(g) ==> BadAt(h, t))
  {
    var g := Group(h, k);
    forall t | t in h && Min(g) <= t <= Max(g) ensures BadAt(h, t) && t in g {
      BetweenIsSame(h, Min(g), Max(g), t);
    }
  }

  lemma RecoveryIsFirst(h: History, start: Time, end: Time, count: nat)
    ensures var e := RecoveryOf(h, Island(start, end, count));
            && e.start == start && e.end == end && e.count == count
            && match e.recoveredAt
               case None => e.recoverySeconds == None && forall t :: SuccessAt(h, t) ==> t <= end
               case Some(r) =>
                 && FirstSuccess(h, end, r)
                 && e.recoverySeconds.Some? && e.recoverySeconds.value * 1000000.0 == (r - start) as real
  {
    assert forall t :: t in SuccessesAfter(h, end) <==> SuccessAt(h, t) && t > end;
  }

  lemma EpisodeIsStretch(h: History, k: int)
    requires k in IslandIds(h)
    ensures IsStretch(RecoveryOf(h, FailureIsland(h, k)), h)
  {
    var g := Group(h, k);
    GroupIsStretch(h, k);
    RecoveryIsFirst(h, Min(g), Max(g), |g|);
    forall t | BadAt(h, t) && t < Min(g) ensures Parted(h, t, Min(g)) {
      assert t !in g;
      NotSame(h, t, Min(g));
    }
    forall t | BadAt(h, t) && t > Max(g) ensures Parted(h, Max(g), t) {
      assert t !in g;
      NotSame(h, Max(g), t);
    }
  }

  /** The island of a stretch's first time is the stretch. */
  lemma StretchIsGroup(h: History, e: Episode)
    requires IsStretch(e, h)
    ensures IslandId(h, e.start) in IslandIds(h)
    ensures FailureIsland(h, IslandId(h, e.start)) == Island(e.start, e.end, e.count)
  {
    var k := IslandId(h, e.start);
    var g := Group(h, k);
    var times := set t | t in h && e.start <= t <= e.end;
    assert e.start in BadTimes(h);
    assert forall t :: t in h && e.start <= t <= e.end ==> IsBad(h[t]) by {
      assert forall t :: t in h && e.start <= t <= e.end ==> BadAt(h, t);
    }
    forall t ensures t in g <==> t in times {
      if t in times {
        assert BadAt(h, t);
        SameIslandIffNoGap(h, e.start, t);
      } else if BadAt(h, t) && t < e.start {
        NotSame(h, t, e.start);
      } else if BadAt(h, t) && t > e.end {
        NotSame(h, e.end, t);
        SameIslandIffNoGap(h, e.start, e.end);
      }
    }
    assert g == times;
    assert e.start in g && e.end in g;
  }

  /** The episodes of a job are exactly the maximal stretches of its bad executions. */
  lemma EpisodesAreStretches(h: History, e: Episode)
    ensures e in JobEpisodes(h) <==> IsStretch(e, h)
  {
    JobEpisodesAreIslands(h, e);
    if IsEpisode(e, h) {
      var k :| k in IslandIds(h) && e == RecoveryOf(h, FailureIsland(h, k));
      EpisodeIsStretch(h, k);
    }
    if IsStretch(e, h) {
      StretchIsGroup(h, e);
      RecoveryIsFirst(h, e.start, e.end, e.count);
      var other := RecoveryOf(h, Island(e.start, e.end, e.count));
      SameRecovery(h, e, other);
    }
  }

  /** Two descriptions of one stretch are the same. */
  lemma SameRecovery(h: History, a: Episode, b: Episode)
    requires IsStretch(a, h) && a.start == b.start && a.end == b.end && a.count == b.count
    requires match b.recoveredAt
             case None => b.recoverySeconds == None && forall t :: SuccessAt(h, t) ==> t <= b.end
             case Some(r) =>
               && FirstSuccess(h, b.end, r)
               && b.recoverySeconds.Some? && b.recoverySeconds.value * 1000000.0 == (r - b.start) as real
    ensures a == b
  {
  }

  /**
   The rows of the query: for each job of the table, with its host, every maximal
   stretch of its bad executions, and nothing else.
   */
  lemma RowsAreStretches(db: Database, rows: seq<Row>, r: Row)
    requires IsQueryResult(rows, db)
    ensures r in rows <==>
              && r.jobId in db.executions && r.jobId in db.jobs && r.hostId == db.jobs[r.jobId]
              && IsStretch(r.episode, db.executions[r.jobId])
  {
    if r.jobId in db.executions {
      EpisodesAreStretches(db.executions[r.jobId], r.episode);
      JobEpisodesAreIslands(db.executions[r.jobId], r.episode);
    }
  }
}
