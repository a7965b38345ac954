/**
 The Go half of GetJobRecoveryStats: one loop groups the result rows by job, a
 second derives the current state and the average recovery time of each job.
 */
module RecoveryReport {
  import opened Wrappers
  import opened Ordered
  import opened Islands
  import opened Recovery

  datatype Summary = Summary(
    jobId: JobId,
    hostId: HostId,
    episodes: seq<Episode>,
    isCurrentlyFailing: bool,
    currentEpisodeSince: Option<Time>,
    currentEpisodeFails: nat,
    lastRecoveredAt: Option<Time>,
    avgRecoverySeconds: Option<real>)

  // ----------------------------------------------------------- what the loops compute

  /** Jobs in the order their first row appears. */
  function JobOrder(rows: seq<Row>): (js: seq<JobId>)
    ensures forall r :: r in rows ==> r.jobId in js
    ensures forall i, k :: 0 <= i < k < |js| ==> js[i] != js[k]
  {
    if rows == [] then []
    else
      var n := |rows| - 1;
      var js := JobOrder(rows[..n]);
      assert rows == rows[..n] + [rows[n]];
      if rows[n].jobId in js then js else js + [rows[n].jobId]
  }

  function EpisodesOf(rows: seq<Row>, j: JobId): seq<Episode> {
    if rows == [] then []
    else
      var n := |rows| - 1;
      EpisodesOf(rows[..n], j) + if rows[n].jobId == j then [rows[n].episode] else []
  }

  /** The host of a job's first row. */
  function HostOf(rows: seq<Row>, j: JobId): HostId {
    if rows == [] then 0
    else
      var n := |rows| - 1;
      if j !in JobOrder(rows[..n]) && rows[n].jobId == j then rows[n].hostId else HostOf(rows[..n], j)
  }

  function TotalSeconds(es: seq<Episode>): real {
    if es == [] then 0.0
    else
      var e := es[|es| - 1];
      TotalSeconds(es[..|es| - 1]) + if e.recoverySeconds.Some? then e.recoverySeconds.value else 0.0
  }

  function Resolved(es: seq<Episode>): nat {
    if es == [] then 0
    else Resolved(es[..|es| - 1]) + if es[|es| - 1].recoverySeconds.Some? then 1 else 0
  }

  function Average(es: seq<Episode>): Option<real> {
    if Resolved(es) > 0 then Some(TotalSeconds(es) / Resolved(es) as real) else None
  }

  function Summarize(j: JobId, host: HostId, es: seq<Episode>): Summary {
    if es == [] then Summary(j, host, es, false, None, 0, None, Average(es))
    else if es[0].recoveredAt.None? then
      Summary(j, host, es, true, Some(es[0].start), es[0].count, None, Average(es))
    else Summary(j, host, es, false, None, 0, es[0].recoveredAt, Average(es))
  }

  function SummariesOf(rows: seq<Row>, js: seq<JobId>): (s: seq<Summary>)
    ensures |s| == |js|
    ensures forall i :: 0 <= i < |js| ==> s[i] == Summarize(js[i], HostOf(rows, js[i]), EpisodesOf(rows, js[i]))
  {
    if js == [] then []
    else
      var j := js[|js| - 1];
      SummariesOf(rows, js[..|js| - 1]) + [Summarize(j, HostOf(rows, j), EpisodesOf(rows, j))]
  }

  // ------------------------------------------------------------------------ the loops

  method AverageRecovery(es: seq<Episode>) returns (avg: Option<real>)
    ensures avg == Average(es)
  {
    var totalSec, count := 0.0, 0;
    for i := 0 to |es|
      invariant totalSec == TotalSeconds(es[..i])
      invariant count == Resolved(es[..i])
    {
      assert es[..i + 1][..i] == es[..i];
      if es[i].recoverySeconds.Some? {
        totalSec := totalSec + es[i].recoverySeconds.value;
        count := count + 1;
      }
    }
    assert es[..|es|] == es;
    avg := None;
    if count > 0 {
      avg := Some(totalSec / count as real);
    }
  }

  /** The summary of a job before the second loop. */
  function Gathered(rows: seq<Row>, j: JobId): Summary {
    Summary(j, HostOf(rows, j), EpisodesOf(rows, j), false, None, 0, None, None)
  }

  ghost predicate Grouped(rows: seq<Row>, summaries: map<JobId, Summary>, order: seq<JobId>) {
    && order == JobOrder(rows)
    && (forall j :: j in summaries <==> j in order)
    && (forall j :: j in summaries ==> summaries[j] == Gathered(rows, j))
  }

  method GroupRows(rows: seq<Row>) returns (summaries: map<JobId, Summary>, order: seq<JobId>)
    ensures Grouped(rows, summaries, order)
  {
    summaries, order := map[], [];
    for n := 0 to |rows|
      invariant Grouped(rows[..n], summaries, order)
    {
      var r := rows[n];
      ghost var before, jobs := summaries, order;
      if r.jobId !in summaries {
        summaries := summaries[r.jobId := Summary(r.jobId, r.hostId, [], false, None, 0, None, None)];
        order := order + [r.jobId];
      }
      var s := summaries[r.jobId];
      summaries := summaries[r.jobId := s.(episodes := s.episodes + [r.episode])];
      GroupedNext(rows, n, before, jobs, summaries, order);
    }
    assert rows[..|rows|] == rows;
  }

  /** One turn of the row loop. */
  lemma GroupedNext(rows: seq<Row>, n: nat, before: map<JobId, Summary>, jobs: seq<JobId>,
                    summaries: map<JobId, Summary>, order: seq<JobId>)
    requires n < |rows| && Grouped(rows[..n], before, jobs)
    requires order == if rows[n].jobId in before then jobs else jobs + [rows[n].jobId]
    requires var j, e := rows[n].jobId, rows[n].episode;
             && j in summaries
             && (forall i :: i != j ==> (i in summaries <==> i in before))
             && (forall i :: i != j && i in before ==> summaries[i] == before[i])
             && summaries[j] == if j in before then before[j].(episodes := before[j].episodes + [e])
                                else Summary(j, rows[n].hostId, [e], false, None, 0, None, None)
    ensures Grouped(rows[..n + 1], summaries, order)
  {
    var j := rows[n].jobId;
    NextRow(rows, n);
    if j !in before {
      EpisodesUnseen(rows[..n], j);
    }
    forall i | i in summaries ensures summaries[i] == Gathered(rows[..n + 1], i) {
      if i != j {
        assert before[i] == Gathered(rows[..n], i);
      }
    }
  }

  lemma NextRow(rows: seq<Row>, n: nat)
    requires n < |rows|
    ensures var r, before, now := rows[n], rows[..n], rows[..n + 1];
            && JobOrder(now) == (if r.jobId in JobOrder(before) then JobOrder(before) else JobOrder(before) + [r.jobId])
            && (forall j :: j != r.jobId ==>
                  EpisodesOf(now, j) == EpisodesOf(before, j) && HostOf(now, j) == HostOf(before, j))
            && EpisodesOf(now, r.jobId) == EpisodesOf(before, r.jobId) + [r.episode]
            && HostOf(now, r.jobId) == (if r.jobId in JobOrder(before) then HostOf(before, r.jobId) else r.hostId)
  {
    assert rows[..n + 1][..n] == rows[..n];
  }

  lemma EpisodesUnseen(rows: seq<Row>, j: JobId)
    requires j !in JobOrder(rows)
    ensures EpisodesOf(rows, j) == []
  {
    if rows != [] {
      assert rows[|rows| - 1] in rows;
      EpisodesUnseen(rows[..|rows| - 1], j);
    }
  }

  lemma SummariesSnoc(rows: seq<Row>, js: seq<JobId>, i: nat)
    requires i < |js|
    ensures SummariesOf(rows, js[..i + 1])
         == SummariesOf(rows, js[..i]) + [Summarize(js[i], HostOf(rows, js[i]), EpisodesOf(rows, js[i]))]
  {
    assert js[..i + 1][..i] == js[..i];
  }

  /** Both loops of GetJobRecoveryStats over the rows of the query. */
  method Summaries(rows: seq<Row>) returns (result: seq<Summary>)
    ensures result == SummariesOf(rows, JobOrder(rows))
  {
    var summaries, order := GroupRows(rows);
    result := [];
    for i := 0 to |order|
      invariant result == SummariesOf(rows, order[..i])
    {
      SummariesSnoc(rows, order, i);
      var s := summaries[order[i]];
      assert s == Gathered(rows, order[i]);
      if |s.episodes| > 0 {
        var latest := s.episodes[0];
        if latest.recoveredAt.None? {
          s := s.(isCurrentlyFailing := true,
                  currentEpisodeSince := Some(latest.start),
                  currentEpisodeFails := latest.count);
        } else {
          s := s.(lastRecoveredAt := latest.recoveredAt);
        }
      }
      var avg := AverageRecovery(s.episodes);
      s := s.(avgRecoverySeconds := avg);
      assert s == Summarize(order[i], HostOf(rows, order[i]), EpisodesOf(rows, order[i]));
      result := result + [s];
    }
    assert order[..|order|] == order;
  }

  // --------------------------------------------------------------- what a report means

  /** The episodes of a job in the ordered result are those the scan finds. */
  lemma {:induction false} EpisodesOfScanned(db: Database, js: seq<JobId>, j: JobId)
    requires Increasing(js)
    requires forall i :: 0 <= i < |js| ==> js[i] in db.executions && js[i] in db.jobs
    ensures EpisodesOf(RowsOfJobs(db, js), j) == if j in js then JobEpisodes(db.executions[j]) else []
  {
    if js != [] {
      var n := |js| - 1;
      EpisodesOfScanned(db, js[..n], j);
      var front, back := RowsOfJobs(db, js[..n]), JobRows(db, js[n]);
      EpisodesOfConcat(front, back, j);
      EpisodesOfJob(db, js[n], j);
      LastApart(js, j);
    }
  }

  lemma LastApart(js: seq<int>, j: int)
    requires Increasing(js) && js != []
    ensures j in js <==> j in js[..|js| - 1] || j == js[|js| - 1]
    ensures j == js[|js| - 1] ==> j !in js[..|js| - 1]
  {
  }

  lemma EpisodesOfJob(db: Database, j': JobId, j: JobId)
    requires j' in db.executions && j' in db.jobs
    ensures EpisodesOf(JobRows(db, j'), j) == if j == j' then JobEpisodes(db.executions[j']) else []
  {
    EpisodesOfUniform(JobRows(db, j'), j', j);
  }

  lemma {:induction false} EpisodesOfConcat(a: seq<Row>, b: seq<Row>, j: JobId)
    ensures EpisodesOf(a + b, j) == EpisodesOf(a, j) + EpisodesOf(b, j)
  {
    if b == [] {
      assert a + b == a;
    } else {
      var n := |b| - 1;
      EpisodesOfConcat(a, b[..n], j);
      assert (a + b)[..|a + b| - 1] == a + b[..n];
    }
  }

  lemma {:induction false} EpisodesOfUniform(rows: seq<Row>, j': JobId, j: JobId)
    requires forall i :: 0 <= i < |rows| ==> rows[i].jobId == j'
    ensures j != j' ==> EpisodesOf(rows, j) == []
    ensures j == j' ==> |EpisodesOf(rows, j)| == |rows|
                        && forall i :: 0 <= i < |rows| ==> EpisodesOf(rows, j)[i] == rows[i].episode
  {
    if rows != [] {
      EpisodesOfUniform(rows[..|rows| - 1], j', j);
    }
  }

  /** Every row of a job carries the job's host. */
  lemma {:induction false} HostOfRows(db: Database, rows: seq<Row>, j: JobId)
    requires forall i :: 0 <= i < |rows| ==> IsRow(rows[i], db)
    requires j in JobOrder(rows)
    ensures j in db.jobs && HostOf(rows, j) == db.jobs[j]
  {
    var n := |rows| - 1;
    if rows[n].jobId != j || j in JobOrder(rows[..n]) {
      HostOfRows(db, rows[..n], j);
    }
  }

  /** In job order, the jobs appear ascending, each one that has a row. */
  lemma {:induction false} JobOrderAscends(rows: seq<Row>)
    requires InOrder(rows)
    ensures Increasing(JobOrder(rows))
    ensures rows != [] ==> JobOrder(rows) != [] && JobOrder(rows)[|JobOrder(rows)| - 1] == rows[|rows| - 1].jobId
  {
    if rows != [] {
      var n := |rows| - 1;
      JobOrderAscends(rows[..n]);
      if n > 0 {
        assert Before(rows[n - 1], rows[n]);
      }
    }
  }

  lemma {:induction false} OrderedHaveEpisodes(rows: seq<Row>, j: JobId)
    requires j in JobOrder(rows)
    ensures EpisodesOf(rows, j) != []
  {
    var n := |rows| - 1;
    if rows[n].jobId != j {
      OrderedHaveEpisodes(rows[..n], j);
    }
  }

  ghost predicate HasFailed(db: Database, j: JobId) {
    j in db.executions && j in db.jobs && BadTimes(db.executions[j]) != {}
  }

  lemma ScannedEpisodes(db: Database, j: JobId)
    ensures EpisodesOf(ScannedRows(db), j) == if j in KnownJobs(db) then JobEpisodes(db.executions[j]) else []
  {
    var js := Sorted(KnownJobs(db));
    EpisodesOfScanned(db, js, j);
    if j in KnownJobs(db) {
      var i := SortedHas(KnownJobs(db), j);
    }
    if j in js {
      var i :| 0 <= i < |js| && js[i] == j;
    }
  }

  lemma OrderedIffEpisodes(rows: seq<Row>, j: JobId)
    ensures j in JobOrder(rows) <==> EpisodesOf(rows, j) != []
  {
    if j in JobOrder(rows) {
      OrderedHaveEpisodes(rows, j);
    } else {
      EpisodesUnseen(rows, j);
    }
  }

  /** The report lists, by ascending id, exactly the jobs that ever failed, with their scanned episodes. */
  lemma ReportedJobs(db: Database, rows: seq<Row>, j: JobId)
    requires IsQueryResult(rows, db)
    ensures Increasing(JobOrder(rows))
    ensures j in JobOrder(rows) <==> HasFailed(db, j)
    ensures HasFailed(db, j) ==>
              HostOf(rows, j) == db.jobs[j] && EpisodesOf(rows, j) == JobEpisodes(db.executions[j])
  {
    QueryIsScan(db, rows);
    JobOrderAscends(rows);
    ScannedEpisodes(db, j);
    OrderedIffEpisodes(rows, j);
    if j in KnownJobs(db) {
      NewestEpisode(db.executions[j]);
    }
    if j in JobOrder(rows) {
      HostOfRows(db, rows, j);
    }
  }

  /** Whatever the database holds, the report has one summary for each job that ever failed, made of its scanned episodes. */
  lemma ReportIsScan(db: Database, rows: seq<Row>, i: nat)
    requires IsQueryResult(rows, db) && i < |JobOrder(rows)|
    ensures var j := JobOrder(rows)[i];
            && HasFailed(db, j)
            && |SummariesOf(rows, JobOrder(rows))| == |JobOrder(rows)|
            && SummariesOf(rows, JobOrder(rows))[i] == Summarize(j, db.jobs[j], JobEpisodes(db.executions[j]))
  {
    ReportedJobs(db, rows, JobOrder(rows)[i]);
  }

  /**
   What the summary of a job says about its history. The job is failing exactly
   when no success follows its last bad execution; otherwise every episode has
   recovered and the average runs over all of them.
   */
  lemma SummaryMeaning(h: History, j: JobId, host: HostId)
    requires BadTimes(h) != {}
    ensures var s := Summarize(j, host, JobEpisodes(h));
            var lastBad := Max(BadTimes(h));
            && s.isCurrentlyFailing == (SuccessesAfter(h, lastBad) == {})
            && (s.isCurrentlyFailing ==>
                  && s.lastRecoveredAt == None
                  && s.currentEpisodeSince == Some(JobEpisodes(h)[0].start)
                  && s.currentEpisodeFails == JobEpisodes(h)[0].count)
            && (!s.isCurrentlyFailing ==>
                  && s.lastRecoveredAt == Some(Min(SuccessesAfter(h, lastBad)))
                  && s.currentEpisodeSince == None && s.currentEpisodeFails == 0
                  && (forall i :: 0 <= i < |s.episodes| ==> s.episodes[i].recoverySeconds.Some?)
                  && s.avgRecoverySeconds == Some(TotalSeconds(s.episodes) / |s.episodes| as real))
  {
    NewestEpisode(h);
    EpisodeRecovery(h, 0);
    var es := JobEpisodes(h);
    if es[0].recoveredAt.Some? {
      forall i | 0 <= i < |es| ensures es[i].recoverySeconds.Some? {
        UnrecoveredLead(h, 0, i);
        EpisodeRecovery(h, i);
      }
      AllResolved(es);
    }
  }

  lemma {:induction false} AllResolved(es: seq<Episode>)
    requires forall i :: 0 <= i < |es| ==> es[i].recoverySeconds.Some?
    ensures Resolved(es) == |es|
  {
    if es != [] {
      AllResolved(es[..|es| - 1]);
    }
  }

  // ---------------------------------------------------- the report in terms of the history

  /** The times from the start of each recovered episode to its recovery, added up, in microseconds. */
  function SumOfDelays(es: seq<Episode>): int {
    if es == [] then 0
    else
      var e := es[|es| - 1];
      SumOfDelays(es[..|es| - 1]) + if e.recoveredAt.Some? then e.recoveredAt.value - e.start else 0
  }

  function Recovered(es: seq<Episode>): nat {
    if es == [] then 0
    else Recovered(es[..|es| - 1]) + if es[|es| - 1].recoveredAt.Some? then 1 else 0
  }

  lemma {:induction false} SecondsAreDelays(h: History, es: seq<Episode>)
    requires forall i :: 0 <= i < |es| ==> IsStretch(es[i], h)
    ensures TotalSeconds(es) * 1000000.0 == SumOfDelays(es) as real
    ensures Resolved(es) == Recovered(es)
  {
    if es != [] {
      assert IsStretch(es[|es| - 1], h);
      SecondsAreDelays(h, es[..|es| - 1]);
    }
  }

  lemma StretchesOf(h: History)
    ensures forall i :: 0 <= i < |JobEpisodes(h)| ==> IsStretch(JobEpisodes(h)[i], h)
  {
    forall i | 0 <= i < |JobEpisodes(h)| ensures IsStretch(JobEpisodes(h)[i], h) {
      EpisodesAreStretches(h, JobEpisodes(h)[i]);
    }
  }

  lemma Scaled(total: real, n: real, sum: real)
    requires n != 0.0 && total * 1000000.0 == sum
    ensures total / n * n * 1000000.0 == sum
  {
    assert total / n * n == total;
  }

  /** The sum of the delays over their number, in seconds; without any recovery there is none. */
  predicate IsMeanDelay(avg: Option<real>, es: seq<Episode>) {
    && (avg.Some? <==> Recovered(es) > 0)
    && (avg.Some? ==> avg.value * Recovered(es) as real * 1000000.0 == SumOfDelays(es) as real)
  }

  lemma AverageOfDelays(es: seq<Episode>)
    requires TotalSeconds(es) * 1000000.0 == SumOfDelays(es) as real && Resolved(es) == Recovered(es)
    ensures IsMeanDelay(Average(es), es)
  {
    if Resolved(es) > 0 {
      Scaled(TotalSeconds(es), Resolved(es) as real, SumOfDelays(es) as real);
    }
  }

  lemma AverageMeaning(h: History)
    ensures IsMeanDelay(Average(JobEpisodes(h)), JobEpisodes(h))
  {
    StretchesOf(h);
    SecondsAreDelays(h, JobEpisodes(h));
    AverageOfDelays(JobEpisodes(h));
  }

  /** The last bad execution of a job. */
  ghost predicate LastBad(h: History, b: Time) {
    BadAt(h, b) && forall t :: BadAt(h, t) ==> t <= b
  }

  lemma NewestStretch(h: History, b: Time)
    requires LastBad(h, b)
    ensures JobEpisodes(h) != [] && IsStretch(JobEpisodes(h)[0], h) && JobEpisodes(h)[0].end == b
  {
    assert forall t :: t in BadTimes(h) <==> BadAt(h, t);
    assert b in BadTimes(h);
    NewestEpisode(h);
    StretchesOf(h);
  }

  /**
   The summary of a job whose last bad execution is b: it is failing exactly when no
   success follows b, and then failing since the start of the stretch that ends at b,
   with as many failures as that has.
   */
  lemma FailingMeaning(h: History, j: JobId, host: HostId, b: Time)
    requires LastBad(h, b)
    ensures var s := Summarize(j, host, JobEpisodes(h));
            && s.jobId == j && s.hostId == host && s.episodes == JobEpisodes(h) && s.episodes != []
            && s.episodes[0].end == b && IsStretch(s.episodes[0], h)
            && (s.isCurrentlyFailing <==> forall t :: SuccessAt(h, t) ==> t <= b)
            && (if s.isCurrentlyFailing then
                  && s.currentEpisodeSince == Some(s.episodes[0].start) && s.lastRecoveredAt == None
                  && s.currentEpisodeFails == |set t | t in h && s.episodes[0].start <= t <= b|
                else
                  && s.currentEpisodeSince == None && s.currentEpisodeFails == 0
                  && s.lastRecoveredAt.Some? && FirstSuccess(h, b, s.lastRecoveredAt.value))
  {
    NewestStretch(h, b);
  }

  /** The average reported for a job is the mean delay of its episodes; when it is not failing, of all of them. */
  lemma AverageOfHistory(h: History, j: JobId, host: HostId)
    ensures var s := Summarize(j, host, JobEpisodes(h));
            s.episodes == JobEpisodes(h) && IsMeanDelay(s.avgRecoverySeconds, s.episodes)
  {
    AverageMeaning(h);
  }

  lemma AllHaveRecovered(h: History, b: Time)
    requires LastBad(h, b) && exists t :: SuccessAt(h, t) && t > b
    ensures JobEpisodes(h) != [] && Recovered(JobEpisodes(h)) == |JobEpisodes(h)|
  {
    NewestStretch(h, b);
    var es := JobEpisodes(h);
    forall i | 0 <= i < |es| ensures es[i].recoveredAt.Some? {
      UnrecoveredLead(h, 0, i);
    }
    AllRecovered(es);
  }

  lemma {:induction false} AllRecovered(es: seq<Episode>)
    requires forall i :: 0 <= i < |es| ==> es[i].recoveredAt.Some?
    ensures Recovered(es) == |es|
  {
    if es != [] {
      AllRecovered(es[..|es| - 1]);
    }
  }
}
