/**
 Reporting executions and the cached state of each job: BatchReport inserts every
 event of a batch and refreshes the row of current_job_states it belongs to.
 */
module JobStates {
  import opened Wrappers
  import opened Islands
  import opened Executions

  type Hash = int

  datatype Job = Job(host: HostId, hash: Hash)

  datatype JobState = JobState(
    host: HostId,
    lastStatus: Status,
    lastRunAt: Option<Time>,
    consecutiveFail: nat,
    updatedAt: Time)

  /**
   One reported event. `hash` is the command hash in its evidence. `insertedAt` and
   `updatedAt` are the database's clock at the two writes; `inserted` and `updated`
   say whether the writes go through.
   */
  datatype Event = Event(
    job: Option<JobId>,
    hash: Option<Hash>,
    status: Status,
    scheduledAt: Option<Time>,
    startedAt: Option<Time>,
    insertedAt: Time,
    updatedAt: Time,
    inserted: bool,
    updated: bool)

  /** The tables; (host, hash) is a unique key of jobs. */
  datatype Tables = Tables(jobs: map<JobId, Job>, executions: seq<Execution>, states: map<JobId, JobState>)

  predicate UniqueJobs(jobs: map<JobId, Job>) {
    forall i, j :: i in jobs && j in jobs && jobs[i] == jobs[j] ==> i == j
  }

  predicate Names(jobs: map<JobId, Job>, j: JobId, job: Job) {
    j in jobs && jobs[j] == job
  }

  /** Upsert of a discovered job: a known host and hash keeps its id, another pair gets the new one. */
  function Discovered(jobs: map<JobId, Job>, id: JobId, job: Job): map<JobId, Job> {
    if exists j :: j in jobs && Names(jobs, j, job) then jobs else jobs[id := job]
  }

  /** GetByHostAndHash */
  ghost function JobByHash(jobs: map<JobId, Job>, host: HostId, hash: Hash): Option<JobId> {
    if j :| Names(jobs, j, Job(host, hash)) then Some(j) else None
  }

  lemma FoundIsJobByHash(jobs: map<JobId, Job>, host: HostId, hash: Hash, r: Option<JobId>)
    requires UniqueJobs(jobs)
    requires if r.Some? then Names(jobs, r.value, Job(host, hash)) else forall j :: !Names(jobs, j, Job(host, hash))
    ensures r == JobByHash(jobs, host, hash)
  {
    if r.Some? {
      assert exists j :: Names(jobs, j, Job(host, hash));
    }
  }

  /** The job an event is recorded for: its own, or the one its evidence names. */
  ghost function LinkedJob(jobs: map<JobId, Job>, host: HostId, e: Event): Option<JobId> {
    if e.job.Some? then e.job
    else if e.hash.Some? then JobByHash(jobs, host, e.hash.value)
    else None
  }

  ghost function RowOf(t: Tables, host: HostId, e: Event): Execution {
    Execution(host, LinkedJob(t.jobs, host, e), e.status, e.scheduledAt, e.startedAt, e.insertedAt)
  }

  /** An insert goes through unless the database fails or the job does not exist. */
  ghost predicate Inserts(t: Tables, host: HostId, e: Event) {
    var job := LinkedJob(t.jobs, host, e);
    e.inserted && (job.None? || job.value in t.jobs)
  }

  function LastRun(row: Execution): Option<Time> {
    if row.startedAt.Some? then row.startedAt else row.scheduledAt
  }

  function StateOf(table: seq<Execution>, job: JobId, row: Execution, at: Time): JobState {
    JobState(row.host, row.status, LastRun(row), CountRecentFailures(table, job, at), at)
  }

  ghost function Report(t: Tables, host: HostId, e: Event): Tables {
    if !Inserts(t, host, e) then t
    else
      var row := RowOf(t, host, e);
      var table := t.executions + [row];
      var t' := t.(executions := table);
      if row.job.Some? && e.updated then
        t'.(states := t.states[row.job.value := StateOf(table, row.job.value, row, e.updatedAt)])
      else t'
  }

  ghost function ReportAll(t: Tables, host: HostId, events: seq<Event>): Tables {
    if events == [] then t
    else Report(ReportAll(t, host, events[..|events| - 1]), host, events[|events| - 1])
  }

  /** An event that the database does not refuse. */
  predicate Storable(e: Event, jobs: map<JobId, Job>) {
    e.inserted && (e.job.Some? ==> e.job.value in jobs)
  }

  /**
   The row of an event: as reported, recorded for its own job, or for the one job of
   the host with the hash in its evidence, or for none.
   */
  ghost predicate IsRowOf(row: Execution, e: Event, host: HostId, jobs: map<JobId, Job>) {
    && row.host == host && row.status == e.status
    && row.scheduledAt == e.scheduledAt && row.startedAt == e.startedAt && row.createdAt == e.insertedAt
    && (e.job.Some? ==> row.job == e.job)
    && (e.job.None? && row.job.Some? ==>
          && e.hash.Some? && row.job.value in jobs
          && jobs[row.job.value].host == host && jobs[row.job.value].hash == e.hash.value)
    && (e.job.None? && row.job.None? && e.hash.Some? ==>
          forall j :: j in jobs ==> jobs[j].host != host || jobs[j].hash != e.hash.value)
  }

  /** The state of a row's job says what the row says. */
  ghost predicate Refreshed(table: seq<Execution>, states: map<JobId, JobState>, row: Execution, host: HostId)
    requires row.job.Some?
  {
    var job := row.job.value;
    && job in states
    && states[job].lastStatus == row.status && states[job].host == host
    && states[job].lastRunAt == (if row.startedAt.Some? then row.startedAt else row.scheduledAt)
    && states[job].consecutiveFail == |RecentFailureRows(table, job, states[job].updatedAt)|
  }

  /** An error-free batch stores a row for every event, in order. */
  ghost predicate StoresAll(before: seq<Execution>, table: seq<Execution>, host: HostId, events: seq<Event>,
                            jobs: map<JobId, Job>) {
    (forall i :: 0 <= i < |events| ==> Storable(events[i], jobs)) ==>
      && |table| == |before| + |events| && before <= table
      && forall i :: 0 <= i < |events| ==> IsRowOf(table[|before| + i], events[i], host, jobs)
  }

  /** ... and refreshes the state of the job of its last event. */
  ghost predicate RefreshesLast(before: seq<Execution>, table: seq<Execution>, states: map<JobId, JobState>, host: HostId,
                                events: seq<Event>, jobs: map<JobId, Job>) {
    events != [] && (forall i :: 0 <= i < |events| ==> Storable(events[i], jobs)) && events[|events| - 1].updated ==>
      table != [] && (table[|table| - 1].job.Some? ==> Refreshed(table, states, table[|table| - 1], host))
  }

  lemma RowIsRowOf(t: Tables, host: HostId, e: Event)
    requires Storable(e, t.jobs)
    ensures Inserts(t, host, e) && IsRowOf(RowOf(t, host, e), e, host, t.jobs)
  {
    if e.job.None? && e.hash.Some? {
      var job := JobByHash(t.jobs, host, e.hash.value);
      assert job.None? ==> forall j :: !Names(t.jobs, j, Job(host, e.hash.value));
      forall j | job.None? && j in t.jobs ensures t.jobs[j].host != host || t.jobs[j].hash != e.hash.value {
        assert !Names(t.jobs, j, Job(host, e.hash.value));
      }
    }
  }

  lemma OneMoreStored(before: seq<Execution>, table: seq<Execution>, row: Execution, host: HostId, events: seq<Event>,
                      jobs: map<JobId, Job>)
    requires events != [] && StoresAll(before, table, host, events[..|events| - 1], jobs)
    requires Storable(events[|events| - 1], jobs) ==> IsRowOf(row, events[|events| - 1], host, jobs)
    ensures StoresAll(before, table + [row], host, events, jobs)
  {
    var n := |events| - 1;
    forall i | 0 <= i < n ensures Storable(events[i], jobs) <==> Storable(events[..n][i], jobs) {
    }
    if forall i :: 0 <= i < |events| ==> Storable(events[i], jobs) {
      forall i | 0 <= i < |events| ensures IsRowOf((table + [row])[|before| + i], events[i], host, jobs) {
        assert i < n ==> IsRowOf(table[|before| + i], events[..n][i], host, jobs);
      }
    }
  }

  lemma {:induction false} StoresInOrder(t: Tables, host: HostId, events: seq<Event>)
    ensures StoresAll(t.executions, ReportAll(t, host, events).executions, host, events, t.jobs)
  {
    if events != [] && Storable(events[|events| - 1], t.jobs) {
      var n := |events| - 1;
      var s := ReportAll(t, host, events[..n]);
      StoresInOrder(t, host, events[..n]);
      ReportAllKeepsJobs(t, host, events[..n]);
      RowIsRowOf(s, host, events[n]);
      OneMoreStored(t.executions, s.executions, RowOf(s, host, events[n]), host, events, t.jobs);
    }
  }

  lemma RefreshesInOrder(t: Tables, host: HostId, events: seq<Event>)
    ensures var r := ReportAll(t, host, events);
            RefreshesLast(t.executions, r.executions, r.states, host, events, t.jobs)
  {
    if events != [] && Storable(events[|events| - 1], t.jobs) {
      var n := |events| - 1;
      var s := ReportAll(t, host, events[..n]);
      ReportAllKeepsJobs(t, host, events[..n]);
      RowIsRowOf(s, host, events[n]);
      var row := RowOf(s, host, events[n]);
      if row.job.Some? {
        CountsRecentFailures(s.executions + [row], row.job.value, events[n].updatedAt);
      }
    }
  }

  class ExecutionService {
    var jobs: map<JobId, Job>
    var executions: seq<Execution>
    var states: map<JobId, JobState>

    ghost function Contents(): Tables
      reads this
    {
      Tables(jobs, executions, states)
    }

    constructor ()
      ensures Contents() == Tables(map[], [], map[])
    {
      jobs, executions, states := map[], [], map[];
    }

    /** A job reported by discovery; `id` is the fresh id it gets if its host and hash are new. */
    method DiscoverJob(id: JobId, job: Job)
      requires UniqueJobs(jobs) && id !in jobs
      modifies this`jobs
      ensures jobs == Discovered(old(jobs), id, job) && UniqueJobs(jobs)
      ensures exists j :: Names(jobs, j, job)
    {
      var known := FindJob(job.host, job.hash);
      if known.Some? {
        assert Names(jobs, known.value, job);
      } else {
        jobs := jobs[id := job];
        assert Names(jobs, id, job);
      }
    }

    /** The one job of a host with a command hash, if there is one. */
    method FindJob(host: HostId, hash: Hash) returns (r: Option<JobId>)
      requires UniqueJobs(jobs)
      ensures r.Some? ==> r.value in jobs && jobs[r.value].host == host && jobs[r.value].hash == hash
      ensures r.Some? ==> forall j :: j in jobs && jobs[j] == Job(host, hash) ==> j == r.value
      ensures r.None? ==> forall j :: j in jobs ==> jobs[j].host != host || jobs[j].hash != hash
    {
      if j :| j in jobs && jobs[j] == Job(host, hash) {
        r := Some(j);
      } else {
        r := None;
      }
    }

    method UpdateJobState(row: Execution, at: Time)
      requires row.job.Some?
      modifies this`states
      ensures states == old(states)[row.job.value := StateOf(executions, row.job.value, row, at)]
    {
      var failCount := CountRecentFailures(executions, row.job.value, at);
      var lastRunAt := None;
      if row.startedAt.Some? {
        lastRunAt := row.startedAt;
      } else if row.scheduledAt.Some? {
        lastRunAt := row.scheduledAt;
      }
      states := states[row.job.value := JobState(row.host, row.status, lastRunAt, failCount, at)];
    }

    /** BatchReport: a failed insert skips its event, and the batch is accepted all the same. */
    method BatchReport(host: HostId, events: seq<Event>) returns (saved: seq<Execution>)
      requires UniqueJobs(jobs)
      modifies this`executions, this`states
      ensures Contents() == ReportAll(old(Contents()), host, events)
      ensures executions == old(executions) + saved
      ensures StoresAll(old(executions), executions, host, events, jobs)
      ensures RefreshesLast(old(executions), executions, states, host, events, jobs)
    {
      saved := [];
      for i := 0 to |events|
        invariant Contents() == ReportAll(old(Contents()), host, events[..i])
        invariant executions == old(executions) + saved
      {
        assert events[..i + 1][..i] == events[..i];
        var e := events[i];
        var job := e.job;
        if job.None? && e.hash.Some? {
          job := FindJob(host, e.hash.value);
          FoundIsJobByHash(jobs, host, e.hash.value, job);
        }
        if !e.inserted || (job.Some? && job.value !in jobs) {
          continue;
        }
        var row := Execution(host, job, e.status, e.scheduledAt, e.startedAt, e.insertedAt);
        executions := executions + [row];
        saved := saved + [row];
        if row.job.Some? && e.updated {
          UpdateJobState(row, e.updatedAt);
        }
      }
      assert events[..|events|] == events;
      StoresInOrder(old(Contents()), host, events);
      RefreshesInOrder(old(Contents()), host, events);
    }
  }

  // --------------------------------------------------------------------- whole runs

  /** Batches are handled one at a time, between discoveries. */
  datatype Step =
    | Batch(host: HostId, events: seq<Event>)
    | Discover(id: JobId, job: Job)

  ghost function Next(t: Tables, step: Step): Tables {
    match step
    case Batch(host, events) => ReportAll(t, host, events)
    case Discover(id, job) => t.(jobs := Discovered(t.jobs, id, job))
  }

  const Empty := Tables(map[], [], map[])

  ghost function After(steps: seq<Step>): Tables {
    if steps == [] then Empty else Next(After(steps[..|steps| - 1]), steps[|steps| - 1])
  }

  /** New ids are fresh. */
  ghost predicate Run(steps: seq<Step>) {
    steps != [] ==>
      && Run(steps[..|steps| - 1])
      && (steps[|steps| - 1].Discover? ==> steps[|steps| - 1].id !in After(steps[..|steps| - 1]).jobs)
  }

  predicate FaultFree(steps: seq<Step>) {
    forall i, k :: 0 <= i < |steps| && steps[i].Batch? && 0 <= k < |steps[i].events| ==>
      steps[i].events[k].inserted && steps[i].events[k].updated
  }

  lemma {:induction false} ReportAllKeepsJobs(t: Tables, host: HostId, events: seq<Event>)
    ensures ReportAll(t, host, events).jobs == t.jobs
  {
    if events != [] {
      ReportAllKeepsJobs(t, host, events[..|events| - 1]);
    }
  }

  /** Over every run a host and hash name at most one job, so looking one up is never ambiguous. */
  lemma {:induction false} JobsStayUnique(steps: seq<Step>)
    requires Run(steps)
    ensures UniqueJobs(After(steps).jobs)
  {
    if steps != [] {
      var t, last := After(steps[..|steps| - 1]), steps[|steps| - 1];
      JobsStayUnique(steps[..|steps| - 1]);
      if last.Batch? {
        ReportAllKeepsJobs(t, last.host, last.events);
      }
    }
  }

  /** Position of a job's last recorded execution, or -1. */
  function LastIndex(table: seq<Execution>, job: JobId): (k: int)
    ensures -1 <= k < |table|
    ensures k >= 0 ==> table[k].job == Some(job)
  {
    if table == [] then -1
    else if table[|table| - 1].job == Some(job) then |table| - 1
    else LastIndex(table[..|table| - 1], job)
  }

  ghost predicate CacheOk(t: Tables, job: JobId) {
    var k := LastIndex(t.executions, job);
    && (job in t.states <==> k >= 0)
    && (job in t.states ==> t.states[job] == StateOf(t.executions, job, t.executions[k], t.states[job].updatedAt))
  }

  lemma OneMoreRow(table: seq<Execution>, row: Execution, job: JobId, now: Time)
    ensures LastIndex(table + [row], job) == if row.job == Some(job) then |table| else LastIndex(table, job)
    ensures row.job != Some(job) ==> CountRecentFailures(table + [row], job, now) == CountRecentFailures(table, job, now)
  {
    assert (table + [row])[..|table|] == table;
  }

  lemma ReportKeepsCache(t: Tables, host: HostId, e: Event, job: JobId)
    requires CacheOk(t, job) && e.updated
    ensures CacheOk(Report(t, host, e), job)
  {
    if Inserts(t, host, e) {
      var row := RowOf(t, host, e);
      var now := if job in t.states then t.states[job].updatedAt else 0;
      OneMoreRow(t.executions, row, job, now);
    }
  }

  lemma {:induction false} ReportAllKeepsCache(t: Tables, host: HostId, events: seq<Event>, job: JobId)
    requires CacheOk(t, job) && forall i :: 0 <= i < |events| ==> events[i].updated
    ensures CacheOk(ReportAll(t, host, events), job)
  {
    if events != [] {
      ReportAllKeepsCache(t, host, events[..|events| - 1], job);
      ReportKeepsCache(ReportAll(t, host, events[..|events| - 1]), host, events[|events| - 1], job);
    }
  }

  /**
   After any serial sequence of error-free batches, with jobs discovered in between,
   a job's cached row has the status, host and start of its last recorded execution,
   and its consecutive_fail is the number of failed or unknown executions in the day
   before that write.
   */
  lemma {:induction false} CacheIsLast(steps: seq<Step>, job: JobId)
    requires FaultFree(steps)
    ensures var t := After(steps);
            var k := LastIndex(t.executions, job);
            && (job in t.states <==> k >= 0)
            && (job in t.states ==>
                  var s := t.states[job];
                  && s.lastStatus == t.executions[k].status && s.host == t.executions[k].host
                  && s.lastRunAt == (if t.executions[k].startedAt.Some? then t.executions[k].startedAt
                                     else t.executions[k].scheduledAt)
                  && s.consecutiveFail == |RecentFailureRows(t.executions, job, s.updatedAt)|)
    ensures CacheOk(After(steps), job)
  {
    var now := if job in After(steps).states then After(steps).states[job].updatedAt else 0;
    CountsRecentFailures(After(steps).executions, job, now);
    if steps != [] {
      var n := |steps| - 1;
      CacheIsLast(steps[..n], job);
      if steps[n].Batch? {
        assert forall k :: 0 <= k < |steps[n].events| ==> steps[n].events[k].updated;
        ReportAllKeepsCache(After(steps[..n]), steps[n].host, steps[n].events, job);
      }
    }
  }

  // --------------------------------------------------------- what the counter counts

  /** The unbroken run of recent failures at the end of a job's history. */
  function TrailingFailures(table: seq<Execution>, job: JobId, now: Time): nat {
    if table == [] then 0
    else
      var n := |table| - 1;
      if table[n].job != Some(job) then TrailingFailures(table[..n], job, now)
      else if RecentFailure(table[n], job, now) then 1 + TrailingFailures(table[..n], job, now)
      else 0
  }

  /** A recent failure that another execution of the job, not a recent failure, has followed. */
  ghost predicate BrokenFailure(table: seq<Execution>, job: JobId, now: Time) {
    exists i, k :: 0 <= i < k < |table| && RecentFailure(table[i], job, now)
                   && table[k].job == Some(job) && !RecentFailure(table[k], job, now)
  }

  lemma {:induction false} NoRecentFailure(table: seq<Execution>, job: JobId, now: Time)
    ensures CountRecentFailures(table, job, now) == 0 <==>
              forall i :: 0 <= i < |table| ==> !RecentFailure(table[i], job, now)
  {
    if table != [] {
      NoRecentFailure(table[..|table| - 1], job, now);
    }
  }

  /**
   consecutive_fail never falls short of the trailing run of failures, but it is not
   that run: it equals it exactly when no failure of the day was followed by an
   execution that did not fail.
   */
  lemma {:induction false} CountsAtLeastTrailing(table: seq<Execution>, job: JobId, now: Time)
    ensures CountRecentFailures(table, job, now) >= TrailingFailures(table, job, now)
    ensures CountRecentFailures(table, job, now) == TrailingFailures(table, job, now) <==> !BrokenFailure(table, job, now)
  {
    if table != [] {
      var n := |table| - 1;
      var front := table[..n];
      CountsAtLeastTrailing(front, job, now);
      NoRecentFailure(front, job, now);
      if BrokenFailure(front, job, now) {
        var i, k :| 0 <= i < k < n && RecentFailure(front[i], job, now)
                    && front[k].job == Some(job) && !RecentFailure(front[k], job, now);
        assert RecentFailure(table[i], job, now) && !RecentFailure(table[k], job, now);
      }
      if table[n].job == Some(job) && !RecentFailure(table[n], job, now) {
        if i :| 0 <= i < n && RecentFailure(front[i], job, now) {
          assert RecentFailure(table[i], job, now);
        }
      }
    }
  }

  /** A failure, then a success: the counter still says one. */
  lemma SuccessDoesNotReset(job: JobId, now: Time)
    ensures var table := [Execution(0, Some(job), Failed, None, None, now), Execution(0, Some(job), Success, None, None, now)];
            CountRecentFailures(table, job, now) == 1 && TrailingFailures(table, job, now) == 0
  {
    var a, b := Execution(0, Some(job), Failed, None, None, now), Execution(0, Some(job), Success, None, None, now);
    assert [a, b][..1] == [a];
    assert [a][..0] == [];
    assert RecentFailure(a, job, now) && !RecentFailure(b, job, now);
    assert CountRecentFailures([a], job, now) == 1;
  }
}
