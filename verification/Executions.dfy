/** The server's table of execution records and the failure count read from it. */
module Executions {
  import opened Wrappers
  import opened Islands

  type HostId = int
  type JobId = int

  const DAY: int := 24 * 3600 * 1_000_000   // created_at is in microseconds

  datatype Execution = Execution(
    host: HostId,
    job: Option<JobId>,
    status: Status,
    scheduledAt: Option<Time>,
    startedAt: Option<Time>,
    createdAt: Time)

  /** status IN ('failed','unknown') */
  predicate CountsAsFailure(s: Status) {
    s == Failed || s == Unknown
  }

  predicate RecentFailure(e: Execution, job: JobId, now: Time) {
    e.job == Some(job) && CountsAsFailure(e.status) && e.createdAt > now - DAY
  }

  /** CountRecentFailures at time now. */
  function CountRecentFailures(table: seq<Execution>, job: JobId, now: Time): nat {
    if table == [] then 0
    else
      var n := |table| - 1;
      CountRecentFailures(table[..n], job, now) + if RecentFailure(table[n], job, now) then 1 else 0
  }

  /** The rows that count: the job's failed or unknown executions of the last 24 hours. */
  ghost function RecentFailureRows(table: seq<Execution>, job: JobId, now: Time): set<nat> {
    set i: nat | 0 <= i < |table| && table[i].job == Some(job)
                 && (table[i].status == Failed || table[i].status == Unknown)
                 && table[i].createdAt > now - 86_400_000_000
  }

  lemma {:induction false} CountsRecentFailures(table: seq<Execution>, job: JobId, now: Time)
    ensures CountRecentFailures(table, job, now) == |RecentFailureRows(table, job, now)|
  {
    if table == [] {
      assert RecentFailureRows(table, job, now) == {};
    } else {
      var n := |table| - 1;
      var before, rows := RecentFailureRows(table[..n], job, now), RecentFailureRows(table, job, now);
      CountsRecentFailures(table[..n], job, now);
      if RecentFailure(table[n], job, now) {
        assert rows == before + {n};
      } else {
        assert rows == before;
      }
    }
  }
}
