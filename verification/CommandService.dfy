/** The service in front of the command queue: enqueueing runs and accepting completions. */
module CommandService {
  import opened Wrappers
  import Q = CommandQueue

  type HostId = Q.HostId
  type JobId = int

  datatype Job = Job(host: HostId, commandHash: string, rawCommand: string, schedule: string)

  datatype AgentCommand = AgentCommand(
    host: HostId,
    job: JobId,
    commandHash: string,
    rawCommand: string,
    schedule: string,
    status: Q.Status,
    message: string,
    startedAt: Option<Q.Time>,
    finishedAt: Option<Q.Time>,
    exitCode: Option<int>)

  datatype Error = JobNotFound(job: JobId) | WrongHost(job: JobId) | InsertFailed | InvalidStatus(status: string) | UpdateFailed

  datatype Result<+T> = Ok(value: T) | Err(error: Error)

  predicate Runnable(jobs: map<JobId, Job>, host: HostId, id: JobId) {
    id in jobs && jobs[id].host == host
  }

  function CommandFor(jobs: map<JobId, Job>, host: HostId, id: JobId): AgentCommand
    requires id in jobs
  {
    var j := jobs[id];
    AgentCommand(host, id, j.commandHash, j.rawCommand, j.schedule, Q.Pending, "queued by server", None, None, None)
  }

  /** A fresh row of the queue for a job. */
  predicate IsQueuedFor(c: AgentCommand, host: HostId, id: JobId, job: Job) {
    && c.status == Q.Pending && c.message == "queued by server"
    && c.host == host && job.host == host && c.job == id
    && c.commandHash == job.commandHash && c.rawCommand == job.rawCommand && c.schedule == job.schedule
    && c.startedAt == None && c.finishedAt == None && c.exitCode == None
  }

  /** How many of the requested jobs come before the first that cannot be queued. */
  function Queueable(jobs: map<JobId, Job>, host: HostId, ids: seq<JobId>): (n: nat)
    ensures n <= |ids|
    ensures forall i :: 0 <= i < n ==> Runnable(jobs, host, ids[i])
    ensures n < |ids| ==> !Runnable(jobs, host, ids[n])
  {
    if ids == [] || !Runnable(jobs, host, ids[0]) then 0 else 1 + Queueable(jobs, host, ids[1..])
  }

  function CommandsFor(jobs: map<JobId, Job>, host: HostId, ids: seq<JobId>): (r: seq<AgentCommand>)
    requires forall i :: 0 <= i < |ids| ==> ids[i] in jobs
    ensures |r| == |ids| && forall i :: 0 <= i < |ids| ==> r[i] == CommandFor(jobs, host, ids[i])
  {
    seq(|ids|, i requires 0 <= i < |ids| => CommandFor(jobs, host, ids[i]))
  }

  function StatusOf(s: string): Option<Q.Status> {
    if s == "success" then Some(Q.Success) else if s == "failed" then Some(Q.Failed) else None
  }

  /** COALESCE */
  function OrElse<T>(a: Option<T>, b: Option<T>): Option<T> {
    if a.Some? then a else b
  }

  class Service {
    const jobs: map<JobId, Job>
    var commands: seq<AgentCommand>   // row i has id i

    constructor (jobs: map<JobId, Job>)
      ensures this.jobs == jobs && commands == []
    {
      this.jobs := jobs;
      commands := [];
    }

    /**
     EnqueueRuns; the insert numbered failAt fails. The request has no transaction:
     when it stops at some job, the commands of the jobs before it stay queued.
     */
    method EnqueueRuns(host: HostId, jobIds: seq<JobId>, failAt: nat) returns (r: Result<seq<AgentCommand>>)
      modifies this
      ensures var n := Queueable(jobs, host, jobIds);
              var k := if failAt < n then failAt else n;
              var queued := CommandsFor(jobs, host, jobIds[..k]);
              && commands == old(commands) + queued
              && r == (if failAt < n then Err(InsertFailed)
                       else if n == |jobIds| then Ok(queued)
                       else if jobIds[n] in jobs then Err(WrongHost(jobIds[n]))
                       else Err(JobNotFound(jobIds[n])))
      ensures |commands| >= |old(commands)| && |commands| - |old(commands)| <= |jobIds|
      ensures forall i :: 0 <= i < |commands| - |old(commands)| ==>
                jobIds[i] in jobs && IsQueuedFor(commands[|old(commands)| + i], host, jobIds[i], jobs[jobIds[i]])
      ensures r.Ok? <==> failAt >= |jobIds| && forall i :: 0 <= i < |jobIds| ==>
                jobIds[i] in jobs && jobs[jobIds[i]].host == host
      ensures r.Ok? ==> |commands| == |old(commands)| + |jobIds|
      ensures forall j :: r == Err(JobNotFound(j)) ==> j !in jobs
      ensures forall j :: r == Err(WrongHost(j)) ==> j in jobs && jobs[j].host != host
    {
      var result: seq<AgentCommand> := [];
      ghost var n := Queueable(jobs, host, jobIds);
      assert jobIds[..0] == [];
      for i := 0 to |jobIds|
        invariant i <= n && i <= failAt
        invariant result == CommandsFor(jobs, host, jobIds[..i])
        invariant commands == old(commands) + result
      {
        var id := jobIds[i];
        if id !in jobs {
          return Err(JobNotFound(id));
        }
        if jobs[id].host != host {
          return Err(WrongHost(id));
        }
        if i == failAt {
          return Err(InsertFailed);
        }
        var cmd := CommandFor(jobs, host, id);
        commands := commands + [cmd];
        result := result + [cmd];
        assert jobIds[..i + 1] == jobIds[..i] + [id];
      }
      assert jobIds[..|jobIds|] == jobIds;
      r := Ok(result);
    }

    /**
     Complete: only "success" and "failed" reach the table, whose update may fail; an
     unknown id changes nothing, and absent times leave those of the row.
     */
    method Complete(id: nat, reqStatus: string, message: string, startedAt: Option<Q.Time>,
                    finishedAt: Option<Q.Time>, exitCode: Option<int>, fails: bool)
      returns (r: Result<()>)
      modifies this
      ensures r == if StatusOf(reqStatus).None? then Err(InvalidStatus(reqStatus))
                   else if fails then Err(UpdateFailed) else Ok(())
      ensures r == Ok(()) <==> (reqStatus == "success" || reqStatus == "failed") && !fails
      ensures r.Err? ==> commands == old(commands)
      ensures r.Ok? ==>
                && |commands| == |old(commands)|
                && forall i :: 0 <= i < |commands| ==>
                     commands[i] == if i == id
                                    then old(commands)[i].(status := StatusOf(reqStatus).value,
                                                           message := message,
                                                           startedAt := OrElse(startedAt, old(commands)[i].startedAt),
                                                           finishedAt := OrElse(finishedAt, old(commands)[i].finishedAt),
                                                           exitCode := exitCode)
                                    else old(commands)[i]
      ensures r.Ok? && id < |old(commands)| ==>
                && commands[id].status == (if reqStatus == "success" then Q.Success else Q.Failed)
                && commands[id].message == message && commands[id].exitCode == exitCode
                && commands[id].startedAt == (if startedAt.Some? then startedAt else old(commands)[id].startedAt)
                && commands[id].finishedAt == (if finishedAt.Some? then finishedAt else old(commands)[id].finishedAt)
    {
      if reqStatus != "success" && reqStatus != "failed" {
        return Err(InvalidStatus(reqStatus));
      }
      if fails {
        return Err(UpdateFailed);
      }
      if id < |commands| {
        var c := commands[id].(status := StatusOf(reqStatus).value, message := message, exitCode := exitCode);
        if startedAt.Some? {
          c := c.(startedAt := startedAt);
        }
        if finishedAt.Some? {
          c := c.(finishedAt := finishedAt);
        }
        commands := commands[id := c];
      }
      r := Ok(());
    }
  }
}
