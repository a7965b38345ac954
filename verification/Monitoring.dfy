/**
 The monitoring side of the server over time: hosts register and send heartbeats,
 executions are recorded, and a single evaluator thread runs its passes. A pass
 marks, lists the hosts, visits them one by one, and does the same with the jobs;
 anything may happen between two of these statements.
 */
module Monitoring {
  import opened Wrappers
  import opened Executions
  import opened Alerts
  import opened Hosts
  import opened Evaluator

  datatype Stage = Marking | VisitingHosts | VisitingJobs

  /** When a job was visited, and how many executions the table held. */
  datatype Look = Look(at: Time, rows: nat)

  /**
   The latest pass: `listed` steps came before it listed the hosts, at `listedAt`
   and with `rows`, and `jobsListed` before it listed the jobs; the visited hosts and
   jobs are the first of their listings;
   `clean` says that nothing has failed so far.
   */
  datatype Pass = Pass(
    stage: Stage,
    listed: nat,
    listedAt: Time,
    rows: Hosts,
    hostOrder: seq<HostId>,
    hostVisits: seq<Time>,
    jobsListed: nat,
    jobOrder: seq<JobId>,
    jobVisits: seq<Look>,
    clean: bool)

  /** `ticks` counts the steps; `samples` is the history of everything the evaluator has sampled. */
  datatype State = State(
    ticks: nat,
    now: Time,
    hosts: Hosts,
    jobs: set<JobId>,
    executions: seq<Execution>,
    alerts: Table,
    samples: seq<Sample>,
    pass: Pass)

  datatype Step =
    | Advance(to: Time)
    | Register(host: HostId)
    | Beat(host: HostId)
    | AddJob(job: JobId)
    | Record(execution: Execution)
    | BeginPass(marked: bool)
    | ListHosts(order: seq<int>, listed: bool)
    | VisitHost(applied: bool)
    | ListJobs(order: seq<int>, listed: bool)
    | VisitJob(applied: bool)

  const NoPass := Pass(VisitingJobs, 0, 0, map[], [], [], 0, [], [], false)

  const Init := State(0, 0, map[], {}, [], [], [], NoPass)

  predicate Finished(p: Pass) {
    p.stage == VisitingJobs && |p.jobVisits| == |p.jobOrder|
  }

  /** A listing: every id of the table once, in some order. */
  ghost predicate Lists(order: seq<int>, ids: set<int>) {
    && (forall i :: 0 <= i < |order| ==> order[i] in ids)
    && (forall i, j :: 0 <= i < j < |order| ==> order[i] != order[j])
    && forall id :: id in ids ==> id in order
  }

  ghost predicate Enabled(s: State, step: Step) {
    match step
    case Advance(to) => to >= s.now
    case Record(e) => e.createdAt == s.now
    case BeginPass(_) => Finished(s.pass)
    case ListHosts(order, listed) =>
      s.pass.stage == Marking && if listed then Lists(order, s.hosts.Keys) else order == []
    case VisitHost(_) =>
      && s.pass.stage == VisitingHosts && |s.pass.hostVisits| < |s.pass.hostOrder|
      && s.pass.hostOrder[|s.pass.hostVisits|] in s.pass.rows
    case ListJobs(order, listed) =>
      && s.pass.stage == VisitingHosts && |s.pass.hostVisits| == |s.pass.hostOrder|
      && if listed then Lists(order, s.jobs) else order == []
    case VisitJob(_) => s.pass.stage == VisitingJobs && |s.pass.jobVisits| < |s.pass.jobOrder|
    case _ => true
  }

  ghost function HostSample(s: State, applied: bool): Sample
    requires Enabled(s, VisitHost(applied))
  {
    var id := s.pass.hostOrder[|s.pass.hostVisits|];
    Sample(StaleHeartbeat(id), IsStale(s.pass.rows[id], s.now), s.now, applied)
  }

  ghost function JobSample(s: State, applied: bool): Sample
    requires Enabled(s, VisitJob(applied))
  {
    var id := s.pass.jobOrder[|s.pass.jobVisits|];
    Sample(RepeatedFailures(id), CountRecentFailures(s.executions, id, s.now) >= FAIL_THRESHOLD, s.now, applied)
  }

  ghost function Sampled(s: State, sample: Sample): State {
    s.(alerts := Reconcile(s.alerts, sample), samples := s.samples + [sample])
  }

  ghost function Effect(s: State, step: Step): State
    requires Enabled(s, step)
  {
    var p := s.pass;
    match step
    case Advance(to) => s.(now := to)
    case Register(id) => s.(hosts := Upsert(s.hosts, id))
    case Beat(id) => s.(hosts := Heartbeat(s.hosts, id, s.now))
    case AddJob(j) => s.(jobs := s.jobs + {j})
    case Record(e) => s.(executions := s.executions + [e])
    case BeginPass(marked) =>
      if marked then
        s.(hosts := MarkStale(s.hosts, s.now), pass := NoPass.(stage := Marking, listedAt := s.now, clean := true))
      else s.(pass := NoPass.(stage := VisitingHosts, listedAt := s.now))
    case ListHosts(order, listed) =>
      s.(pass := p.(stage := VisitingHosts, listed := s.ticks, listedAt := s.now, rows := s.hosts,
                    hostOrder := order, clean := p.clean && listed))
    case VisitHost(applied) =>
      Sampled(s, HostSample(s, applied)).(pass := p.(hostVisits := p.hostVisits + [s.now], clean := p.clean && applied))
    case ListJobs(order, listed) =>
      s.(pass := p.(stage := VisitingJobs, jobsListed := s.ticks, jobOrder := order, clean := p.clean && listed))
    case VisitJob(applied) =>
      Sampled(s, JobSample(s, applied)).(
        pass := p.(jobVisits := p.jobVisits + [Look(s.now, |s.executions|)], clean := p.clean && applied))
  }

  ghost function Next(s: State, step: Step): State
    requires Enabled(s, step)
  {
    Effect(s, step).(ticks := s.ticks + 1)
  }

  ghost function After(steps: seq<Step>): State
    requires Run(steps)
    decreases |steps|, 1
  {
    if steps == [] then Init else Next(After(steps[..|steps| - 1]), steps[|steps| - 1])
  }

  ghost predicate Run(steps: seq<Step>)
    decreases |steps|, 0
  {
    steps != [] ==> Run(steps[..|steps| - 1]) && Enabled(After(steps[..|steps| - 1]), steps[|steps| - 1])
  }

  lemma RunSnoc(steps: seq<Step>, step: Step)
    requires Run(steps) && Enabled(After(steps), step)
    ensures Run(steps + [step]) && After(steps + [step]) == Next(After(steps), step)
  {
    assert (steps + [step])[..|steps|] == steps;
  }

  lemma {:induction false} RunPrefix(steps: seq<Step>, k: nat)
    requires Run(steps) && k <= |steps|
    ensures Run(steps[..k])
  {
    if k == |steps| {
      assert steps[..k] == steps;
    } else {
      RunPrefix(steps[..|steps| - 1], k);
      assert steps[..|steps| - 1][..k] == steps[..k];
    }
  }

  // ---------------------------------------------------------------------- invariant

  ghost predicate Inv(s: State) {
    HostsOk(s.hosts, s.now) && s.alerts == ReconcileAll([], s.samples)
  }

  lemma StepKeepsInv(s: State, step: Step)
    requires Inv(s) && Enabled(s, step)
    ensures Inv(Next(s, step))
  {
    var s' := Next(s, step);
    forall id | id in s'.hosts ensures HostOk(s'.hosts[id], s'.now) {
      assert id in s.hosts ==> HostOk(s.hosts[id], s.now);
    }
    if step.VisitHost? || step.VisitJob? {
      assert s'.samples[..|s.samples|] == s.samples;
    }
  }

  lemma {:induction false} RunKeepsInv(steps: seq<Step>)
    requires Run(steps)
    ensures Inv(After(steps))
  {
    if steps != [] {
      RunKeepsInv(steps[..|steps| - 1]);
      StepKeepsInv(After(steps[..|steps| - 1]), steps[|steps| - 1]);
    }
  }

  // ------------------------------------------------------------------ the latest pass

  ghost predicate Differ(order: seq<int>) {
    forall i, j :: 0 <= i < j < |order| ==> order[i] != order[j]
  }

  /** What the statements of the pass have read so far. */
  ghost predicate PassOk(s: State) {
    var p := s.pass;
    && |p.hostVisits| <= |p.hostOrder| && |p.jobVisits| <= |p.jobOrder|
    && (p.stage == Marking ==> p.hostOrder == [])
    && (p.stage != VisitingJobs ==> p.jobOrder == [])
    && (p.stage == VisitingJobs ==> |p.hostVisits| == |p.hostOrder|)
    && HostsOk(p.rows, p.listedAt) && p.listedAt <= s.now
    && Differ(p.hostOrder) && Differ(p.jobOrder)
    && (forall i :: 0 <= i < |p.hostOrder| ==> p.hostOrder[i] in p.rows)
    && (forall i :: 0 <= i < |p.hostVisits| ==> p.listedAt <= p.hostVisits[i] <= s.now)
    && (forall i :: 0 <= i < |p.jobVisits| ==> p.jobVisits[i].at <= s.now && p.jobVisits[i].rows <= |s.executions|)
  }

  lemma StepKeepsPass(s: State, step: Step)
    requires Inv(s) && PassOk(s) && Enabled(s, step)
    ensures PassOk(Next(s, step))
  {
  }

  ghost predicate HostDecided(s: State, i: nat)
    requires PassOk(s) && i < |s.pass.hostVisits|
  {
    var id := s.pass.hostOrder[i];
    HasActive(s.alerts, StaleHeartbeat(id)) <==> Silent(s.pass.rows[id], s.pass.hostVisits[i])
  }

  ghost predicate JobDecided(s: State, i: nat)
    requires PassOk(s) && i < |s.pass.jobVisits|
  {
    var id, look := s.pass.jobOrder[i], s.pass.jobVisits[i];
    HasActive(s.alerts, RepeatedFailures(id)) <==>
      CountRecentFailures(s.executions[..look.rows], id, look.at) >= FAIL_THRESHOLD
  }

  ghost predicate Decided(s: State)
    requires PassOk(s)
  {
    s.pass.clean ==>
      && (forall i :: 0 <= i < |s.pass.hostVisits| ==> HostDecided(s, i))
      && (forall i :: 0 <= i < |s.pass.jobVisits| ==> JobDecided(s, i))
  }

  /** A visit sets the alert of its own key and no other. */
  lemma SampleDecides(s: State, sample: Sample)
    requires Inv(s) && sample.applied
    ensures HasActive(Sampled(s, sample).alerts, sample.key) <==> sample.holds
    ensures forall key :: key != sample.key ==> (HasActive(Sampled(s, sample).alerts, key) <==> HasActive(s.alerts, key))
  {
    RunsKeep(s.samples, 0);
    ReconcileKeeps(s.alerts, sample);
  }

  lemma StepKeepsHost(s: State, step: Step, i: nat)
    requires Inv(s) && PassOk(s) && Decided(s) && Enabled(s, step) && PassOk(Next(s, step))
    requires Next(s, step).pass.clean && i < |Next(s, step).pass.hostVisits|
    ensures HostDecided(Next(s, step), i)
  {
    var n := |s.pass.hostVisits|;
    assert s.pass.clean && i < n ==> HostDecided(s, i);
    if step.VisitHost? {
      SampleDecides(s, HostSample(s, step.applied));
      if i == n {
        assert HostOk(s.pass.rows[s.pass.hostOrder[n]], s.pass.listedAt);
      } else {
        assert s.pass.hostOrder[i] != s.pass.hostOrder[n];
      }
    } else if step.VisitJob? {
      SampleDecides(s, JobSample(s, step.applied));
    }
  }

  lemma StepKeepsJob(s: State, step: Step, i: nat)
    requires Inv(s) && PassOk(s) && Decided(s) && Enabled(s, step) && PassOk(Next(s, step))
    requires Next(s, step).pass.clean && i < |Next(s, step).pass.jobVisits|
    ensures JobDecided(Next(s, step), i)
  {
    var n := |s.pass.jobVisits|;
    assert s.pass.clean && i < n ==> JobDecided(s, i);
    if step.VisitJob? {
      SampleDecides(s, JobSample(s, step.applied));
      if i == n {
        assert s.executions[..|s.executions|] == s.executions;
      } else {
        assert s.pass.jobOrder[i] != s.pass.jobOrder[n];
      }
    } else if step.Record? {
      assert i < n ==> (s.executions + [step.execution])[..s.pass.jobVisits[i].rows] == s.executions[..s.pass.jobVisits[i].rows];
    }
  }

  lemma {:induction false} RunDecides(steps: seq<Step>)
    requires Run(steps)
    ensures Inv(After(steps)) && PassOk(After(steps)) && Decided(After(steps))
  {
    RunKeepsInv(steps);
    if steps != [] {
      var s, step := After(steps[..|steps| - 1]), steps[|steps| - 1];
      RunDecides(steps[..|steps| - 1]);
      StepKeepsPass(s, step);
      var s' := Next(s, step);
      if s'.pass.clean {
        forall i | 0 <= i < |s'.pass.hostVisits| ensures HostDecided(s', i) { StepKeepsHost(s, step, i); }
        forall i | 0 <= i < |s'.pass.jobVisits| ensures JobDecided(s', i) { StepKeepsJob(s, step, i); }
      }
    }
  }

  /** The pass remembers the step at which it listed the hosts, and what it found. */
  ghost predicate ListingOf(p: Pass, steps: seq<Step>)
    requires Run(steps)
  {
    p.clean && p.stage != Marking ==>
      && p.listed <= |steps| && Run(steps[..p.listed])
      && p.rows == After(steps[..p.listed]).hosts
      && p.listedAt == After(steps[..p.listed]).now
      && Lists(p.hostOrder, p.rows.Keys)
  }

  lemma {:induction false} ListingStays(p: Pass, steps: seq<Step>)
    requires Run(steps) && steps != [] && ListingOf(p, steps[..|steps| - 1])
    ensures ListingOf(p, steps)
  {
    if p.listed < |steps| {
      assert steps[..|steps| - 1][..p.listed] == steps[..p.listed];
    }
  }

  /** How a step changes what the pass remembers of its listing. */
  lemma SameListing(s: State, step: Step)
    requires Enabled(s, step) && !step.ListHosts?
    ensures var p, p' := s.pass, Next(s, step).pass;
            p'.clean && p'.stage != Marking ==>
              && p.clean && p.stage != Marking && p'.listed == p.listed && p'.rows == p.rows
              && p'.listedAt == p.listedAt && p'.hostOrder == p.hostOrder
  {
  }

  /** The same for its listing of the jobs. */
  ghost predicate JobListingOf(p: Pass, steps: seq<Step>)
    requires Run(steps)
  {
    p.clean && p.stage == VisitingJobs ==>
      && p.jobsListed <= |steps| && Run(steps[..p.jobsListed])
      && Lists(p.jobOrder, After(steps[..p.jobsListed]).jobs)
  }

  lemma {:induction false} JobListingStays(p: Pass, steps: seq<Step>)
    requires Run(steps) && steps != [] && JobListingOf(p, steps[..|steps| - 1])
    ensures JobListingOf(p, steps)
  {
    if p.jobsListed < |steps| {
      assert steps[..|steps| - 1][..p.jobsListed] == steps[..p.jobsListed];
    }
  }

  lemma SameJobListing(s: State, step: Step)
    requires Enabled(s, step) && !step.ListJobs?
    ensures var p, p' := s.pass, Next(s, step).pass;
            p'.clean && p'.stage == VisitingJobs ==>
              p.clean && p.stage == VisitingJobs && p'.jobsListed == p.jobsListed && p'.jobOrder == p.jobOrder
  {
  }

  lemma {:induction false} RunJobListing(steps: seq<Step>)
    requires Run(steps)
    ensures JobListingOf(After(steps).pass, steps)
  {
    if steps != [] {
      var n := |steps| - 1;
      RunJobListing(steps[..n]);
      RunListing(steps[..n]);
      if steps[n].ListJobs? {
        assert After(steps).pass.clean ==> Lists(steps[n].order, After(steps[..n]).jobs);
      } else {
        SameJobListing(After(steps[..n]), steps[n]);
        JobListingStays(After(steps[..n]).pass, steps);
      }
    }
  }

  lemma {:induction false} RunListing(steps: seq<Step>)
    requires Run(steps)
    ensures After(steps).ticks == |steps| && ListingOf(After(steps).pass, steps)
  {
    if steps != [] {
      var n := |steps| - 1;
      RunListing(steps[..n]);
      if steps[n].ListHosts? {
        assert After(steps).pass.clean ==> Lists(steps[n].order, After(steps[..n]).hosts.Keys);
      } else {
        SameListing(After(steps[..n]), steps[n]);
        ListingStays(After(steps[..n]).pass, steps);
      }
    }
  }

  // ---------------------------------------------------------------------- heartbeats

  ghost predicate Registered(steps: seq<Step>, id: HostId) {
    exists i :: 0 <= i < |steps| && steps[i] == Register(id)
  }

  /** When the last heartbeat of a registered host arrived; one sent before registration finds no row. */
  ghost function LastBeat(steps: seq<Step>, id: HostId): Option<Time>
    requires Run(steps)
  {
    if steps == [] then None
    else
      var n := |steps| - 1;
      if steps[n] == Beat(id) && Registered(steps[..n], id) then Some(After(steps[..n]).now)
      else LastBeat(steps[..n], id)
  }

  /** Step j is a heartbeat of a registered host, at time t. */
  ghost predicate BeatAt(steps: seq<Step>, j: nat, id: HostId, t: Time) {
    && j < |steps| && steps[j] == Beat(id) && Registered(steps[..j], id)
    && Run(steps[..j]) && After(steps[..j]).now == t
  }

  ghost predicate HasBeat(steps: seq<Step>, id: HostId, t: Time) {
    exists j: nat :: BeatAt(steps, j, id, t) && forall k: nat, u :: BeatAt(steps, k, id, u) ==> k <= j
  }

  lemma BeatAtSnoc(steps: seq<Step>, id: HostId, j: nat, t: Time)
    requires Run(steps) && steps != []
    ensures var front, n := steps[..|steps| - 1], |steps| - 1;
            BeatAt(steps, j, id, t) <==>
              BeatAt(front, j, id, t) || (j == n && steps[n] == Beat(id) && Registered(front, id) && After(front).now == t)
  {
    assert j < |steps| ==> steps[..|steps| - 1][..j] == steps[..j];
  }

  /** LastBeat is the time of the last heartbeat the host sent once registered, if it sent one. */
  lemma {:induction false} LastBeatIs(steps: seq<Step>, id: HostId)
    requires Run(steps)
    ensures LastBeat(steps, id).Some? ==> HasBeat(steps, id, LastBeat(steps, id).value)
    ensures LastBeat(steps, id).None? ==> forall j: nat, t :: !BeatAt(steps, j, id, t)
  {
    if steps != [] {
      var n := |steps| - 1;
      LastBeatIs(steps[..n], id);
      forall j: nat, t ensures BeatAt(steps, j, id, t) <==> BeatAt(steps[..n], j, id, t) || (BeatAt(steps, j, id, t) && j == n) {
        BeatAtSnoc(steps, id, j, t);
      }
      if steps[n] == Beat(id) && Registered(steps[..n], id) {
        BeatAtSnoc(steps, id, n, After(steps[..n]).now);
      } else {
        forall t ensures !BeatAt(steps, n, id, t) { BeatAtSnoc(steps, id, n, t); }
        if j: nat, t :| LastBeat(steps, id) == Some(t) && BeatAt(steps[..n], j, id, t)
                        && forall k: nat, u :: BeatAt(steps[..n], k, id, u) ==> k <= j {
          assert BeatAt(steps, j, id, t);
        }
      }
    }
  }

  lemma RegisteredSnoc(steps: seq<Step>, id: HostId)
    requires steps != []
    ensures Registered(steps, id) <==> Registered(steps[..|steps| - 1], id) || steps[|steps| - 1] == Register(id)
  {
    var n := |steps| - 1;
    if i :| 0 <= i < n && steps[..n][i] == Register(id) {
      assert steps[i] == Register(id);
    }
    if i :| 0 <= i < |steps| && steps[i] == Register(id) {
      assert i < n ==> steps[..n][i] == Register(id);
    }
  }

  /** Over every run the table holds the registered hosts, each with the time of its latest heartbeat. */
  lemma {:induction false} HostsAreHistory(steps: seq<Step>, id: HostId)
    requires Run(steps)
    ensures id in After(steps).hosts <==> Registered(steps, id)
    ensures id in After(steps).hosts ==> After(steps).hosts[id].lastHeartbeat == LastBeat(steps, id)
    ensures id !in After(steps).hosts ==> LastBeat(steps, id) == None
  {
    if steps != [] {
      HostsAreHistory(steps[..|steps| - 1], id);
      RegisteredSnoc(steps, id);
    }
  }

  /** More than five minutes before t, the host sent its latest heartbeat. */
  ghost predicate WentSilent(steps: seq<Step>, id: HostId, t: Time)
    requires Run(steps)
  {
    LastBeat(steps, id).Some? && t - LastBeat(steps, id).value > 300_000_000
  }

  /** Over every run, a host is unknown exactly until its first heartbeat, and stale only after five silent minutes. */
  lemma {:induction false} StatusIsHeartbeat(steps: seq<Step>, id: HostId)
    requires Run(steps) && id in After(steps).hosts
    ensures var h := After(steps).hosts[id];
            && (h.status == Unknown <==> LastBeat(steps, id) == None)
            && (h.status == Stale ==> WentSilent(steps, id, After(steps).now))
            && h.status != Offline
  {
    RunKeepsInv(steps);
    HostsAreHistory(steps, id);
    assert HostOk(After(steps).hosts[id], After(steps).now);
  }

  /**
   The update that opens a pass marks exactly the hosts that have gone silent: a host
   is stale afterwards if it was before, or if it is active and silent for more than
   five minutes. No heartbeat is forgotten and no other status changes.
   */
  lemma {:induction false} PassMarksSilent(steps: seq<Step>, id: HostId)
    requires Run(steps) && Finished(After(steps).pass) && Registered(steps, id)
    ensures id in After(steps).hosts && id in Next(After(steps), BeginPass(true)).hosts
    ensures var h := After(steps).hosts[id]; var h' := Next(After(steps), BeginPass(true)).hosts[id];
            && h'.lastHeartbeat == h.lastHeartbeat
            && (h'.status == Stale <==> h.status == Stale || (h.status == Active && WentSilent(steps, id, After(steps).now)))
            && (h'.status != Stale ==> h'.status == h.status)
  {
    RunKeepsInv(steps);
    HostsAreHistory(steps, id);
    assert HostOk(After(steps).hosts[id], After(steps).now);
  }

  /** Step j opens a pass that finds the host silent. */
  ghost predicate MarkAt(steps: seq<Step>, j: nat, id: HostId) {
    j < |steps| && steps[j] == BeginPass(true) && Run(steps[..j]) && WentSilent(steps[..j], id, After(steps[..j]).now)
  }

  /** ... and the host sends no heartbeat after it. */
  ghost predicate LastMark(steps: seq<Step>, j: nat, id: HostId) {
    MarkAt(steps, j, id) && forall k :: j < k < |steps| ==> steps[k] != Beat(id)
  }

  ghost predicate MarkedSince(steps: seq<Step>, id: HostId) {
    exists j: nat :: LastMark(steps, j, id)
  }

  lemma LastMarkSnoc(steps: seq<Step>, j: nat, id: HostId)
    requires j < |steps| - 1
    ensures var n := |steps| - 1; LastMark(steps, j, id) <==> LastMark(steps[..n], j, id) && steps[n] != Beat(id)
  {
    assert steps[..|steps| - 1][..j] == steps[..j];
  }

  lemma MarkedSnoc(steps: seq<Step>, id: HostId)
    requires steps != []
    ensures var n := |steps| - 1;
            MarkedSince(steps, id) <==> MarkAt(steps, n, id) || (steps[n] != Beat(id) && MarkedSince(steps[..n], id))
  {
    var n := |steps| - 1;
    forall j: nat | j < n ensures LastMark(steps, j, id) <==> LastMark(steps[..n], j, id) && steps[n] != Beat(id) {
      LastMarkSnoc(steps, j, id);
    }
    assert LastMark(steps, n, id) <==> MarkAt(steps, n, id);
    assert forall j: nat :: LastMark(steps, j, id) ==> j <= n;
    assert forall j: nat :: LastMark(steps[..n], j, id) ==> j < n;
  }

  lemma {:induction false} MarkedIsRegistered(steps: seq<Step>, id: HostId)
    requires Run(steps) && MarkedSince(steps, id)
    ensures Registered(steps, id)
  {
    var j: nat :| LastMark(steps, j, id);
    HostsAreHistory(steps[..j], id);
    StaysRegistered(steps, j, id);
  }

  /** Over every run a host is stale exactly if some pass has found it silent and it has sent no heartbeat since. */
  lemma {:induction false} StaleIsMarked(steps: seq<Step>, id: HostId)
    requires Run(steps) && Registered(steps, id)
    ensures id in After(steps).hosts
    ensures After(steps).hosts[id].status == Stale <==> MarkedSince(steps, id)
  {
    var n := |steps| - 1;
    var front := steps[..n];
    HostsAreHistory(steps, id);
    HostsAreHistory(front, id);
    RegisteredSnoc(steps, id);
    MarkedSnoc(steps, id);
    if Registered(front, id) {
      StaleIsMarked(front, id);
      MarkStep(front, steps[n], id);
    } else if MarkedSince(front, id) {
      MarkedIsRegistered(front, id);
    }
  }

  lemma {:induction false} MarkStep(steps: seq<Step>, step: Step, id: HostId)
    requires Run(steps) && Enabled(After(steps), step) && id in After(steps).hosts && Registered(steps, id)
    ensures id in Next(After(steps), step).hosts
    ensures Next(After(steps), step).hosts[id].status == Stale <==>
              || (After(steps).hosts[id].status == Stale && step != Beat(id))
              || (step == BeginPass(true) && WentSilent(steps, id, After(steps).now))
  {
    StatusIsHeartbeat(steps, id);
    if step == BeginPass(true) {
      PassMarksSilent(steps, id);
    }
  }

  // ------------------------------------------------------------------- what a pass decides

  /**
   In every reachable state, whatever happened between the statements of the latest
   pass: if nothing in it has failed, each host it has visited has an active stale
   alert exactly when, as of the listing, it had sent a heartbeat and the latest was
   more than five minutes older than the visit.
   */
  lemma {:induction false} PassDecidesHosts(steps: seq<Step>, i: nat)
    requires Run(steps) && After(steps).pass.clean && i < |After(steps).pass.hostVisits|
    ensures var p := After(steps).pass;
            && i < |p.hostOrder| && p.listed <= |steps| && Run(steps[..p.listed])
            && Registered(steps[..p.listed], p.hostOrder[i])
            && After(steps[..p.listed]).now <= p.hostVisits[i] <= After(steps).now
            && (HasActive(After(steps).alerts, StaleHeartbeat(p.hostOrder[i])) <==>
                  WentSilent(steps[..p.listed], p.hostOrder[i], p.hostVisits[i]))
  {
    RunDecides(steps);
    RunListing(steps);
    var p := After(steps).pass;
    HostsAreHistory(steps[..p.listed], p.hostOrder[i]);
    assert HostDecided(After(steps), i);
  }

  /** ... and it visits every host registered by then before it turns to the jobs. */
  lemma {:induction false} PassVisitsAll(steps: seq<Step>, id: HostId)
    requires Run(steps) && After(steps).pass.clean && After(steps).pass.stage == VisitingJobs
    ensures var p := After(steps).pass;
            && p.listed <= |steps| && Run(steps[..p.listed])
            && (Registered(steps[..p.listed], id) ==>
                  exists i :: 0 <= i < |p.hostOrder| && p.hostOrder[i] == id && i < |p.hostVisits|)
  {
    RunDecides(steps);
    RunListing(steps);
    var p := After(steps).pass;
    HostsAreHistory(steps[..p.listed], id);
    if id in p.hostOrder {
      var i :| 0 <= i < |p.hostOrder| && p.hostOrder[i] == id;
      assert i < |p.hostVisits|;
    }
  }

  /** Likewise each visited job has an active alert exactly when it had failed three times in the day before the visit. */
  lemma {:induction false} PassDecidesJobs(steps: seq<Step>, i: nat)
    requires Run(steps) && After(steps).pass.clean && i < |After(steps).pass.jobVisits|
    ensures var s := After(steps); var p := s.pass;
            && i < |p.jobOrder| && p.jobVisits[i].rows <= |s.executions| && p.jobVisits[i].at <= s.now
            && (HasActive(s.alerts, RepeatedFailures(p.jobOrder[i])) <==>
                  |RecentFailureRows(s.executions[..p.jobVisits[i].rows], p.jobOrder[i], p.jobVisits[i].at)| >= 3)
  {
    RunDecides(steps);
    var p := After(steps).pass;
    CountsRecentFailures(After(steps).executions[..p.jobVisits[i].rows], p.jobOrder[i], p.jobVisits[i].at);
    assert JobDecided(After(steps), i);
  }

  ghost predicate Known(steps: seq<Step>, job: JobId) {
    exists i :: 0 <= i < |steps| && steps[i] == AddJob(job)
  }

  lemma KnownSnoc(steps: seq<Step>, job: JobId)
    requires steps != []
    ensures Known(steps, job) <==> Known(steps[..|steps| - 1], job) || steps[|steps| - 1] == AddJob(job)
  {
    var n := |steps| - 1;
    if i :| 0 <= i < n && steps[..n][i] == AddJob(job) {
      assert steps[i] == AddJob(job);
    }
    if i :| 0 <= i < |steps| && steps[i] == AddJob(job) {
      assert i < n ==> steps[..n][i] == AddJob(job);
    }
  }

  lemma {:induction false} JobsAreHistory(steps: seq<Step>, job: JobId)
    requires Run(steps)
    ensures job in After(steps).jobs <==> Known(steps, job)
  {
    if steps != [] {
      JobsAreHistory(steps[..|steps| - 1], job);
      KnownSnoc(steps, job);
    }
  }

  /** A finished pass in which nothing failed has visited every job known when it listed the jobs. */
  lemma {:induction false} PassVisitsAllJobs(steps: seq<Step>, job: JobId)
    requires Run(steps) && After(steps).pass.clean && Finished(After(steps).pass)
    ensures var p := After(steps).pass;
            && p.jobsListed <= |steps| && Run(steps[..p.jobsListed])
            && (Known(steps[..p.jobsListed], job) ==>
                  exists i :: 0 <= i < |p.jobOrder| && p.jobOrder[i] == job && i < |p.jobVisits|)
  {
    RunJobListing(steps);
    var p := After(steps).pass;
    JobsAreHistory(steps[..p.jobsListed], job);
    if job in p.jobOrder {
      var i :| 0 <= i < |p.jobOrder| && p.jobOrder[i] == job;
      assert i < |p.jobVisits|;
    }
  }

  /** Step j is a heartbeat of the host at or after time t. */
  ghost predicate IsBeat(steps: seq<Step>, j: nat, id: HostId, t: Time)
    requires j < |steps|
  {
    steps[j] == Beat(id) && Run(steps[..j]) && After(steps[..j]).now >= t
  }

  /** A heartbeat at or after time t since the first k steps. */
  ghost predicate BeatSince(steps: seq<Step>, k: nat, id: HostId, t: Time) {
    exists j :: k <= j < |steps| && IsBeat(steps, j, id, t)
  }

  lemma {:induction false} SameBeat(steps: seq<Step>, j: nat, id: HostId, t: Time)
    requires j < |steps| - 1
    ensures IsBeat(steps, j, id, t) <==> IsBeat(steps[..|steps| - 1], j, id, t)
  {
    assert steps[..|steps| - 1][..j] == steps[..j];
  }

  lemma {:induction false} BeatSinceSnoc(steps: seq<Step>, k: nat, id: HostId, t: Time)
    requires k < |steps|
    ensures var n := |steps| - 1;
            BeatSince(steps, k, id, t) <==> BeatSince(steps[..n], k, id, t) || IsBeat(steps, n, id, t)
  {
    var n := |steps| - 1;
    forall j: nat | j < n ensures IsBeat(steps, j, id, t) <==> IsBeat(steps[..n], j, id, t) {
      SameBeat(steps, j, id, t);
    }
    if j: nat :| k <= j < n && IsBeat(steps[..n], j, id, t) {
      assert IsBeat(steps, j, id, t);
    }
  }

  lemma {:induction false} StaysRegistered(steps: seq<Step>, k: nat, id: HostId)
    requires k <= |steps| && Registered(steps[..k], id)
    ensures Registered(steps, id)
  {
    var i :| 0 <= i < k && steps[..k][i] == Register(id);
    assert steps[i] == Register(id);
  }

  /** A host that was silent when listed is no longer silent, measured at t, exactly if a heartbeat at most five minutes before t has come since. */
  lemma {:induction false} SilenceEnds(steps: seq<Step>, k: nat, id: HostId, t: Time)
    requires Run(steps) && k <= |steps| && Run(steps[..k]) && Registered(steps[..k], id)
    ensures LastBeat(steps[..k], id).Some? ==> LastBeat(steps, id).Some?
    ensures LastBeat(steps, id).Some? ==> LastBeat(steps, id).value <= After(steps).now
    ensures LastBeat(steps[..k], id).Some? ==> LastBeat(steps[..k], id).value <= LastBeat(steps, id).value
    ensures WentSilent(steps[..k], id, t) ==> (WentSilent(steps, id, t) <==> !BeatSince(steps, k, id, t - 300_000_000))
    ensures WentSilent(steps, id, t) && LastBeat(steps[..k], id).Some? ==> WentSilent(steps[..k], id, t)
    decreases |steps|
  {
    RunKeepsInv(steps);
    HostsAreHistory(steps, id);
    if id in After(steps).hosts {
      assert HostOk(After(steps).hosts[id], After(steps).now);
    }
    if k == |steps| {
      assert steps[..k] == steps;
    } else {
      var n := |steps| - 1;
      assert steps[..n][..k] == steps[..k];
      SilenceEnds(steps[..n], k, id, t);
      StaysRegistered(steps[..n], k, id);
      BeatSinceSnoc(steps, k, id, t - 300_000_000);
    }
  }

  /** Some heartbeat since the first k steps. */
  ghost predicate BeatAfter(steps: seq<Step>, k: nat, id: HostId) {
    exists j :: k <= j < |steps| && steps[j] == Beat(id)
  }

  lemma BeatAfterSnoc(steps: seq<Step>, k: nat, id: HostId)
    requires k < |steps|
    ensures var n := |steps| - 1; BeatAfter(steps, k, id) <==> BeatAfter(steps[..n], k, id) || steps[n] == Beat(id)
  {
    var n := |steps| - 1;
    if j :| k <= j < n && steps[..n][j] == Beat(id) {
      assert steps[j] == Beat(id);
    }
    if j :| k <= j < |steps| && steps[j] == Beat(id) {
      assert j < n ==> steps[..n][j] == Beat(id);
    }
  }

  /** A host that had sent nothing when listed is silent, measured at t, exactly if it has sent a heartbeat since, but none at most five minutes before t. */
  lemma {:induction false} SilenceBegins(steps: seq<Step>, k: nat, id: HostId, t: Time)
    requires Run(steps) && k <= |steps| && Run(steps[..k])
    requires Registered(steps[..k], id) && LastBeat(steps[..k], id) == None
    ensures LastBeat(steps, id).Some? <==> BeatAfter(steps, k, id)
    ensures WentSilent(steps, id, t) <==> BeatAfter(steps, k, id) && !BeatSince(steps, k, id, t - 300_000_000)
    decreases |steps|
  {
    if k == |steps| {
      assert steps[..k] == steps;
    } else {
      var n := |steps| - 1;
      assert steps[..n][..k] == steps[..k];
      SilenceBegins(steps[..n], k, id, t);
      StaysRegistered(steps[..n], k, id);
      BeatAfterSnoc(steps, k, id);
      BeatSinceSnoc(steps, k, id, t - 300_000_000);
      RunKeepsInv(steps[..n]);
      HostsAreHistory(steps[..n], id);
      assert HostOk(After(steps[..n]).hosts[id], After(steps[..n]).now);
    }
  }

  /**
   Measured against the latest heartbeat of all, the alert of a visited host can be
   wrong in two ways. It is active although the host is not silent, exactly if the
   host was silent when listed and has sent a heartbeat since, no more than five
   minutes before the visit.
   */
  lemma {:induction false} AlertOutlivesSilence(steps: seq<Step>, i: nat, id: HostId, t: Time, k: nat)
    requires Run(steps) && After(steps).pass.clean && i < |After(steps).pass.hostVisits|
    requires var p := After(steps).pass; i < |p.hostOrder| && id == p.hostOrder[i] && t == p.hostVisits[i] && k == p.listed
    ensures k <= |steps| && Run(steps[..k])
    ensures HasActive(After(steps).alerts, StaleHeartbeat(id)) && !WentSilent(steps, id, t) <==>
              WentSilent(steps[..k], id, t) && BeatSince(steps, k, id, t - 300_000_000)
  {
    PassDecidesHosts(steps, i);
    SilenceEnds(steps, k, id, t);
  }

  /**
   It is missing although the host is silent, exactly if the host had sent nothing
   when listed and has sent a heartbeat since, but none at most five minutes before
   the visit or later.
   */
  lemma {:induction false} AlertMissesSilence(steps: seq<Step>, i: nat, id: HostId, t: Time, k: nat)
    requires Run(steps) && After(steps).pass.clean && i < |After(steps).pass.hostVisits|
    requires var p := After(steps).pass; i < |p.hostOrder| && id == p.hostOrder[i] && t == p.hostVisits[i] && k == p.listed
    ensures k <= |steps| && Run(steps[..k])
    ensures !HasActive(After(steps).alerts, StaleHeartbeat(id)) && WentSilent(steps, id, t) <==>
              && LastBeat(steps[..k], id) == None
              && BeatAfter(steps, k, id) && !BeatSince(steps, k, id, t - 300_000_000)
  {
    PassDecidesHosts(steps, i);
    if LastBeat(steps[..k], id) == None {
      SilenceBegins(steps, k, id, t);
    } else {
      SilenceEnds(steps, k, id, t);
    }
  }

  /** Over every run, faults included: one active alert per target and rule at most, and resolved ones are final. */
  lemma {:induction false} AlertsStayUnique(steps: seq<Step>, step: Step)
    requires Run(steps) && Enabled(After(steps), step)
    ensures Alerts.Inv(Next(After(steps), step).alerts)
    ensures Extends(After(steps).alerts, Next(After(steps), step).alerts)
  {
    RunKeepsInv(steps);
    var s := After(steps);
    RunsKeep(s.samples, |s.samples|);
    StepKeepsInv(s, step);
    var s' := Next(s, step);
    RunsKeep(s'.samples, |s.samples|);
    assert s'.samples[..|s.samples|] == s.samples;
    assert s.samples[..|s.samples|] == s.samples;
  }

  ghost predicate FaultFree(step: Step) {
    (step.VisitHost? || step.VisitJob?) ==> step.applied
  }

  /** Over runs in which no visit fails the alert rows of a key count the false-to-true edges of its samples. */
  lemma {:induction false} RunRowsAreEdges(steps: seq<Step>, key: Key)
    requires Run(steps) && forall i :: 0 <= i < |steps| ==> FaultFree(steps[i])
    ensures Rows(After(steps).alerts, key) == Edges(After(steps).samples, key)
  {
    RunKeepsInv(steps);
    SamplesApplied(steps);
    RowsAreEdges(After(steps).samples, key);
  }

  /** Every alert row comes from a stretch of samples of its target that held, at whose ends it was triggered and resolved. */
  lemma {:induction false} RunRowsAreStays(steps: seq<Step>, r: nat)
    requires Run(steps) && r < |After(steps).alerts|
    ensures HasStay(After(steps).samples, After(steps).alerts[r])
  {
    RunKeepsInv(steps);
    RowsAreStays(After(steps).samples);
  }

  lemma {:induction false} SamplesApplied(steps: seq<Step>)
    requires Run(steps) && forall i :: 0 <= i < |steps| ==> FaultFree(steps[i])
    ensures forall i :: 0 <= i < |After(steps).samples| ==> After(steps).samples[i].applied
  {
    if steps != [] {
      SamplesApplied(steps[..|steps| - 1]);
      assert FaultFree(steps[|steps| - 1]);
    }
  }

  // ------------------------------------------------------------- the evaluator's methods

  function IdsOf(visits: seq<Visit>): (ids: seq<int>)
    ensures |ids| == |visits| && forall i :: 0 <= i < |visits| ==> ids[i] == visits[i].id
  {
    seq(|visits|, i requires 0 <= i < |visits| => visits[i].id)
  }

  ghost predicate Ascending(from: Time, visits: seq<Visit>) {
    && (forall i :: 0 <= i < |visits| ==> visits[i].at >= from)
    && forall i, j :: 0 <= i < j < |visits| ==> visits[i].at <= visits[j].at
  }

  /** Both steps can be taken, one after the other. */
  ghost predicate Leads(s: State, a: Step, b: Step) {
    Enabled(s, a) && Enabled(Next(s, a), b)
  }

  ghost function Two(s: State, a: Step, b: Step): State
    requires Leads(s, a, b)
  {
    Next(Next(s, a), b)
  }

  lemma {:induction false} RunTwo(steps: seq<Step>, a: Step, b: Step)
    requires Run(steps) && Leads(After(steps), a, b)
    ensures Run(steps + [a, b]) && After(steps + [a, b]) == Two(After(steps), a, b)
  {
    RunSnoc(steps, a);
    RunSnoc(steps + [a], b);
    assert steps + [a] + [b] == steps + [a, b];
  }

  /** A loop that takes two steps in each turn, with its invariant. */
  lemma {:induction false} RunLoop(steps: seq<Step>, n: nat, a: nat -> Step, b: nat -> Step, ok: (nat, State) -> bool)
    returns (r: seq<Step>)
    requires Run(steps) && ok(0, After(steps))
    requires forall k: nat, s :: k < n && ok(k, s) ==> Leads(s, a(k), b(k)) && ok(k + 1, Two(s, a(k), b(k)))
    ensures Run(r) && steps <= r && ok(n, After(r))
  {
    r := steps;
    if n > 0 {
      var front := RunLoop(steps, n - 1, a, b, ok);
      RunTwo(front, a(n - 1), b(n - 1));
      r := front + [a(n - 1), b(n - 1)];
    }
  }

  /** How far the host loop that started in s has come after n visits. */
  ghost predicate HostLoop(s: State, visits: seq<Visit>, n: nat, r: State)
    requires n <= |visits| && forall i :: 0 <= i < |visits| ==> visits[i].id in s.pass.rows
  {
    && r.pass.stage == VisitingHosts && r.pass.hostOrder == IdsOf(visits) && |r.pass.hostVisits| == n
    && r.pass.rows == s.pass.rows && r.hosts == s.hosts && r.executions == s.executions && r.jobs == s.jobs
    && r.now == (if n == 0 then s.now else visits[n - 1].at)
    && r.alerts == ReconcileAll(s.alerts, HostSamples(s.pass.rows, visits)[..n])
  }

  lemma HostLoopStep(s: State, visits: seq<Visit>, n: nat, r: State)
    requires forall i :: 0 <= i < |visits| ==> visits[i].id in s.pass.rows
    requires n < |visits| && Ascending(s.now, visits) && HostLoop(s, visits, n, r)
    ensures var a, b := Advance(visits[n].at), VisitHost(visits[n].applied);
            Leads(r, a, b) && HostLoop(s, visits, n + 1, Two(r, a, b))
  {
    ReconcileSnoc(s.alerts, HostSamples(s.pass.rows, visits), n);
  }

  lemma {:induction false} VisitHosts(steps: seq<Step>, visits: seq<Visit>) returns (r: seq<Step>)
    requires Run(steps) && Ascending(After(steps).now, visits)
    requires forall i :: 0 <= i < |visits| ==> visits[i].id in After(steps).pass.rows
    requires HostLoop(After(steps), visits, 0, After(steps))
    ensures Run(r) && steps <= r && HostLoop(After(steps), visits, |visits|, After(r))
  {
    var s := After(steps);
    var ok := (n: nat, t: State) => n <= |visits| && HostLoop(s, visits, n, t);
    var a := (n: nat) => Advance(if n < |visits| then visits[n].at else 0);
    var b := (n: nat) => VisitHost(n < |visits| && visits[n].applied);
    forall n: nat, t | n < |visits| && ok(n, t) ensures Leads(t, a(n), b(n)) && ok(n + 1, Two(t, a(n), b(n))) {
      HostLoopStep(s, visits, n, t);
    }
    r := RunLoop(steps, |visits|, a, b, ok);
  }

  /** The same for the job loop. */
  ghost predicate JobLoop(s: State, visits: seq<Visit>, n: nat, r: State)
    requires n <= |visits|
  {
    && r.pass.stage == VisitingJobs && r.pass.jobOrder == IdsOf(visits) && |r.pass.jobVisits| == n
    && r.hosts == s.hosts && r.executions == s.executions
    && r.now == (if n == 0 then s.now else visits[n - 1].at)
    && r.alerts == ReconcileAll(s.alerts, JobSamples(s.executions, visits)[..n])
  }

  lemma JobLoopStep(s: State, visits: seq<Visit>, n: nat, r: State)
    requires n < |visits| && Ascending(s.now, visits) && JobLoop(s, visits, n, r)
    ensures var a, b := Advance(visits[n].at), VisitJob(visits[n].applied);
            Leads(r, a, b) && JobLoop(s, visits, n + 1, Two(r, a, b))
  {
    ReconcileSnoc(s.alerts, JobSamples(s.executions, visits), n);
  }

  lemma {:induction false} VisitJobs(steps: seq<Step>, visits: seq<Visit>) returns (r: seq<Step>)
    requires Run(steps) && Ascending(After(steps).now, visits)
    requires JobLoop(After(steps), visits, 0, After(steps))
    ensures Run(r) && steps <= r && JobLoop(After(steps), visits, |visits|, After(r))
  {
    var s := After(steps);
    var ok := (n: nat, t: State) => n <= |visits| && JobLoop(s, visits, n, t);
    var a := (n: nat) => Advance(if n < |visits| then visits[n].at else 0);
    var b := (n: nat) => VisitJob(n < |visits| && visits[n].applied);
    forall n: nat, t | n < |visits| && ok(n, t) ensures Leads(t, a(n), b(n)) && ok(n + 1, Two(t, a(n), b(n))) {
      JobLoopStep(s, visits, n, t);
    }
    r := RunLoop(steps, |visits|, a, b, ok);
  }

  /** The visits to a table: all its rows, or none when marking or listing fails. */
  ghost predicate Visits(visits: seq<Visit>, ids: set<int>) {
    visits == [] || Lists(IdsOf(visits), ids)
  }

  lemma VisitsInTable(visits: seq<Visit>, ids: set<int>)
    requires Visits(visits, ids)
    ensures forall i :: 0 <= i < |visits| ==> visits[i].id in ids
  {
    forall i | 0 <= i < |visits| ensures visits[i].id in ids { assert IdsOf(visits)[i] in ids; }
  }

  lemma HostLoopStarts(s: State, visits: seq<Visit>)
    requires Finished(s.pass) && Visits(visits, s.hosts.Keys)
    requires forall i :: 0 <= i < |visits| ==> visits[i].id in s.hosts
    ensures var begin, list := BeginPass(true), ListHosts(IdsOf(visits), visits != []);
            && Leads(s, begin, list)
            && var t := Two(s, begin, list);
               && t.pass.rows == t.hosts == MarkStale(s.hosts, s.now)
               && t.now == s.now && t.jobs == s.jobs && t.executions == s.executions && t.alerts == s.alerts
               && HostLoop(t, visits, 0, t)
  {
    assert HostSamples(MarkStale(s.hosts, s.now), visits)[..0] == [];
    assert MarkStale(s.hosts, s.now).Keys == s.hosts.Keys;
  }

  /** What checkStaleHeartbeats leaves behind. */
  ghost predicate HostsDone(s: State, marked: bool, visits: seq<Visit>, t: State)
    requires forall i :: 0 <= i < |visits| ==> visits[i].id in s.hosts
  {
    && t.pass.stage == VisitingHosts && |t.pass.hostVisits| == |t.pass.hostOrder|
    && t.jobs == s.jobs && t.executions == s.executions
    && t.now == (if marked && visits != [] then visits[|visits| - 1].at else s.now)
    && t.hosts == (if marked then MarkStale(s.hosts, s.now) else s.hosts)
    && t.alerts == if marked then ReconcileAll(s.alerts, HostSamples(MarkStale(s.hosts, s.now), visits)) else s.alerts
  }

  lemma HostLoopEnds(s: State, start: State, visits: seq<Visit>, t: State)
    requires forall i :: 0 <= i < |visits| ==> visits[i].id in s.hosts
    requires start.pass.rows == start.hosts == MarkStale(s.hosts, s.now)
    requires start.now == s.now && start.jobs == s.jobs && start.executions == s.executions && start.alerts == s.alerts
    requires HostLoop(start, visits, |visits|, t)
    ensures HostsDone(s, true, visits, t)
  {
    var samples := HostSamples(MarkStale(s.hosts, s.now), visits);
    assert samples[..|visits|] == samples;
  }

  /** checkStaleHeartbeats up to the end of its loop, as steps. */
  lemma {:induction false} HostsAsRun(steps: seq<Step>, marked: bool, visits: seq<Visit>) returns (r: seq<Step>)
    requires Run(steps) && Finished(After(steps).pass)
    requires Ascending(After(steps).now, visits) && Visits(visits, After(steps).hosts.Keys)
    ensures Run(r) && steps <= r
    ensures forall i :: 0 <= i < |visits| ==> visits[i].id in After(steps).hosts
    ensures HostsDone(After(steps), marked, visits, After(r))
  {
    var s := After(steps);
    VisitsInTable(visits, s.hosts.Keys);
    if marked {
      var begin, list := BeginPass(true), ListHosts(IdsOf(visits), visits != []);
      HostLoopStarts(s, visits);
      RunTwo(steps, begin, list);
      var start := steps + [begin, list];
      r := VisitHosts(start, visits);
      HostLoopEnds(s, After(start), visits, After(r));
    } else {
      RunSnoc(steps, BeginPass(false));
      r := steps + [BeginPass(false)];
    }
  }

  /** checkRepeatedFailures, as steps. */
  lemma {:induction false} JobsAsRun(steps: seq<Step>, visits: seq<Visit>) returns (r: seq<Step>)
    requires Run(steps) && After(steps).pass.stage == VisitingHosts
    requires |After(steps).pass.hostVisits| == |After(steps).pass.hostOrder| && After(steps).pass.jobVisits == []
    requires Ascending(After(steps).now, visits) && Visits(visits, After(steps).jobs)
    ensures Run(r) && steps <= r && Finished(After(r).pass)
    ensures After(r).hosts == After(steps).hosts && After(r).executions == After(steps).executions
    ensures After(r).alerts == ReconcileAll(After(steps).alerts, JobSamples(After(steps).executions, visits))
  {
    var list := ListJobs(IdsOf(visits), visits != []);
    RunSnoc(steps, list);
    var start := steps + [list];
    var samples := JobSamples(After(steps).executions, visits);
    assert samples[..0] == [];
    r := VisitJobs(start, visits);
    assert samples[..|visits|] == samples;
  }

  lemma AscendingParts(from: Time, a: seq<Visit>, b: seq<Visit>)
    requires Ascending(from, a + b)
    ensures Ascending(from, a) && Ascending(from, b)
    ensures a != [] ==> Ascending(a[|a| - 1].at, b)
  {
    assert forall i :: 0 <= i < |a| ==> a[i] == (a + b)[i];
    assert forall i :: 0 <= i < |b| ==> b[i] == (a + b)[|a| + i];
  }

  /**
   What the evaluator's RunAll does to the tables, undisturbed, is what a run of the
   machine does, from every reachable state in which no pass is under way: hosts
   and alerts end up the same, whether marking and listing succeed or not.
   */
  lemma {:induction false} RunAllIsRun(steps: seq<Step>, marked: bool, hostVisits: seq<Visit>, jobVisits: seq<Visit>)
    returns (r: seq<Step>)
    requires Run(steps) && Finished(After(steps).pass)
    requires Ascending(After(steps).now, hostVisits + jobVisits)
    requires Visits(hostVisits, After(steps).hosts.Keys) && Visits(jobVisits, After(steps).jobs)
    ensures Run(r) && steps <= r && Finished(After(r).pass)
    ensures var s, t := After(steps), After(r);
            && (forall i :: 0 <= i < |hostVisits| ==> hostVisits[i].id in s.hosts)
            && t.executions == s.executions
            && t.hosts == (if marked then MarkStale(s.hosts, s.now) else s.hosts)
            && t.alerts == ReconcileAll(
                 if marked then ReconcileAll(s.alerts, HostSamples(t.hosts, hostVisits)) else s.alerts,
                 JobSamples(s.executions, jobVisits))
  {
    AscendingParts(After(steps).now, hostVisits, jobVisits);
    var mid := HostsAsRun(steps, marked, hostVisits);
    RunDecides(mid);
    r := JobsAsRun(mid, jobVisits);
  }

  // ------------------------------------------------------------------ a heartbeat too late

  /** A host that sent one heartbeat at time 0 and has been silent for six minutes. */
  lemma {:induction false} SilentHost() returns (steps: seq<Step>)
    ensures Run(steps)
    ensures After(steps) == Init.(ticks := 3, now := 360_000_000, hosts := map[1 := Host(Active, Some(0))])
  {
    RunTwo([], Register(1), Beat(1));
    assert [] + [Register(1), Beat(1)] == [Register(1), Beat(1)];
    RunSnoc([Register(1), Beat(1)], Advance(360_000_000));
    steps := [Register(1), Beat(1)] + [Advance(360_000_000)];
    assert After(steps).hosts == map[1 := Host(Active, Some(0))];
  }

  /** A pass marks it stale and lists it. */
  lemma {:induction false} SilentHostListed() returns (steps: seq<Step>)
    ensures Run(steps)
    ensures var s := After(steps);
            && s.now == 360_000_000 && s.alerts == [] && s.hosts == map[1 := Host(Stale, Some(0))]
            && s.pass == Pass(VisitingHosts, 4, s.now, s.hosts, [1], [], 0, [], [], true)
  {
    var a := SilentHost();
    var stale := map[1 := Host(Stale, Some(0))];
    assert MarkStale(After(a).hosts, 360_000_000) == stale;
    assert stale.Keys == {1};
    assert Lists([1], stale.Keys);
    RunTwo(a, BeginPass(true), ListHosts([1], true));
    steps := a + [BeginPass(true), ListHosts([1], true)];
  }

  /**
   The race is real: a pass lists a silent host, the host sends a heartbeat, and the
   visit raises an alert for a host that is active, with a heartbeat of that moment.
   */
  lemma {:induction false} LateBeatIsAlerted() returns (steps: seq<Step>)
    ensures Run(steps) && After(steps).pass.clean && 1 in After(steps).hosts
    ensures HasActive(After(steps).alerts, StaleHeartbeat(1))
    ensures After(steps).hosts[1] == Host(Active, Some(After(steps).now))
  {
    var b := SilentHostListed();
    RunTwo(b, Beat(1), VisitHost(true));
    steps := b + [Beat(1), VisitHost(true)];
    var row := Alert(StaleHeartbeat(1), true, 360_000_000, None);
    assert After(steps).alerts == [row];
    assert After(steps).alerts[0] == row;
  }

  /** A pass lists a host that has sent nothing yet. */
  lemma {:induction false} NewHostListed() returns (steps: seq<Step>)
    ensures Run(steps)
    ensures var s := After(steps);
            && s.now == 0 && s.alerts == [] && s.hosts == map[1 := Host(Unknown, None)]
            && s.pass == Pass(VisitingHosts, 2, 0, s.hosts, [1], [], 0, [], [], true)
  {
    RunSnoc([], Register(1));
    var a := [] + [Register(1)];
    var hosts := map[1 := Host(Unknown, None)];
    assert MarkStale(After(a).hosts, 0) == hosts;
    assert hosts.Keys == {1};
    assert Lists([1], hosts.Keys);
    RunTwo(a, BeginPass(true), ListHosts([1], true));
    steps := a + [BeginPass(true), ListHosts([1], true)];
  }

  /** The other error is real too: its first heartbeat, six minutes before the visit, comes after the listing. */
  lemma {:induction false} FirstBeatIsMissed() returns (steps: seq<Step>)
    ensures Run(steps) && After(steps).pass.clean && 1 in After(steps).hosts
    ensures After(steps).pass.hostVisits == [After(steps).now]
    ensures !HasActive(After(steps).alerts, StaleHeartbeat(1))
    ensures Silent(After(steps).hosts[1], After(steps).now)
  {
    var a := NewHostListed();
    RunTwo(a, Beat(1), Advance(360_000_000));
    var b := a + [Beat(1), Advance(360_000_000)];
    RunSnoc(b, VisitHost(true));
    steps := b + [VisitHost(true)];
    assert After(steps).alerts == [];
  }
}
