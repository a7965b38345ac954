/** The agent's scan loop over its own maps, and its runs over time. */
module Agent {
  import opened Wrappers
  import opened Ordered
  import opened Matching
  import opened Tracker

  class Agent {
    var knownJobs: map<Hash, Job>
    var activeJobs: map<Pid, Active>
    var records: map<Id, Record>
    var log: seq<Buffered>
    var nextId: Id

    ghost function State(): State
      reads this
    {
      Tracker.State(knownJobs, activeJobs, records, log, nextId)
    }

    constructor ()
      ensures State() == Empty
    {
      knownJobs, activeJobs, records, log, nextId := map[], map[], map[], [], 0;
    }

    method NewId() returns (id: Id)
      modifies this`nextId
      ensures id == old(nextId) && nextId == id + 1
    {
      id := nextId;
      nextId := nextId + 1;
    }

    /** The first loop of runProcessScan: open what is new, and note every matched PID. */
    method OpenMatched(matched: seq<Match>) returns (current: set<Pid>)
      modifies this
      ensures State() == OpenAll(old(State()), matched)
      ensures current == MatchedPids(matched)
    {
      current := {};
      for i := 0 to |matched|
        invariant State() == OpenAll(old(State()), matched[..i])
        invariant current == MatchedPids(matched[..i])
      {
        assert matched[..i + 1][..i] == matched[..i];
        MatchedPidsSnoc(matched[..i + 1]);
        var m := matched[i];
        current := current + {m.process.pid};
        if m.process.pid in activeJobs {
          continue;
        }
        if m.hash !in knownJobs {
          continue;
        }
        var job := knownJobs[m.hash];
        var id := NewId();
        var a := Active(id, m.hash, job.rawCommand, job.schedule, m.process.createTime, m.confidence, m.process.pid);
        activeJobs := activeJobs[m.process.pid := a];
        records := records[id := Record(m.hash, job.rawCommand, job.schedule, Running, DetectedProcess, m.confidence,
                                        m.process.createTime, None, None, Some(m.process.pid))];
        log := log + [Buffered(id, ProcessStarted(m.hash, m.process.createTime, m.confidence, m.process.pid, m.process.ppid))];
      }
      assert matched[..|matched|] == matched;
    }

    method CloseOne(pid: Pid, now: Time)
      requires pid in activeJobs
      modifies this
      ensures State() == Close(old(State()), pid, now)
    {
      var active := activeJobs[pid];
      var duration := now - active.startedAt;
      records := records[active.localId := Record(active.hash, active.command, active.schedule, Partial, DetectedProcess,
                                                  active.confidence, active.startedAt, Some(now), Some(duration), None)];
      var completionId := NewId();
      log := log + [Buffered(completionId, ProcessGone(active.hash, active.startedAt, now, duration, active.confidence))];
      activeJobs := activeJobs - {pid};
    }

    /** The second loop: range over the open executions, in any order, closing those not seen. */
    method CloseMissing(current: set<Pid>, now: Time) returns (ghost gone: seq<Pid>)
      modifies this
      ensures Closable(old(State()), gone)
      ensures forall p :: p in old(activeJobs) ==> (p in gone <==> p !in current)
      ensures State() == CloseAll(old(State()), gone, now)
    {
      gone := [];
      ghost var before := State();
      var rest := activeJobs.Keys;
      while rest != {}
        invariant rest <= before.activeJobs.Keys
        invariant Closable(before, gone)
        invariant forall p :: p in rest ==> p !in gone
        invariant forall p :: p in before.activeJobs && p !in rest ==> (p in gone <==> p !in current)
        invariant State() == CloseAll(before, gone, now)
        decreases rest
      {
        Inhabited(rest);
        var pid :| pid in rest;
        rest := rest - {pid};
        if pid in current {
          continue;
        }
        CloseSnoc(before, gone, pid, now);
        CloseOne(pid, now);
        gone := gone + [pid];
      }
    }

    /** runProcessScan; scanned is None when listing the processes fails. */
    method RunProcessScan(scanned: Option<seq<Snapshot>>, now: Time) returns (ghost matched: seq<Match>, ghost gone: seq<Pid>)
      requires AllIndexable(KnownJobsForMatch(knownJobs))
      modifies this
      ensures scanned.None? ==> State() == old(State())
      ensures scanned.Some? ==> IsScan(old(State()), State(), scanned.value, now, matched, gone)
    {
      matched, gone := [], [];
      if scanned.None? {
        return;
      }
      var found := MatchJobs(scanned.value, KnownJobsForMatch(knownJobs));
      matched := found;
      MatchedHashesKnown(scanned.value, KnownJobsForMatch(knownJobs), found);
      OpenAllPids(State(), found);
      var current := OpenMatched(found);
      gone := CloseMissing(current, now);
    }
  }

  const Empty: State := Tracker.State(map[], map[], map[], [], 0)

  // --------------------------------------------------------------------------- runs

  /** What changes the tracker's state: scans, discovery, remote runs' records, other events. */
  datatype Step =
    | Scan(snapshots: seq<Snapshot>, now: Time, matched: seq<Match>, gone: seq<Pid>)
    | Discover(hash: Hash, job: Job)
    | StartRemote(record: Record)
    | EndRemote(id: Id, record: Record)
    | BufferOther

  ghost predicate Moves(s: State, step: Step, s': State) {
    match step
    case Scan(snapshots, now, matched, gone) => IsScan(s, s', snapshots, now, matched, gone)
    case Discover(h, job) => Indexable(job.normalized) && s' == s.(knownJobs := s.knownJobs[h := job])
    case StartRemote(r) =>
      r.trigger == ServerTriggered && s' == s.(records := s.records[s.nextId := r], nextId := s.nextId + 1)
    case EndRemote(id, r) =>
      && id in s.records && s.records[id].trigger == ServerTriggered && r.trigger == ServerTriggered
      && s' == s.(records := s.records[id := r])
    case BufferOther => s' == s.(log := s.log + [Buffered(s.nextId, Other)], nextId := s.nextId + 1)
  }

  /** A run: its states, from the empty agent, and the steps between them. */
  ghost predicate IsRun(states: seq<State>, steps: seq<Step>) {
    && |states| == |steps| + 1
    && states[0] == Empty
    && forall i :: 0 <= i < |steps| ==> Moves(states[i], steps[i], states[i + 1])
  }

  lemma RecordsKept(s: State, s': State)
    requires s'.activeJobs == s.activeJobs
    ensures forall p, id :: Owns(s', p, id) <==> Owns(s, p, id)
  {
  }

  lemma MoveKeepsInv(s: State, step: Step, s': State)
    requires Inv(s) && Moves(s, step, s')
    ensures Inv(s')
  {
    if step.Scan? {
      ScanKeepsInv(s, s', step.snapshots, step.now, step.matched, step.gone);
    } else {
      RecordsKept(s, s');
      forall p | p in s'.activeJobs ensures ActiveOk(s', p) { assert ActiveOk(s, p); }
      forall id | id in s'.records ensures id < s'.nextId && RecordOk(s', id) {
        assert id in s.records ==> RecordOk(s, id);
      }
      if step.BufferOther? {
        assert s'.log[..|s.log|] == s.log;
      }
    }
  }

  lemma {:induction false} RunKeepsInv(states: seq<State>, steps: seq<Step>)
    requires IsRun(states, steps)
    ensures Inv(states[|steps|])
  {
    if steps != [] {
      var n := |steps| - 1;
      RunKeepsInv(states[..n + 1], steps[..n]);
      MoveKeepsInv(states[n], steps[n], states[n + 1]);
    }
  }

  /**
   Over every run: started events are gone events plus open executions; a detected
   record is running exactly while an open execution owns it, and otherwise partial.
   */
  lemma RunsBalance(states: seq<State>, steps: seq<Step>)
    requires IsRun(states, steps)
    ensures var s := states[|steps|];
            && Started(s.log) == Gone(s.log) + |s.activeJobs|
            && forall id :: id in s.records && s.records[id].trigger == DetectedProcess ==>
                 (s.records[id].status == if (exists p :: Owns(s, p, id)) then Running else Partial)
  {
    RunKeepsInv(states, steps);
    var s := states[|steps|];
    forall id | id in s.records && s.records[id].trigger == DetectedProcess
      ensures s.records[id].status == if (exists p :: Owns(s, p, id)) then Running else Partial
    {
      assert RecordOk(s, id);
    }
  }

  lemma {:induction false} RunKeepsLog(states: seq<State>, steps: seq<Step>)
    requires IsRun(states, steps)
    ensures LogOk(states[|steps|])
  {
    if steps != [] {
      var n := |steps| - 1;
      var s := states[n];
      RunKeepsLog(states[..n + 1], steps[..n]);
      match steps[n]
      case Scan(snapshots, now, matched, gone) => ScanKeepsLog(s, states[n + 1], snapshots, now, matched, gone);
      case BufferOther => LogAppends(s, Buffered(s.nextId, Other));
      case _ =>
    }
  }

  /** Over every run, each reported end comes after a reported start of the same job at the same time. */
  lemma {:induction false} EndsHaveStarts(states: seq<State>, steps: seq<Step>, j: nat)
    requires IsRun(states, steps)
    requires j < |states[|steps|].log| && states[|steps|].log[j].event.ProcessGone?
    ensures var log := states[|steps|].log;
            exists i :: 0 <= i < j && log[i].event.ProcessStarted?
                        && log[i].event.hash == log[j].event.hash && log[i].event.startedAt == log[j].event.startedAt
  {
    RunKeepsLog(states, steps);
    var log := states[|steps|].log;
    assert StartedBefore(log, j, log[j].event.hash, log[j].event.startedAt);
  }

  /** A detected record that has become partial is never written again, by any later step. */
  lemma {:induction false} PartialIsFinal(states: seq<State>, steps: seq<Step>, i: nat, id: Id)
    requires IsRun(states, steps) && i <= |steps|
    requires id in states[i].records && states[i].records[id].trigger == DetectedProcess
    requires states[i].records[id].status != Running
    ensures id in states[|steps|].records && states[|steps|].records[id] == states[i].records[id]
  {
    if i < |steps| {
      var n := |steps| - 1;
      PartialIsFinal(states[..n + 1], steps[..n], i, id);
      RunKeepsInv(states[..n + 1], steps[..n]);
      if steps[n].Scan? {
        ScanSettles(states[n], states[n + 1], steps[n].snapshots, steps[n].now, steps[n].matched, steps[n].gone);
      }
    }
  }
}
