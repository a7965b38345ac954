/**
 The process-lifecycle tracker: each scan opens an execution for every newly
 matching PID and closes the executions whose PID no longer matches.
 */
module Tracker {
  import opened Wrappers
  import opened Matching

  type Id = nat   // UUIDs, drawn in increasing order

  datatype Job = Job(rawCommand: string, schedule: string, normalized: string)

  datatype Active = Active(
    localId: Id,
    hash: Hash,
    command: string,
    schedule: string,
    startedAt: Time,
    confidence: real,
    pid: Pid)

  datatype RunStatus = Running | Partial | Success | Failed

  datatype Trigger = DetectedProcess | ServerTriggered

  /** A local execution record. */
  datatype Record = Record(
    hash: Hash,
    command: string,
    schedule: string,
    status: RunStatus,
    trigger: Trigger,
    confidence: real,
    startedAt: Time,
    finishedAt: Option<Time>,
    duration: Option<Time>,
    pid: Option<Pid>)

  /** Events buffered for the server; those that are not from process scans are Other. */
  datatype Event =
    | ProcessStarted(hash: Hash, startedAt: Time, confidence: real, pid: Pid, ppid: Pid)
    | ProcessGone(hash: Hash, startedAt: Time, finishedAt: Time, duration: Time, confidence: real)
    | Other

  datatype Buffered = Buffered(id: Id, event: Event)

  /** The agent's maps, its local record bucket, and the log of all events it has buffered. */
  datatype State = State(
    knownJobs: map<Hash, Job>,
    activeJobs: map<Pid, Active>,
    records: map<Id, Record>,
    log: seq<Buffered>,
    nextId: Id)

  function KnownJobsForMatch(jobs: map<Hash, Job>): Commands {
    map h | h in jobs :: jobs[h].normalized
  }

  // ------------------------------------------------------- what the two loops do

  function NewActive(id: Id, m: Match, job: Job): Active {
    Active(id, m.hash, job.rawCommand, job.schedule, m.process.createTime, m.confidence, m.process.pid)
  }

  function OpenRecord(a: Active): Record {
    Record(a.hash, a.command, a.schedule, Running, DetectedProcess, a.confidence, a.startedAt, None, None, Some(a.pid))
  }

  function ClosedRecord(a: Active, now: Time): Record {
    Record(a.hash, a.command, a.schedule, Partial, DetectedProcess, a.confidence, a.startedAt,
           Some(now), Some(now - a.startedAt), None)
  }

  function StartEvent(a: Active, ppid: Pid): Event {
    ProcessStarted(a.hash, a.startedAt, a.confidence, a.pid, ppid)
  }

  function GoneEvent(a: Active, now: Time): Event {
    ProcessGone(a.hash, a.startedAt, now, now - a.startedAt, a.confidence)
  }

  /** One turn of the first loop. */
  function Open(s: State, m: Match): State {
    if m.process.pid in s.activeJobs || m.hash !in s.knownJobs then s
    else
      var a := NewActive(s.nextId, m, s.knownJobs[m.hash]);
      s.(activeJobs := s.activeJobs[m.process.pid := a],
         records := s.records[s.nextId := OpenRecord(a)],
         log := s.log + [Buffered(s.nextId, StartEvent(a, m.process.ppid))],
         nextId := s.nextId + 1)
  }

  function OpenAll(s: State, matched: seq<Match>): State {
    if matched == [] then s else Open(OpenAll(s, matched[..|matched| - 1]), matched[|matched| - 1])
  }

  /** One turn of the second loop, for a PID that is gone. */
  function Close(s: State, pid: Pid, now: Time): State
    requires pid in s.activeJobs
  {
    var a := s.activeJobs[pid];
    s.(activeJobs := s.activeJobs - {pid},
       records := s.records[a.localId := ClosedRecord(a, now)],
       log := s.log + [Buffered(s.nextId, GoneEvent(a, now))],
       nextId := s.nextId + 1)
  }

  ghost predicate Closable(s: State, gone: seq<Pid>) {
    && (forall i :: 0 <= i < |gone| ==> gone[i] in s.activeJobs)
    && forall i, j :: 0 <= i < j < |gone| ==> gone[i] != gone[j]
  }

  /** The turns of the second loop, in the order in which it meets the PIDs. */
  function CloseAll(s: State, gone: seq<Pid>, now: Time): State {
    if gone == [] then s
    else
      var before := CloseAll(s, gone[..|gone| - 1], now);
      if gone[|gone| - 1] in before.activeJobs then Close(before, gone[|gone| - 1], now) else before
  }

  lemma {:induction false} CloseAllPids(s: State, gone: seq<Pid>, now: Time)
    requires Closable(s, gone)
    ensures var r := CloseAll(s, gone, now);
            && (forall p :: p in r.activeJobs <==> p in s.activeJobs && p !in gone)
            && (forall p :: p in r.activeJobs ==> r.activeJobs[p] == s.activeJobs[p])
  {
    if gone != [] {
      var n := |gone| - 1;
      CloseAllPids(s, gone[..n], now);
      assert gone == gone[..n] + [gone[n]];
    }
  }

  lemma CloseSnoc(s: State, gone: seq<Pid>, pid: Pid, now: Time)
    requires Closable(s, gone) && pid in s.activeJobs && pid !in gone
    ensures Closable(s, gone + [pid])
    ensures pid in CloseAll(s, gone, now).activeJobs
    ensures CloseAll(s, gone + [pid], now) == Close(CloseAll(s, gone, now), pid, now)
  {
    CloseAllPids(s, gone, now);
    assert (gone + [pid])[..|gone|] == gone;
  }

  /**
   A possible outcome of one scan: `matched` is what MatchJobs returned and `gone`
   the order in which the second loop met the PIDs that no longer match.
   */
  ghost predicate IsScan(s: State, s': State, snapshots: seq<Snapshot>, now: Time, matched: seq<Match>, gone: seq<Pid>) {
    && AllIndexable(KnownJobsForMatch(s.knownJobs))
    && IsMatching(snapshots, KnownJobsForMatch(s.knownJobs), matched)
    && var mid := OpenAll(s, matched);
    && Closable(mid, gone)
    && (forall p :: p in mid.activeJobs ==> (p in gone <==> p !in MatchedPids(matched)))
    && s' == CloseAll(mid, gone, now)
  }

  // ------------------------------------------------------------------- opened PIDs

  lemma {:induction false} OpenAllPids(s: State, matched: seq<Match>)
    requires forall i :: 0 <= i < |matched| ==> matched[i].hash in s.knownJobs
    ensures var r := OpenAll(s, matched);
            && r.knownJobs == s.knownJobs
            && (forall p :: p in r.activeJobs <==> p in s.activeJobs || p in MatchedPids(matched))
            && (forall p :: p in s.activeJobs ==> r.activeJobs[p] == s.activeJobs[p])
  {
    if matched != [] {
      OpenAllPids(s, matched[..|matched| - 1]);
      MatchedPidsSnoc(matched);
    }
  }

  /** A process seen under that PID matches the normalized command of a known job. */
  ghost predicate SeenFor(p: Snapshot, jobs: map<Hash, Job>, h: Hash) {
    h in jobs && Indexable(jobs[h].normalized) && MatchesCommand(p.cmdline, jobs[h].normalized)
  }

  ghost predicate Seen(pid: Pid, snapshots: seq<Snapshot>, jobs: map<Hash, Job>) {
    exists i, h :: 0 <= i < |snapshots| && snapshots[i].pid == pid && SeenFor(snapshots[i], jobs, h)
  }

  lemma SeenIsMatching(pid: Pid, snapshots: seq<Snapshot>, jobs: map<Hash, Job>)
    requires AllIndexable(KnownJobsForMatch(jobs))
    ensures pid in MatchingPids(snapshots, KnownJobsForMatch(jobs)) <==> Seen(pid, snapshots, jobs)
  {
    var commands := KnownJobsForMatch(jobs);
    if pid in MatchingPids(snapshots, commands) {
      var i :| 0 <= i < |snapshots| && MatchesSome(snapshots[i], commands) && snapshots[i].pid == pid;
      var h :| MatchesJob(snapshots[i], commands, h);
      assert SeenFor(snapshots[i], jobs, h);
    }
    if Seen(pid, snapshots, jobs) {
      var i, h :| 0 <= i < |snapshots| && snapshots[i].pid == pid && SeenFor(snapshots[i], jobs, h);
      assert MatchesJob(snapshots[i], commands, h);
    }
  }

  /**
   After every scan the tracked PIDs are exactly those matching some known job,
   whatever the iteration order; executions already open are left as they were.
   */
  lemma ScanTracksMatching(s: State, s': State, snapshots: seq<Snapshot>, now: Time, matched: seq<Match>, gone: seq<Pid>)
    requires IsScan(s, s', snapshots, now, matched, gone)
    ensures s'.activeJobs.Keys == MatchingPids(snapshots, KnownJobsForMatch(s.knownJobs))
    ensures forall p :: p in s'.activeJobs <==> Seen(p, snapshots, s.knownJobs)
    ensures forall p :: p in s.activeJobs && p in s'.activeJobs ==> s'.activeJobs[p] == s.activeJobs[p]
  {
    forall p ensures p in MatchingPids(snapshots, KnownJobsForMatch(s.knownJobs)) <==> Seen(p, snapshots, s.knownJobs) {
      SeenIsMatching(p, snapshots, s.knownJobs);
    }
    MatchedAreMatching(snapshots, KnownJobsForMatch(s.knownJobs), matched);
    MatchedHashesKnown(snapshots, KnownJobsForMatch(s.knownJobs), matched);
    OpenAllPids(s, matched);
    CloseAllPids(OpenAll(s, matched), gone, now);
    assert forall p :: p in s'.activeJobs.Keys <==> p in MatchedPids(matched);
  }

  // -------------------------------------------------------------------- invariants

  function Started(log: seq<Buffered>): nat {
    if log == [] then 0 else Started(log[..|log| - 1]) + if log[|log| - 1].event.ProcessStarted? then 1 else 0
  }

  function Gone(log: seq<Buffered>): nat {
    if log == [] then 0 else Gone(log[..|log| - 1]) + if log[|log| - 1].event.ProcessGone? then 1 else 0
  }

  ghost predicate Owns(s: State, p: Pid, id: Id) {
    p in s.activeJobs && s.activeJobs[p].localId == id
  }

  /** The record of an open execution. */
  ghost predicate ActiveOk(s: State, p: Pid)
    requires p in s.activeJobs
  {
    var a := s.activeJobs[p];
    a.pid == p && a.localId in s.records && s.records[a.localId] == OpenRecord(a)
  }

  /** A detected record is running exactly while some PID owns it, and partial otherwise. */
  ghost predicate RecordOk(s: State, id: Id)
    requires id in s.records
  {
    s.records[id].trigger == DetectedProcess ==>
      && s.records[id].status in {Running, Partial}
      && (s.records[id].status == Running <==> exists p :: Owns(s, p, id))
  }

  ghost predicate Inv(s: State) {
    && (forall p :: p in s.activeJobs ==> ActiveOk(s, p))
    && (forall p, q :: p in s.activeJobs && q in s.activeJobs && p != q ==> s.activeJobs[p].localId != s.activeJobs[q].localId)
    && (forall id :: id in s.records ==> id < s.nextId && RecordOk(s, id))
    && Started(s.log) == Gone(s.log) + |s.activeJobs|
  }

  lemma OpenKeepsInv(s: State, m: Match)
    requires Inv(s)
    ensures Inv(Open(s, m))
  {
    var s' := Open(s, m);
    var pid := m.process.pid;
    if pid !in s.activeJobs && m.hash in s.knownJobs {
      assert s'.log[..|s.log|] == s.log;
      forall p | p in s'.activeJobs ensures ActiveOk(s', p) && (p != pid ==> s'.activeJobs[p].localId != s.nextId) {
        assert p != pid ==> ActiveOk(s, p);
      }
      forall id | id in s'.records ensures id < s'.nextId && RecordOk(s', id) {
        if id == s.nextId {
          assert Owns(s', pid, id);
        } else {
          assert RecordOk(s, id);
          OwnersKept(s, s', id);
        }
      }
    }
  }

  lemma OwnersKept(s: State, s': State, id: Id)
    requires forall p :: p in s.activeJobs ==> p in s'.activeJobs && s'.activeJobs[p] == s.activeJobs[p]
    requires forall p :: p in s'.activeJobs && p !in s.activeJobs ==> s'.activeJobs[p].localId != id
    ensures (exists p :: Owns(s, p, id)) <==> (exists p :: Owns(s', p, id))
  {
    if p :| Owns(s, p, id) {
      assert Owns(s', p, id);
    }
    if p :| Owns(s', p, id) {
      assert Owns(s, p, id);
    }
  }

  lemma CloseKeepsInv(s: State, pid: Pid, now: Time)
    requires Inv(s) && pid in s.activeJobs
    ensures Inv(Close(s, pid, now))
  {
    var s' := Close(s, pid, now);
    var a := s.activeJobs[pid];
    assert ActiveOk(s, pid);
    assert s'.log[..|s.log|] == s.log;
    assert s'.activeJobs.Keys == s.activeJobs.Keys - {pid};
    assert |s'.activeJobs| == |s.activeJobs| - 1;
    forall p | p in s'.activeJobs ensures ActiveOk(s', p) {
      assert ActiveOk(s, p) && s.activeJobs[p].localId != a.localId;
    }
    forall id | id in s'.records ensures id < s'.nextId && RecordOk(s', id) {
      assert id < s.nextId;
      if id != a.localId {
        assert RecordOk(s, id);
        OwnersKept(s', s, id);
      } else {
        forall p ensures !Owns(s', p, id) {
          assert p in s'.activeJobs ==> s.activeJobs[p].localId != a.localId;
        }
      }
    }
  }

  lemma {:induction false} OpenAllKeepsInv(s: State, matched: seq<Match>)
    requires Inv(s)
    ensures Inv(OpenAll(s, matched))
  {
    if matched != [] {
      OpenAllKeepsInv(s, matched[..|matched| - 1]);
      OpenKeepsInv(OpenAll(s, matched[..|matched| - 1]), matched[|matched| - 1]);
    }
  }

  lemma {:induction false} CloseAllKeepsInv(s: State, gone: seq<Pid>, now: Time)
    requires Inv(s) && Closable(s, gone)
    ensures Inv(CloseAll(s, gone, now))
  {
    if gone != [] {
      var n := |gone| - 1;
      CloseAllKeepsInv(s, gone[..n], now);
      if gone[n] in CloseAll(s, gone[..n], now).activeJobs {
        CloseKeepsInv(CloseAll(s, gone[..n], now), gone[n], now);
      }
    }
  }

  lemma ScanKeepsInv(s: State, s': State, snapshots: seq<Snapshot>, now: Time, matched: seq<Match>, gone: seq<Pid>)
    requires Inv(s) && IsScan(s, s', snapshots, now, matched, gone)
    ensures Inv(s')
  {
    OpenAllKeepsInv(s, matched);
    CloseAllKeepsInv(OpenAll(s, matched), gone, now);
  }

  // ------------------------------------------------------- records are closed once

  /** Records never disappear, and a detected record that is partial, or any other trigger's, never changes. */
  ghost predicate RecordsSettle(s: State, s': State) {
    forall id :: id in s.records ==>
      && id in s'.records
      && s'.records[id].trigger == s.records[id].trigger
      && (s.records[id].trigger != DetectedProcess || s.records[id].status != Running ==> s'.records[id] == s.records[id])
  }

  lemma OpenSettles(s: State, m: Match)
    requires Inv(s)
    ensures RecordsSettle(s, Open(s, m))
  {
  }

  lemma CloseSettles(s: State, pid: Pid, now: Time)
    requires Inv(s) && pid in s.activeJobs
    ensures RecordsSettle(s, Close(s, pid, now))
  {
    assert ActiveOk(s, pid);
  }

  lemma {:induction false} OpenAllSettles(s: State, matched: seq<Match>)
    requires Inv(s)
    ensures RecordsSettle(s, OpenAll(s, matched))
  {
    if matched != [] {
      OpenAllSettles(s, matched[..|matched| - 1]);
      OpenAllKeepsInv(s, matched[..|matched| - 1]);
      OpenSettles(OpenAll(s, matched[..|matched| - 1]), matched[|matched| - 1]);
    }
  }

  lemma {:induction false} CloseAllSettles(s: State, gone: seq<Pid>, now: Time)
    requires Inv(s) && Closable(s, gone)
    ensures RecordsSettle(s, CloseAll(s, gone, now))
  {
    if gone != [] {
      var n := |gone| - 1;
      CloseAllSettles(s, gone[..n], now);
      CloseAllKeepsInv(s, gone[..n], now);
      if gone[n] in CloseAll(s, gone[..n], now).activeJobs {
        CloseSettles(CloseAll(s, gone[..n], now), gone[n], now);
      }
    }
  }

  /** A scan closes each record at most once and touches no other agent activity's records. */
  lemma ScanSettles(s: State, s': State, snapshots: seq<Snapshot>, now: Time, matched: seq<Match>, gone: seq<Pid>)
    requires Inv(s) && IsScan(s, s', snapshots, now, matched, gone)
    ensures RecordsSettle(s, s')
  {
    OpenAllSettles(s, matched);
    OpenAllKeepsInv(s, matched);
    CloseAllSettles(OpenAll(s, matched), gone, now);
  }

  // ------------------------------------------------------------ what a scan reports

  /** The events of closing executions in the given order. */
  ghost function GoneLog(active: map<Pid, Active>, gone: seq<Pid>, now: Time, id: Id): seq<Buffered>
    requires forall i :: 0 <= i < |gone| ==> gone[i] in active
  {
    if gone == [] then []
    else
      var n := |gone| - 1;
      GoneLog(active, gone[..n], now, id) + [Buffered(id + n, GoneEvent(active[gone[n]], now))]
  }

  lemma {:induction false} GoneLogSame(a: map<Pid, Active>, b: map<Pid, Active>, gone: seq<Pid>, now: Time, id: Id)
    requires forall i :: 0 <= i < |gone| ==> gone[i] in a && gone[i] in b && a[gone[i]] == b[gone[i]]
    ensures GoneLog(a, gone, now, id) == GoneLog(b, gone, now, id)
  {
    if gone != [] {
      GoneLogSame(a, b, gone[..|gone| - 1], now, id);
    }
  }

  lemma GoneLogSnoc(active: map<Pid, Active>, gone: seq<Pid>, now: Time, id: Id)
    requires gone != [] && forall i :: 0 <= i < |gone| ==> gone[i] in active
    ensures var n := |gone| - 1;
            GoneLog(active, gone, now, id)
              == GoneLog(active, gone[..n], now, id) + [Buffered(id + n, GoneEvent(active[gone[n]], now))]
  {
  }

  lemma CloseAllLast(s: State, gone: seq<Pid>, now: Time)
    requires Closable(s, gone) && gone != []
    ensures var n := |gone| - 1; var mid := CloseAll(s, gone[..n], now); var r := CloseAll(s, gone, now);
            && r.log == mid.log + [Buffered(mid.nextId, GoneEvent(s.activeJobs[gone[n]], now))]
            && r.nextId == mid.nextId + 1
  {
    CloseAllPids(s, gone[..|gone| - 1], now);
  }

  /** Appending one more entry to a log and to its new part. */
  lemma LogGrows<T>(was: seq<T>, part: seq<T>, log: seq<T>, e: T)
    requires log == was + part
    ensures log + [e] == was + (part + [e])
  {
  }

  lemma GoneLogStep(active: map<Pid, Active>, gone: seq<Pid>, now: Time, id: Id,
                    was: seq<Buffered>, log: seq<Buffered>, more: seq<Buffered>)
    requires gone != [] && forall i :: 0 <= i < |gone| ==> gone[i] in active
    requires log == was + GoneLog(active, gone[..|gone| - 1], now, id)
    requires more == log + [Buffered(id + |gone| - 1, GoneEvent(active[gone[|gone| - 1]], now))]
    ensures more == was + GoneLog(active, gone, now, id)
  {
    GoneLogSnoc(active, gone, now, id);
    LogGrows(was, GoneLog(active, gone[..|gone| - 1], now, id), log,
             Buffered(id + |gone| - 1, GoneEvent(active[gone[|gone| - 1]], now)));
  }

  lemma {:induction false} CloseAllLogs(s: State, gone: seq<Pid>, now: Time)
    requires Closable(s, gone)
    ensures CloseAll(s, gone, now).nextId == s.nextId + |gone|
    ensures CloseAll(s, gone, now).log == s.log + GoneLog(s.activeJobs, gone, now, s.nextId)
  {
    if gone != [] {
      var n := |gone| - 1;
      CloseAllLogs(s, gone[..n], now);
      CloseAllLast(s, gone, now);
      GoneLogStep(s.activeJobs, gone, now, s.nextId,
                  s.log, CloseAll(s, gone[..n], now).log, CloseAll(s, gone, now).log);
    }
  }

  lemma MatchedAreSeen(snapshots: seq<Snapshot>, jobs: map<Hash, Job>, matched: seq<Match>)
    requires AllIndexable(KnownJobsForMatch(jobs)) && IsMatching(snapshots, KnownJobsForMatch(jobs), matched)
    ensures forall p :: p in MatchedPids(matched) <==> Seen(p, snapshots, jobs)
  {
    MatchedAreMatching(snapshots, KnownJobsForMatch(jobs), matched);
    forall p ensures p in MatchedPids(matched) <==> Seen(p, snapshots, jobs) {
      SeenIsMatching(p, snapshots, jobs);
    }
  }

  lemma GoneAreUnmatched(s: State, s': State, snapshots: seq<Snapshot>, now: Time, matched: seq<Match>, gone: seq<Pid>)
    requires IsScan(s, s', snapshots, now, matched, gone)
    ensures forall p :: p in gone <==> p in s.activeJobs && p !in MatchedPids(matched)
    ensures forall i :: 0 <= i < |gone| ==>
              gone[i] in s.activeJobs && gone[i] in OpenAll(s, matched).activeJobs
              && OpenAll(s, matched).activeJobs[gone[i]] == s.activeJobs[gone[i]]
  {
    MatchedHashesKnown(snapshots, KnownJobsForMatch(s.knownJobs), matched);
    OpenAllPids(s, matched);
    forall p ensures p in gone <==> p in s.activeJobs && p !in MatchedPids(matched) {
      if p in gone {
        var i :| 0 <= i < |gone| && gone[i] == p;
        assert gone[i] in OpenAll(s, matched).activeJobs;
      }
    }
    forall i | 0 <= i < |gone| ensures gone[i] in s.activeJobs {
      assert gone[i] in gone;
    }
  }

  /**
   A scan reports the end of exactly the executions under whose PID it sees no process
   that matches a known job, each once.
   */
  lemma ScanReportsGone(s: State, s': State, snapshots: seq<Snapshot>, now: Time, matched: seq<Match>, gone: seq<Pid>)
    requires IsScan(s, s', snapshots, now, matched, gone)
    ensures Closable(s, gone)
    ensures forall p :: p in gone <==> p in s.activeJobs && !Seen(p, snapshots, s.knownJobs)
    ensures s'.log == OpenAll(s, matched).log + GoneLog(s.activeJobs, gone, now, OpenAll(s, matched).nextId)
  {
    GoneAreUnmatched(s, s', snapshots, now, matched, gone);
    MatchedAreSeen(snapshots, s.knownJobs, matched);
    var mid := OpenAll(s, matched);
    CloseAllLogs(mid, gone, now);
    GoneLogSame(mid.activeJobs, s.activeJobs, gone, now, mid.nextId);
  }

  /** An open execution that describes a snapshot, with the event that announced it. */
  ghost predicate Describes(a: Active, m: Match, jobs: map<Hash, Job>, log: seq<Buffered>) {
    && m.hash in jobs
    && a == NewActive(a.localId, m, jobs[m.hash])
    && Buffered(a.localId, StartEvent(a, m.process.ppid)) in log
  }

  lemma {:induction false} OpenAllDescribes(s: State, matched: seq<Match>, p: Pid)
    requires p !in s.activeJobs && p in OpenAll(s, matched).activeJobs
    ensures var r := OpenAll(s, matched);
            exists i :: 0 <= i < |matched| && matched[i].process.pid == p
                        && Describes(r.activeJobs[p], matched[i], s.knownJobs, r.log)
    ensures OpenAll(s, matched).knownJobs == s.knownJobs
  {
    var n := |matched| - 1;
    var before, r := OpenAll(s, matched[..n]), OpenAll(s, matched);
    OpenAllKnown(s, matched[..n]);
    if p in before.activeJobs {
      OpenAllDescribes(s, matched[..n], p);
      var i :| 0 <= i < n && matched[..n][i].process.pid == p
               && Describes(before.activeJobs[p], matched[..n][i], s.knownJobs, before.log);
      assert matched[i].process.pid == p && Describes(r.activeJobs[p], matched[i], s.knownJobs, r.log);
    } else {
      assert matched[n].process.pid == p && Describes(r.activeJobs[p], matched[n], s.knownJobs, r.log) by {
        assert r.log[|before.log|] == Buffered(before.nextId, StartEvent(r.activeJobs[p], matched[n].process.ppid));
      }
    }
  }

  lemma {:induction false} OpenAllKnown(s: State, matched: seq<Match>)
    ensures OpenAll(s, matched).knownJobs == s.knownJobs
  {
    if matched != [] {
      OpenAllKnown(s, matched[..|matched| - 1]);
    }
  }

  /**
   Every execution a scan opens describes a process it saw: its PID and start time,
   a job that the process matches, and a started event with the same content.
   */
  lemma ScanDescribesOpened(s: State, s': State, snapshots: seq<Snapshot>, now: Time, matched: seq<Match>, gone: seq<Pid>, p: Pid)
    requires IsScan(s, s', snapshots, now, matched, gone)
    requires p !in s.activeJobs && p in s'.activeJobs
    ensures var jobs := KnownJobsForMatch(s.knownJobs);
            exists m: Match :: m.process in snapshots && m.process.pid == p && IsMatch(m, m.process, jobs)
                        && Describes(s'.activeJobs[p], m, s.knownJobs, s'.log)
  {
    var mid := OpenAll(s, matched);
    CloseAllPids(mid, gone, now);
    OpenAllDescribes(s, matched, p);
    var i :| 0 <= i < |matched| && matched[i].process.pid == p
             && Describes(mid.activeJobs[p], matched[i], s.knownJobs, mid.log);
    MatchesAreSnapshots(snapshots, KnownJobsForMatch(s.knownJobs), matched, i);
    CloseAllLogs(mid, gone, now);
    assert Describes(s'.activeJobs[p], matched[i], s.knownJobs, s'.log);
  }

  // ------------------------------------------------------- events and records, field by field

  /** The end of an execution, as reported at time now. */
  ghost predicate ReportsEnd(e: Event, a: Active, now: Time) {
    && e.ProcessGone?
    && e.hash == a.hash
    && e.startedAt == a.startedAt
    && e.finishedAt == now
    && e.duration == now - a.startedAt
    && e.confidence == a.confidence
  }

  ghost predicate ReportsStart(e: Event, a: Active) {
    && e.ProcessStarted?
    && e.hash == a.hash
    && e.startedAt == a.startedAt
    && e.confidence == a.confidence
    && e.pid == a.pid
  }

  lemma {:induction false} GoneLogAt(active: map<Pid, Active>, gone: seq<Pid>, now: Time, id: Id, i: nat)
    requires forall i :: 0 <= i < |gone| ==> gone[i] in active
    ensures |GoneLog(active, gone, now, id)| == |gone|
    ensures i < |gone| ==> ReportsEnd(GoneLog(active, gone, now, id)[i].event, active[gone[i]], now)
  {
    if gone != [] {
      GoneLogAt(active, gone[..|gone| - 1], now, id, i);
    }
  }

  /** Opening adds one started event for each PID it opens, and nothing else. */
  lemma {:induction false} OpenAllEvents(s: State, matched: seq<Match>)
    ensures var r := OpenAll(s, matched);
            && |r.log| + |s.activeJobs| == |s.log| + |r.activeJobs|
            && s.log <= r.log
            && forall i :: |s.log| <= i < |r.log| ==> r.log[i].event.ProcessStarted?
  {
    if matched != [] {
      OpenAllEvents(s, matched[..|matched| - 1]);
    }
  }

  /**
   What a scan adds to the log: first one started event for each execution it opens,
   then, for each PID it no longer finds and in that order, one event with the hash,
   the start and the confidence of its open execution, finished now.
   */
  lemma ScanEvents(s: State, s': State, snapshots: seq<Snapshot>, now: Time, matched: seq<Match>, gone: seq<Pid>)
    requires IsScan(s, s', snapshots, now, matched, gone)
    ensures var n := |OpenAll(s, matched).log|;
            && |s.log| <= n && |s'.log| == n + |gone| && s.log <= s'.log
            && n - |s.log| == |OpenAll(s, matched).activeJobs| - |s.activeJobs|
            && (forall i :: |s.log| <= i < n ==> s'.log[i].event.ProcessStarted?)
            && (forall i :: 0 <= i < |gone| ==>
                  gone[i] in s.activeJobs && ReportsEnd(s'.log[n + i].event, s.activeJobs[gone[i]], now))
  {
    var mid := OpenAll(s, matched);
    ScanReportsGone(s, s', snapshots, now, matched, gone);
    OpenAllEvents(s, matched);
    GoneLogAt(s.activeJobs, gone, now, mid.nextId, 0);
    forall i | 0 <= i < |gone| ensures ReportsEnd(s'.log[|mid.log| + i].event, s.activeJobs[gone[i]], now) {
      GoneLogAt(s.activeJobs, gone, now, mid.nextId, i);
    }
  }

  /** The record of an execution whose process has disappeared. */
  ghost predicate RecordsEnd(r: Record, a: Active, now: Time) {
    && r.status == Partial && r.trigger == DetectedProcess
    && r.hash == a.hash && r.command == a.command && r.schedule == a.schedule && r.confidence == a.confidence
    && r.startedAt == a.startedAt && r.finishedAt == Some(now) && r.duration == Some(now - a.startedAt)
    && r.pid == None
  }

  ghost predicate RecordsStart(r: Record, a: Active) {
    && r.status == Running && r.trigger == DetectedProcess
    && r.hash == a.hash && r.command == a.command && r.schedule == a.schedule && r.confidence == a.confidence
    && r.startedAt == a.startedAt && r.finishedAt == None && r.duration == None
    && r.pid == Some(a.pid)
  }

  lemma CloseOwn(s: State, pid: Pid, now: Time)
    requires pid in s.activeJobs
    ensures var id := s.activeJobs[pid].localId;
            id in Close(s, pid, now).records && RecordsEnd(Close(s, pid, now).records[id], s.activeJobs[pid], now)
  {
  }

  /** Closing an execution writes no other record. */
  lemma CloseOther(s: State, pid: Pid, now: Time, id: Id)
    requires pid in s.activeJobs && s.activeJobs[pid].localId != id && id in s.records
    ensures id in Close(s, pid, now).records && Close(s, pid, now).records[id] == s.records[id]
  {
  }

  lemma {:induction false} CloseAllRecords(s: State, gone: seq<Pid>, now: Time, i: nat)
    requires Inv(s) && Closable(s, gone) && i < |gone|
    ensures var id := s.activeJobs[gone[i]].localId;
            id in CloseAll(s, gone, now).records && RecordsEnd(CloseAll(s, gone, now).records[id], s.activeJobs[gone[i]], now)
  {
    var n := |gone| - 1;
    var before := CloseAll(s, gone[..n], now);
    CloseAllPids(s, gone[..n], now);
    assert gone[n] !in gone[..n];
    assert before.activeJobs[gone[n]] == s.activeJobs[gone[n]];
    if i < n {
      CloseAllRecords(s, gone[..n], now, i);
      CloseOther(before, gone[n], now, s.activeJobs[gone[i]].localId);
    } else {
      CloseOwn(before, gone[n], now);
    }
  }

  /**
   The records after a scan: that of each execution it closes says partial, with the
   start it had, finished now; that of each open one says running.
   */
  lemma ScanRecords(s: State, s': State, snapshots: seq<Snapshot>, now: Time, matched: seq<Match>, gone: seq<Pid>)
    requires Inv(s) && IsScan(s, s', snapshots, now, matched, gone)
    ensures forall i :: 0 <= i < |gone| ==>
              && gone[i] in s.activeJobs && s.activeJobs[gone[i]].localId in s'.records
              && RecordsEnd(s'.records[s.activeJobs[gone[i]].localId], s.activeJobs[gone[i]], now)
    ensures forall p :: p in s'.activeJobs ==>
              && s'.activeJobs[p].pid == p && s'.activeJobs[p].localId in s'.records
              && RecordsStart(s'.records[s'.activeJobs[p].localId], s'.activeJobs[p])
  {
    var mid := OpenAll(s, matched);
    ScanReportsGone(s, s', snapshots, now, matched, gone);
    OpenAllKeepsInv(s, matched);
    MatchedHashesKnown(snapshots, KnownJobsForMatch(s.knownJobs), matched);
    OpenAllPids(s, matched);
    forall i | 0 <= i < |gone|
      ensures s.activeJobs[gone[i]].localId in s'.records
      ensures RecordsEnd(s'.records[s.activeJobs[gone[i]].localId], s.activeJobs[gone[i]], now)
    {
      CloseAllRecords(mid, gone, now, i);
    }
    ScanKeepsInv(s, s', snapshots, now, matched, gone);
    forall p | p in s'.activeJobs
      ensures s'.activeJobs[p].pid == p && s'.activeJobs[p].localId in s'.records
      ensures RecordsStart(s'.records[s'.activeJobs[p].localId], s'.activeJobs[p])
    {
      assert ActiveOk(s', p);
    }
  }

  /**
   An execution a scan opens has the PID and the creation time of a process the scan
   saw, the hash, command and schedule of a known job whose normalized command that
   process matches, and the confidence of the match.
   */
  ghost predicate OpenedFor(a: Active, p: Snapshot, jobs: map<Hash, Job>) {
    && a.hash in jobs && Indexable(jobs[a.hash].normalized)
    && a.pid == p.pid && a.startedAt == p.createTime
    && a.command == jobs[a.hash].rawCommand && a.schedule == jobs[a.hash].schedule
    && MatchesCommand(p.cmdline, jobs[a.hash].normalized)
    && a.confidence == if p.cmdline == jobs[a.hash].normalized then 0.95 else 0.75
  }

  lemma ScanOpens(s: State, s': State, snapshots: seq<Snapshot>, now: Time, matched: seq<Match>, gone: seq<Pid>, p: Pid)
    requires IsScan(s, s', snapshots, now, matched, gone)
    requires p !in s.activeJobs && p in s'.activeJobs
    ensures exists i :: 0 <= i < |snapshots| && snapshots[i].pid == p && OpenedFor(s'.activeJobs[p], snapshots[i], s.knownJobs)
    ensures exists i :: |s.log| <= i < |s'.log| && ReportsStart(s'.log[i].event, s'.activeJobs[p])
  {
    ScanDescribesOpened(s, s', snapshots, now, matched, gone, p);
    var m: Match :| m.process in snapshots && m.process.pid == p
                    && IsMatch(m, m.process, KnownJobsForMatch(s.knownJobs))
                    && Describes(s'.activeJobs[p], m, s.knownJobs, s'.log);
    var i :| 0 <= i < |snapshots| && snapshots[i] == m.process;
    assert OpenedFor(s'.activeJobs[p], snapshots[i], s.knownJobs);
    OpenStarted(s, s', snapshots, now, matched, gone, p);
  }

  lemma {:induction false} OpenAllStarted(s: State, matched: seq<Match>, p: Pid)
    requires p !in s.activeJobs && p in OpenAll(s, matched).activeJobs
    ensures var r := OpenAll(s, matched);
            exists i :: |s.log| <= i < |r.log| && ReportsStart(r.log[i].event, r.activeJobs[p])
  {
    var n := |matched| - 1;
    var before, r := OpenAll(s, matched[..n]), OpenAll(s, matched);
    OpenAllEvents(s, matched[..n]);
    if p in before.activeJobs {
      OpenAllStarted(s, matched[..n], p);
      var i :| |s.log| <= i < |before.log| && ReportsStart(before.log[i].event, before.activeJobs[p]);
      assert ReportsStart(r.log[i].event, r.activeJobs[p]);
    } else {
      assert ReportsStart(r.log[|before.log|].event, r.activeJobs[p]);
    }
  }

  lemma OpenStarted(s: State, s': State, snapshots: seq<Snapshot>, now: Time, matched: seq<Match>, gone: seq<Pid>, p: Pid)
    requires IsScan(s, s', snapshots, now, matched, gone)
    requires p !in s.activeJobs && p in s'.activeJobs
    ensures exists i :: |s.log| <= i < |s'.log| && ReportsStart(s'.log[i].event, s'.activeJobs[p])
  {
    var mid := OpenAll(s, matched);
    CloseAllPids(mid, gone, now);
    CloseAllLogs(mid, gone, now);
    OpenAllStarted(s, matched, p);
    var i :| |s.log| <= i < |mid.log| && ReportsStart(mid.log[i].event, mid.activeJobs[p]);
    assert ReportsStart(s'.log[i].event, s'.activeJobs[p]);
  }

  // ------------------------------------------------------------ every end has its start

  /** A started event before position n with the given hash and start. */
  ghost predicate StartedBefore(log: seq<Buffered>, n: nat, hash: Hash, startedAt: Time)
    requires n <= |log|
  {
    exists i :: 0 <= i < n && log[i].event.ProcessStarted? && log[i].event.hash == hash && log[i].event.startedAt == startedAt
  }

  ghost predicate LogOk(s: State) {
    && (forall p :: p in s.activeJobs ==> StartedBefore(s.log, |s.log|, s.activeJobs[p].hash, s.activeJobs[p].startedAt))
    && (forall j :: 0 <= j < |s.log| && s.log[j].event.ProcessGone? ==>
          StartedBefore(s.log, j, s.log[j].event.hash, s.log[j].event.startedAt))
  }

  lemma StartedLater(log: seq<Buffered>, n: nat, more: seq<Buffered>, m: nat, hash: Hash, startedAt: Time)
    requires n <= |log| && StartedBefore(log, n, hash, startedAt) && log <= more && n <= m <= |more|
    ensures StartedBefore(more, m, hash, startedAt)
  {
    var i :| 0 <= i < n && log[i].event.ProcessStarted? && log[i].event.hash == hash && log[i].event.startedAt == startedAt;
    assert more[i] == log[i];
  }

  /** One more entry in the log: a start, an end of what had started, or another event. */
  lemma LogAppends(s: State, e: Buffered)
    requires LogOk(s)
    requires e.event.ProcessGone? ==> StartedBefore(s.log, |s.log|, e.event.hash, e.event.startedAt)
    ensures var log := s.log + [e];
            && (forall p :: p in s.activeJobs ==>
                  StartedBefore(log, |log|, s.activeJobs[p].hash, s.activeJobs[p].startedAt))
            && (forall j :: 0 <= j < |log| && log[j].event.ProcessGone? ==>
                  StartedBefore(log, j, log[j].event.hash, log[j].event.startedAt))
            && (e.event.ProcessStarted? ==> StartedBefore(log, |log|, e.event.hash, e.event.startedAt))
  {
    var log := s.log + [e];
    forall p | p in s.activeJobs ensures StartedBefore(log, |log|, s.activeJobs[p].hash, s.activeJobs[p].startedAt) {
      StartedLater(s.log, |s.log|, log, |log|, s.activeJobs[p].hash, s.activeJobs[p].startedAt);
    }
    forall j | 0 <= j < |log| && log[j].event.ProcessGone?
      ensures StartedBefore(log, j, log[j].event.hash, log[j].event.startedAt)
    {
      StartedLater(s.log, j, log, j, log[j].event.hash, log[j].event.startedAt);
    }
    assert log[|s.log|] == e;
  }

  lemma OpenKeepsLog(s: State, m: Match)
    requires LogOk(s)
    ensures LogOk(Open(s, m))
  {
    if m.process.pid !in s.activeJobs && m.hash in s.knownJobs {
      var a := NewActive(s.nextId, m, s.knownJobs[m.hash]);
      LogAppends(s, Buffered(s.nextId, StartEvent(a, m.process.ppid)));
    }
  }

  lemma CloseKeepsLog(s: State, pid: Pid, now: Time)
    requires LogOk(s) && pid in s.activeJobs
    ensures LogOk(Close(s, pid, now))
  {
    LogAppends(s, Buffered(s.nextId, GoneEvent(s.activeJobs[pid], now)));
  }

  lemma {:induction false} ScanKeepsLog(s: State, s': State, snapshots: seq<Snapshot>, now: Time, matched: seq<Match>, gone: seq<Pid>)
    requires LogOk(s) && IsScan(s, s', snapshots, now, matched, gone)
    ensures LogOk(s')
  {
    OpenAllKeepsLog(s, matched);
    CloseAllKeepsLog(OpenAll(s, matched), gone, now);
  }

  lemma {:induction false} OpenAllKeepsLog(s: State, matched: seq<Match>)
    requires LogOk(s)
    ensures LogOk(OpenAll(s, matched))
  {
    if matched != [] {
      OpenAllKeepsLog(s, matched[..|matched| - 1]);
      OpenKeepsLog(OpenAll(s, matched[..|matched| - 1]), matched[|matched| - 1]);
    }
  }

  lemma {:induction false} CloseAllKeepsLog(s: State, gone: seq<Pid>, now: Time)
    requires LogOk(s)
    ensures LogOk(CloseAll(s, gone, now))
  {
    if gone != [] {
      var n := |gone| - 1;
      CloseAllKeepsLog(s, gone[..n], now);
      if gone[n] in CloseAll(s, gone[..n], now).activeJobs {
        CloseKeepsLog(CloseAll(s, gone[..n], now), gone[n], now);
      }
    }
  }

  // ---------------------------------------------------------------- iteration order

  /**
   Ranging over the maps in another order changes neither the tracked PIDs, nor the
   executions that stay open, nor which executions are reported gone.
   */
  lemma OrderDoesNotMatter(s: State, snapshots: seq<Snapshot>, now: Time,
                           s1: State, m1: seq<Match>, g1: seq<Pid>, s2: State, m2: seq<Match>, g2: seq<Pid>)
    requires IsScan(s, s1, snapshots, now, m1, g1)
    requires IsScan(s, s2, snapshots, now, m2, g2)
    ensures s1.activeJobs.Keys == s2.activeJobs.Keys
    ensures forall p :: p in s.activeJobs && p in s1.activeJobs ==> s1.activeJobs[p] == s2.activeJobs[p]
    ensures forall p :: p in g1 <==> p in g2
  {
    ScanTracksMatching(s, s1, snapshots, now, m1, g1);
    ScanTracksMatching(s, s2, snapshots, now, m2, g2);
    ScanReportsGone(s, s1, snapshots, now, m1, g1);
    ScanReportsGone(s, s2, snapshots, now, m2, g2);
  }

  ghost predicate Unambiguous(snapshots: seq<Snapshot>, jobs: Commands)
    requires AllIndexable(jobs)
  {
    forall i, h, k :: 0 <= i < |snapshots| && MatchesJob(snapshots[i], jobs, h) && MatchesJob(snapshots[i], jobs, k) ==> h == k
  }

  /** MatchJobs has one possible result. */
  ghost predicate OneMatching(snapshots: seq<Snapshot>, jobs: Commands)
    requires AllIndexable(jobs)
  {
    forall m1, m2 :: IsMatching(snapshots, jobs, m1) && IsMatching(snapshots, jobs, m2) ==> m1 == m2
  }

  lemma {:induction false} UnambiguousMatching(snapshots: seq<Snapshot>, jobs: Commands, m1: seq<Match>, m2: seq<Match>)
    requires AllIndexable(jobs) && Unambiguous(snapshots, jobs)
    requires IsMatching(snapshots, jobs, m1) && IsMatching(snapshots, jobs, m2)
    ensures m1 == m2
    decreases |snapshots|
  {
    if snapshots != [] {
      var n := |snapshots| - 1;
      assert forall i :: 0 <= i < n ==> snapshots[..n][i] == snapshots[i];
      if MatchesSome(snapshots[n], jobs) {
        UnambiguousMatching(snapshots[..n], jobs, m1[..|m1| - 1], m2[..|m2| - 1]);
      } else {
        UnambiguousMatching(snapshots[..n], jobs, m1, m2);
      }
    }
  }

  function MatchOf(s: Snapshot, jobs: Commands, h: Hash): Match
    requires h in jobs
  {
    Match(s, h, Confidence(s.cmdline, jobs[h]))
  }

  /** One more process that matches job h lengthens every matching by that match. */
  lemma MatchingSnoc(snapshots: seq<Snapshot>, jobs: Commands, matched: seq<Match>, h: Hash)
    requires AllIndexable(jobs) && snapshots != []
    requires IsMatching(snapshots[..|snapshots| - 1], jobs, matched)
    requires MatchesJob(snapshots[|snapshots| - 1], jobs, h)
    ensures IsMatching(snapshots, jobs, matched + [MatchOf(snapshots[|snapshots| - 1], jobs, h)])
  {
    var m := MatchOf(snapshots[|snapshots| - 1], jobs, h);
    assert (matched + [m])[..|matched|] == matched;
  }

  lemma {:induction false} SomeMatching(snapshots: seq<Snapshot>, jobs: Commands) returns (matched: seq<Match>)
    requires AllIndexable(jobs)
    ensures IsMatching(snapshots, jobs, matched)
    decreases |snapshots|
  {
    matched := [];
    if snapshots != [] {
      var n := |snapshots| - 1;
      matched := SomeMatching(snapshots[..n], jobs);
      if h :| MatchesJob(snapshots[n], jobs, h) {
        MatchingSnoc(snapshots, jobs, matched, h);
        matched := matched + [MatchOf(snapshots[n], jobs, h)];
      }
    }
  }

  lemma UpdateSnoc<T>(m: seq<T>, p: nat, other: T, last: T)
    requires p < |m|
    ensures (m + [last])[p := other] == m[p := other] + [last]
  {
  }

  lemma AmbiguousLast(snapshots: seq<Snapshot>, jobs: Commands, h: Hash, k: Hash) returns (m: seq<Match>, p: nat)
    requires AllIndexable(jobs) && snapshots != []
    requires MatchesJob(snapshots[|snapshots| - 1], jobs, h) && MatchesJob(snapshots[|snapshots| - 1], jobs, k)
    ensures p < |m| && m[p] == MatchOf(snapshots[|snapshots| - 1], jobs, h)
    ensures IsMatching(snapshots, jobs, m)
    ensures IsMatching(snapshots, jobs, m[p := MatchOf(snapshots[|snapshots| - 1], jobs, k)])
  {
    var n := |snapshots| - 1;
    var front := SomeMatching(snapshots[..n], jobs);
    MatchingSnoc(snapshots, jobs, front, h);
    MatchingSnoc(snapshots, jobs, front, k);
    m, p := front + [MatchOf(snapshots[n], jobs, h)], |front|;
    assert m[p := MatchOf(snapshots[n], jobs, k)] == front + [MatchOf(snapshots[n], jobs, k)];
  }

  /**
   A process that matches two jobs, wherever it stands in the list: two results that
   differ in its match alone are both possible, one for each job.
   */
  lemma {:induction false} AmbiguousMatching(snapshots: seq<Snapshot>, jobs: Commands, i: nat, h: Hash, k: Hash)
    returns (m: seq<Match>, p: nat)
    requires AllIndexable(jobs) && i < |snapshots|
    requires MatchesJob(snapshots[i], jobs, h) && MatchesJob(snapshots[i], jobs, k)
    ensures p < |m| && m[p] == MatchOf(snapshots[i], jobs, h)
    ensures IsMatching(snapshots, jobs, m)
    ensures IsMatching(snapshots, jobs, m[p := MatchOf(snapshots[i], jobs, k)])
    decreases |snapshots|
  {
    var n := |snapshots| - 1;
    if i == n {
      m, p := AmbiguousLast(snapshots, jobs, h, k);
    } else {
      m, p := AmbiguousMatching(snapshots[..n], jobs, i, h, k);
      if j :| MatchesJob(snapshots[n], jobs, j) {
        MatchingSnoc(snapshots, jobs, m, j);
        MatchingSnoc(snapshots, jobs, m[p := MatchOf(snapshots[i], jobs, k)], j);
        UpdateSnoc(m, p, MatchOf(snapshots[i], jobs, k), MatchOf(snapshots[n], jobs, j));
        m := m + [MatchOf(snapshots[n], jobs, j)];
      }
    }
  }

  /** The attribution of processes to jobs is independent of map order if and only if no process matches two jobs. */
  lemma AttributionIsUnique(snapshots: seq<Snapshot>, jobs: Commands)
    requires AllIndexable(jobs)
    ensures OneMatching(snapshots, jobs) <==> Unambiguous(snapshots, jobs)
  {
    if Unambiguous(snapshots, jobs) {
      forall m1, m2 | IsMatching(snapshots, jobs, m1) && IsMatching(snapshots, jobs, m2) ensures m1 == m2 {
        UnambiguousMatching(snapshots, jobs, m1, m2);
      }
    } else {
      var i, h, k :| 0 <= i < |snapshots| && MatchesJob(snapshots[i], jobs, h) && MatchesJob(snapshots[i], jobs, k) && h != k;
      var m, p := AmbiguousMatching(snapshots, jobs, i, h, k);
      assert m[p := MatchOf(snapshots[i], jobs, k)][p] != m[p];
    }
  }
}
