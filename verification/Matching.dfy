/** Matching running processes against the known job commands. */
module Matching {
  import opened Wrappers
  import opened Ordered
  import opened Text

  type Pid = int
  type Hash = int   // the first eight bytes of a digest
  type Time = int

  datatype Snapshot = Snapshot(pid: Pid, ppid: Pid, cmdline: string, createTime: Time)

  datatype Match = Match(process: Snapshot, hash: Hash, confidence: real)

  type Commands = map<Hash, string>

  /** Normalized commands are empty or have a first token, so indexing it cannot fail. */
  predicate Indexable(c: string) {
    c == "" || Fields(c) != []
  }

  predicate AllIndexable(jobs: Commands) {
    forall h :: h in jobs ==> Indexable(jobs[h])
  }

  /** matchesCommand: the command line contains the first token of the command. */
  predicate MatchesCommand(cmdline: string, command: string)
    requires Indexable(command)
  {
    command != "" && Contains(cmdline, Fields(command)[0])
  }

  ghost predicate MatchesJob(s: Snapshot, jobs: Commands, h: Hash)
    requires AllIndexable(jobs)
  {
    h in jobs && MatchesCommand(s.cmdline, jobs[h])
  }

  ghost predicate MatchesSome(s: Snapshot, jobs: Commands)
    requires AllIndexable(jobs)
  {
    exists h :: MatchesJob(s, jobs, h)
  }

  function Confidence(cmdline: string, command: string): real {
    if cmdline == command then 0.95 else 0.75
  }

  ghost predicate IsMatch(m: Match, s: Snapshot, jobs: Commands)
    requires AllIndexable(jobs)
  {
    m.process == s && MatchesJob(s, jobs, m.hash) && m.confidence == Confidence(s.cmdline, jobs[m.hash])
  }

  /**
   What MatchJobs may return, whatever order the job map is ranged in: for each
   snapshot that matches some job, in order, one match with some job it matches.
   */
  ghost predicate IsMatching(snapshots: seq<Snapshot>, jobs: Commands, matched: seq<Match>)
    requires AllIndexable(jobs)
    decreases |snapshots|
  {
    if snapshots == [] then matched == []
    else
      var n := |snapshots| - 1;
      if MatchesSome(snapshots[n], jobs) then
        && matched != []
        && IsMatch(matched[|matched| - 1], snapshots[n], jobs)
        && IsMatching(snapshots[..n], jobs, matched[..|matched| - 1])
      else IsMatching(snapshots[..n], jobs, matched)
  }

  /** The inner loop: range over the jobs until one matches. */
  method FirstMatch(snap: Snapshot, jobs: Commands) returns (m: Option<Match>)
    requires AllIndexable(jobs)
    ensures m.Some? <==> MatchesSome(snap, jobs)
    ensures m.Some? ==> IsMatch(m.value, snap, jobs)
    ensures m.Some? ==>
              && m.value.process == snap && m.value.hash in jobs
              && m.value.confidence == if snap.cmdline == jobs[m.value.hash] then 0.95 else 0.75
  {
    m := None;
    var rest := jobs.Keys;
    while rest != {}
      invariant rest <= jobs.Keys
      invariant m.None? && forall h :: h in jobs && h !in rest ==> !MatchesJob(snap, jobs, h)
      decreases rest
    {
      Inhabited(rest);
      var h :| h in rest;
      rest := rest - {h};
      if MatchesCommand(snap.cmdline, jobs[h]) {
        var confidence := 0.75;
        if snap.cmdline == jobs[h] {
          confidence := 0.95;
        }
        m := Some(Match(snap, h, confidence));
        assert MatchesJob(snap, jobs, h);
        break;
      }
    }
  }

  method MatchJobs(snapshots: seq<Snapshot>, jobs: Commands) returns (matched: seq<Match>)
    requires AllIndexable(jobs)
    ensures IsMatching(snapshots, jobs, matched)
  {
    matched := [];
    for i := 0 to |snapshots|
      invariant IsMatching(snapshots[..i], jobs, matched)
    {
      assert snapshots[..i + 1][..i] == snapshots[..i];
      var m := FirstMatch(snapshots[i], jobs);
      if m.Some? {
        assert (matched + [m.value])[..|matched|] == matched;
        matched := matched + [m.value];
      }
    }
    assert snapshots[..|snapshots|] == snapshots;
  }

  /** The PIDs of the processes that match some known job. */
  ghost function MatchingPids(snapshots: seq<Snapshot>, jobs: Commands): set<Pid>
    requires AllIndexable(jobs)
  {
    set i | 0 <= i < |snapshots| && MatchesSome(snapshots[i], jobs) :: snapshots[i].pid
  }

  ghost function MatchedPids(matched: seq<Match>): set<Pid> {
    set i | 0 <= i < |matched| :: matched[i].process.pid
  }

  /** Whatever the order, the matched PIDs are those that match some job. */
  lemma {:induction false} MatchedAreMatching(snapshots: seq<Snapshot>, jobs: Commands, matched: seq<Match>)
    requires AllIndexable(jobs) && IsMatching(snapshots, jobs, matched)
    ensures MatchedPids(matched) == MatchingPids(snapshots, jobs)
    decreases |snapshots|
  {
    if snapshots == [] {
      assert MatchedPids(matched) == {};
    } else {
      var n := |snapshots| - 1;
      MatchingPidsSnoc(snapshots, jobs);
      if MatchesSome(snapshots[n], jobs) {
        MatchedAreMatching(snapshots[..n], jobs, matched[..|matched| - 1]);
        MatchedPidsSnoc(matched);
      } else {
        MatchedAreMatching(snapshots[..n], jobs, matched);
      }
    }
  }

  lemma {:induction false} MatchesAreSnapshots(snapshots: seq<Snapshot>, jobs: Commands, matched: seq<Match>, i: nat)
    requires AllIndexable(jobs) && IsMatching(snapshots, jobs, matched) && i < |matched|
    ensures matched[i].process in snapshots && IsMatch(matched[i], matched[i].process, jobs)
    decreases |snapshots|
  {
    var n := |snapshots| - 1;
    if !MatchesSome(snapshots[n], jobs) {
      MatchesAreSnapshots(snapshots[..n], jobs, matched, i);
    } else if i < |matched| - 1 {
      MatchesAreSnapshots(snapshots[..n], jobs, matched[..|matched| - 1], i);
    }
  }

  lemma MatchedHashesKnown(snapshots: seq<Snapshot>, jobs: Commands, matched: seq<Match>)
    requires AllIndexable(jobs) && IsMatching(snapshots, jobs, matched)
    ensures forall i :: 0 <= i < |matched| ==> matched[i].hash in jobs
  {
    forall i | 0 <= i < |matched| ensures matched[i].hash in jobs {
      MatchesAreSnapshots(snapshots, jobs, matched, i);
    }
  }

  lemma MatchingPidsSnoc(snapshots: seq<Snapshot>, jobs: Commands)
    requires AllIndexable(jobs) && snapshots != []
    ensures var n := |snapshots| - 1;
            MatchingPids(snapshots, jobs) ==
              MatchingPids(snapshots[..n], jobs) + if MatchesSome(snapshots[n], jobs) then {snapshots[n].pid} else {}
  {
    var n := |snapshots| - 1;
    forall p | p in MatchingPids(snapshots[..n], jobs) ensures p in MatchingPids(snapshots, jobs) {
      var i :| 0 <= i < n && MatchesSome(snapshots[..n][i], jobs) && snapshots[..n][i].pid == p;
      assert snapshots[i].pid == p;
    }
    forall p | p in MatchingPids(snapshots, jobs) && (p != snapshots[n].pid || !MatchesSome(snapshots[n], jobs))
      ensures p in MatchingPids(snapshots[..n], jobs)
    {
      var i :| 0 <= i < |snapshots| && MatchesSome(snapshots[i], jobs) && snapshots[i].pid == p;
      assert snapshots[..n][i].pid == p;
    }
  }

  lemma MatchedPidsSnoc(matched: seq<Match>)
    requires matched != []
    ensures var n := |matched| - 1;
            MatchedPids(matched) == MatchedPids(matched[..n]) + {matched[n].process.pid}
  {
    var n := |matched| - 1;
    forall p | p in MatchedPids(matched[..n]) ensures p in MatchedPids(matched) {
      var i :| 0 <= i < n && matched[..n][i].process.pid == p;
      assert matched[i].process.pid == p;
    }
    forall p | p in MatchedPids(matched) && p != matched[n].process.pid ensures p in MatchedPids(matched[..n]) {
      var i :| 0 <= i < |matched| && matched[i].process.pid == p;
      assert matched[..n][i].process.pid == p;
    }
  }
}
