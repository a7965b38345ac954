/**
 The alert evaluator: one pass marks stale hosts, then samples the two rules for
 every host and every job and reconciles the alert table.
 */
module Evaluator {
  import opened Executions
  import opened Alerts
  import opened Hosts

  const FAIL_THRESHOLD: nat := 3

  /** When one row of a listing is evaluated, and whether the database lets the result take effect. */
  datatype Visit = Visit(id: int, at: Time, applied: bool)

  function HostSamples(hosts: Hosts, visits: seq<Visit>): (r: seq<Sample>)
    requires forall i :: 0 <= i < |visits| ==> visits[i].id in hosts
    ensures |r| == |visits|
    ensures forall i :: 0 <= i < |r| ==> var v := visits[i];
              r[i] == Sample(StaleHeartbeat(v.id), IsStale(hosts[v.id], v.at), v.at, v.applied)
  {
    seq(|visits|, i requires 0 <= i < |visits| =>
      var v := visits[i]; Sample(StaleHeartbeat(v.id), IsStale(hosts[v.id], v.at), v.at, v.applied))
  }

  function JobSamples(table: seq<Execution>, visits: seq<Visit>): (r: seq<Sample>)
    ensures |r| == |visits|
    ensures forall i :: 0 <= i < |r| ==> var v := visits[i];
              r[i] == Sample(RepeatedFailures(v.id), CountRecentFailures(table, v.id, v.at) >= FAIL_THRESHOLD, v.at, v.applied)
  {
    seq(|visits|, i requires 0 <= i < |visits| =>
      var v := visits[i];
      Sample(RepeatedFailures(v.id), CountRecentFailures(table, v.id, v.at) >= FAIL_THRESHOLD, v.at, v.applied))
  }

  lemma ReconcileSnoc(t: Table, samples: seq<Sample>, i: nat)
    requires i < |samples|
    ensures ReconcileAll(t, samples[..i + 1]) == Reconcile(ReconcileAll(t, samples[..i]), samples[i])
  {
    assert samples[..i + 1][..i] == samples[..i];
  }

  class Evaluator {
    var hosts: Hosts
    var executions: seq<Execution>
    var alerts: Table

    constructor ()
      ensures hosts == map[] && executions == [] && alerts == []
    {
      hosts, executions, alerts := map[], [], [];
    }

    /** fireOrUpdate; the lookup of the active alert and the insert may fail. */
    method FireOrUpdate(key: Key, at: Time, lookedUp: bool, inserted: bool)
      modifies this`alerts
      ensures alerts == Reconcile(old(alerts), Sample(key, true, at, lookedUp && inserted))
      ensures HasActive(alerts, key) <==> HasActive(old(alerts), key) || (lookedUp && inserted)
    {
      if !lookedUp {
        return;
      }
      var found := false;
      for i := 0 to |alerts|
        invariant found <==> exists k :: 0 <= k < i && alerts[k].key == key && alerts[k].active
      {
        if alerts[i].key == key && alerts[i].active {
          found := true;
        }
      }
      if found {
        return;
      }
      if !inserted {
        return;
      }
      alerts := Insert(alerts, key, at);
      assert alerts[|alerts| - 1].key == key && alerts[|alerts| - 1].active;
    }

    /**
     checkStaleHeartbeats at time `at`: `marked` tells whether the update succeeded
     and `visits` is the listing of all hosts with the time each one is looked at.
     */
    method CheckStaleHeartbeats(at: Time, marked: bool, visits: seq<Visit>)
      requires forall i :: 0 <= i < |visits| ==> visits[i].id in hosts
      modifies this`hosts, this`alerts
      ensures hosts == if marked then MarkStale(old(hosts), at) else old(hosts)
      ensures alerts == if marked then ReconcileAll(old(alerts), HostSamples(hosts, visits)) else old(alerts)
    {
      if !marked {
        return;
      }
      hosts := MarkStale(hosts, at);
      ghost var samples := HostSamples(hosts, visits);
      for i := 0 to |visits|
        invariant hosts == MarkStale(old(hosts), at)
        invariant alerts == ReconcileAll(old(alerts), samples[..i])
      {
        ReconcileSnoc(old(alerts), samples, i);
        var v := visits[i];
        var h := hosts[v.id];
        var isStale := h.status == Stale ||
                       (h.lastHeartbeat.Some? && v.at - h.lastHeartbeat.value > THRESHOLD);
        if isStale {
          FireOrUpdate(StaleHeartbeat(v.id), v.at, v.applied, true);
        } else if v.applied {
          alerts := Resolve(alerts, StaleHeartbeat(v.id), v.at);
        }
      }
      assert samples[..|visits|] == samples;
    }

    /** checkRepeatedFailures over the listing of all jobs; a failed count skips its job. */
    method CheckRepeatedFailures(visits: seq<Visit>)
      modifies this`alerts
      ensures alerts == ReconcileAll(old(alerts), JobSamples(executions, visits))
    {
      ghost var samples := JobSamples(executions, visits);
      for i := 0 to |visits|
        invariant alerts == ReconcileAll(old(alerts), samples[..i])
      {
        ReconcileSnoc(old(alerts), samples, i);
        var v := visits[i];
        if !v.applied {
          continue;
        }
        var count := CountRecentFailures(executions, v.id, v.at);
        if count >= FAIL_THRESHOLD {
          FireOrUpdate(RepeatedFailures(v.id), v.at, true, true);
        } else {
          alerts := Resolve(alerts, RepeatedFailures(v.id), v.at);
        }
      }
      assert samples[..|visits|] == samples;
    }

    method RunAll(at: Time, marked: bool, hostVisits: seq<Visit>, jobVisits: seq<Visit>)
      requires forall i :: 0 <= i < |hostVisits| ==> hostVisits[i].id in hosts
      modifies this`hosts, this`alerts
      ensures hosts == if marked then MarkStale(old(hosts), at) else old(hosts)
      ensures alerts == ReconcileAll(
                if marked then ReconcileAll(old(alerts), HostSamples(hosts, hostVisits)) else old(alerts),
                JobSamples(executions, jobVisits))
    {
      CheckStaleHeartbeats(at, marked, hostVisits);
      CheckRepeatedFailures(jobVisits);
    }
  }
}
