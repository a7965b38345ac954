/**
 The alert table and its reconciliation: a sampled condition fires an alert when
 none is active for its target and rule, or resolves the active one.
 */
module Alerts {
  import opened Wrappers

  type Time = int

  /** A target with the one rule that is evaluated for it. */
  datatype Key = StaleHeartbeat(host: int) | RepeatedFailures(job: int)

  datatype Alert = Alert(key: Key, active: bool, triggeredAt: Time, resolvedAt: Option<Time>)

  type Table = seq<Alert>

  /**
   One evaluation of a condition. A database error may strike before or after the
   table is changed; `applied` says whether the sample took effect.
   */
  datatype Sample = Sample(key: Key, holds: bool, at: Time, applied: bool)

  predicate HasActive(t: Table, key: Key) {
    exists i :: 0 <= i < |t| && t[i].key == key && t[i].active
  }

  /** Insert: a new row, active by default. */
  function Insert(t: Table, key: Key, at: Time): Table {
    t + [Alert(key, true, at, None)]
  }

  /** Resolve: every active row of the key. */
  function Resolve(t: Table, key: Key, at: Time): (r: Table)
    ensures |r| == |t|
    ensures forall i :: 0 <= i < |t| ==>
              r[i] == if t[i].key == key && t[i].active then t[i].(active := false, resolvedAt := Some(at)) else t[i]
  {
    seq(|t|, i requires 0 <= i < |t| =>
      if t[i].key == key && t[i].active then t[i].(active := false, resolvedAt := Some(at)) else t[i])
  }

  function Reconcile(t: Table, s: Sample): Table {
    if !s.applied then t
    else if !s.holds then Resolve(t, s.key, s.at)
    else if HasActive(t, s.key) then t
    else Insert(t, s.key, s.at)
  }

  function ReconcileAll(t: Table, samples: seq<Sample>): Table {
    if samples == [] then t
    else Reconcile(ReconcileAll(t, samples[..|samples| - 1]), samples[|samples| - 1])
  }

  // --------------------------------------------------------------------- invariants

  /** Active rows have no resolution time, resolved ones have one, and a key has at most one active row. */
  ghost predicate Inv(t: Table) {
    && (forall i :: 0 <= i < |t| ==> (t[i].active <==> t[i].resolvedAt.None?))
    && forall i, j :: 0 <= i < j < |t| && t[i].active && t[j].active ==> t[i].key != t[j].key
  }

  /** History only grows: rows stay, keep key and trigger time, and once resolved never change. */
  ghost predicate Extends(t: Table, later: Table) {
    && |t| <= |later|
    && forall i :: 0 <= i < |t| ==>
         && later[i].key == t[i].key && later[i].triggeredAt == t[i].triggeredAt
         && (!t[i].active ==> later[i] == t[i])
  }

  lemma ReconcileKeeps(t: Table, s: Sample)
    requires Inv(t)
    ensures Inv(Reconcile(t, s)) && Extends(t, Reconcile(t, s))
    ensures s.applied ==> (HasActive(Reconcile(t, s), s.key) <==> s.holds)
    ensures forall key :: key != s.key ==> (HasActive(Reconcile(t, s), key) <==> HasActive(t, key))
  {
    var r := Reconcile(t, s);
    if s.applied {
      if s.holds && !HasActive(t, s.key) {
        assert r[|t|].key == s.key && r[|t|].active;
      }
      forall key | key != s.key ensures HasActive(r, key) <==> HasActive(t, key) {
        if HasActive(t, key) {
          var i :| 0 <= i < |t| && t[i].key == key && t[i].active;
          assert r[i].key == key && r[i].active;
        }
      }
    }
  }

  /**
   With one evaluator, whatever samples are taken and whatever errors occur, no
   target and rule ever has two active alerts, and resolved alerts never change.
   */
  lemma {:induction false} RunsKeep(samples: seq<Sample>, k: nat)
    requires k <= |samples|
    ensures Inv(ReconcileAll([], samples))
    ensures Extends(ReconcileAll([], samples[..k]), ReconcileAll([], samples))
  {
    if k == |samples| {
      assert samples[..k] == samples;
      if samples != [] {
        RunsKeep(samples[..k - 1], 0);
        ReconcileKeeps(ReconcileAll([], samples[..k - 1]), samples[k - 1]);
      }
    } else {
      var n := |samples| - 1;
      RunsKeep(samples[..n], k);
      assert samples[..n][..k] == samples[..k];
      ReconcileKeeps(ReconcileAll([], samples[..n]), samples[n]);
    }
  }

  // ------------------------------------------------------------ where rows come from

  /** From sample i on, every sample of the key that took effect held. */
  ghost predicate HeldFrom(samples: seq<Sample>, i: nat, j: nat, key: Key) {
    forall k :: i <= k < j && k < |samples| && samples[k].key == key && samples[k].applied ==> samples[k].holds
  }

  /**
   A row belongs to a stretch of samples: it was triggered by sample i, which held,
   and it was resolved by the first one after it that did not hold, if there is one.
   */
  ghost predicate IsStay(samples: seq<Sample>, a: Alert, i: nat, j: nat) {
    && i < j <= |samples|
    && samples[i].key == a.key && samples[i].applied && samples[i].holds && a.triggeredAt == samples[i].at
    && HeldFrom(samples, i, j, a.key)
    && (a.active <==> j == |samples|)
    && a.resolvedAt == (if j < |samples| then Some(samples[j].at) else None)
    && (j < |samples| ==> samples[j].key == a.key && samples[j].applied && !samples[j].holds)
  }

  ghost predicate HasStay(samples: seq<Sample>, a: Alert) {
    exists i: nat, j: nat :: IsStay(samples, a, i, j)
  }

  lemma StayGoesOn(samples: seq<Sample>, a: Alert, a': Alert)
    requires samples != [] && HasStay(samples[..|samples| - 1], a)
    requires var s := samples[|samples| - 1];
             a' == if a.active && s.applied && !s.holds && s.key == a.key then a.(active := false, resolvedAt := Some(s.at))
                   else a
    ensures HasStay(samples, a')
  {
    var n := |samples| - 1;
    var i: nat, j: nat :| IsStay(samples[..n], a, i, j);
    assert samples[..n][i] == samples[i];
    assert j < n ==> samples[..n][j] == samples[j];
    assert HeldFrom(samples, i, j, a.key) by {
      assert forall k :: i <= k < j ==> samples[..n][k] == samples[k];
    }
    assert IsStay(samples, a', i, if a'.active then n + 1 else j);
  }

  /** Every row, with its two times, comes from a stretch of samples of its key that held. */
  lemma {:induction false} RowsAreStays(samples: seq<Sample>)
    ensures forall r :: 0 <= r < |ReconcileAll([], samples)| ==> HasStay(samples, ReconcileAll([], samples)[r])
  {
    if samples != [] {
      var n := |samples| - 1;
      var t, s := ReconcileAll([], samples[..n]), samples[n];
      RowsAreStays(samples[..n]);
      forall r | 0 <= r < |Reconcile(t, s)| ensures HasStay(samples, Reconcile(t, s)[r]) {
        if r < |t| {
          StayGoesOn(samples, t[r], Reconcile(t, s)[r]);
        } else {
          assert IsStay(samples, Reconcile(t, s)[r], n, n + 1);
        }
      }
    }
  }

  // ------------------------------------------------------------- edge-triggered rows

  function Rows(t: Table, key: Key): nat {
    if t == [] then 0 else Rows(t[..|t| - 1], key) + if t[|t| - 1].key == key then 1 else 0
  }

  /** The last sample of a key, false before the first. */
  function Current(samples: seq<Sample>, key: Key): bool {
    if samples == [] then false
    else
      var s := samples[|samples| - 1];
      if s.key == key then s.holds else Current(samples[..|samples| - 1], key)
  }

  /** How often the sampled condition of a key turns from false to true. */
  function Edges(samples: seq<Sample>, key: Key): nat {
    if samples == [] then 0
    else
      var n := |samples| - 1;
      var s := samples[n];
      Edges(samples[..n], key) + if s.key == key && s.holds && !Current(samples[..n], key) then 1 else 0
  }

  lemma {:induction false} RowsOfResolve(t: Table, key: Key, at: Time, k: Key)
    ensures Rows(Resolve(t, key, at), k) == Rows(t, k)
  {
    if t != [] {
      RowsOfResolve(t[..|t| - 1], key, at, k);
      assert Resolve(t, key, at)[..|t| - 1] == Resolve(t[..|t| - 1], key, at);
    }
  }

  lemma RowsOfReconcile(t: Table, s: Sample, key: Key)
    ensures Rows(Reconcile(t, s), key) ==
              Rows(t, key) + if s.applied && s.holds && s.key == key && !HasActive(t, key) then 1 else 0
  {
    RowsOfResolve(t, s.key, s.at, key);
    assert Insert(t, s.key, s.at)[..|t|] == t;
  }

  lemma {:induction false} ReconcileSets(samples: seq<Sample>, s: Sample, key: Key)
    requires s.applied
    ensures var t := ReconcileAll([], samples);
            HasActive(Reconcile(t, s), key) <==> if s.key == key then s.holds else HasActive(t, key)
  {
    RunsKeep(samples, |samples|);
    ReconcileKeeps(ReconcileAll([], samples), s);
  }

  /**
   When no database error occurs, an alert of a key is active exactly while its
   last sample holds, and one row was inserted for each false-to-true edge.
   */
  lemma {:induction false} RowsAreEdges(samples: seq<Sample>, key: Key)
    requires forall i :: 0 <= i < |samples| ==> samples[i].applied
    ensures HasActive(ReconcileAll([], samples), key) <==> Current(samples, key)
    ensures Rows(ReconcileAll([], samples), key) == Edges(samples, key)
  {
    if samples != [] {
      var n := |samples| - 1;
      var t, s := ReconcileAll([], samples[..n]), samples[n];
      RowsAreEdges(samples[..n], key);
      ReconcileSets(samples[..n], s, key);
      RowsOfReconcile(t, s, key);
    }
  }
}
