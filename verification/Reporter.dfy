/**
 The agent's store bucket of buffered executions and the flush loop over it, as
 the code runs them: the steps of module Outbox, one goroutine at a time.
 */
module Reporter {
  import opened Wrappers
  import opened Ordered
  import opened Outbox

  datatype PendingExecution = PendingExecution(id: EventId, payload: Event)

  ghost function Ids(items: seq<PendingExecution>): set<EventId> {
    set i | 0 <= i < |items| :: items[i].id
  }

  /** Every entry of the bucket once, with its payload. */
  ghost predicate IsSnapshot(items: seq<PendingExecution>, bucket: map<EventId, Event>) {
    && Ids(items) == bucket.Keys
    && (forall i :: 0 <= i < |items| ==> items[i].id in bucket && items[i].payload == bucket[items[i].id])
    && (forall i, j :: 0 <= i < j < |items| ==> items[i].id != items[j].id)
  }

  lemma IdsSnoc(items: seq<PendingExecution>, p: PendingExecution)
    ensures Ids(items + [p]) == Ids(items) + {p.id}
  {
    var more := items + [p];
    forall x | x in Ids(items) + {p.id} ensures x in Ids(more) {
      if x != p.id {
        var i :| 0 <= i < |items| && items[i].id == x;
        assert more[i].id == x;
      } else {
        assert more[|items|].id == x;
      }
    }
  }

  /** The bucket `executions` of the local store; other goroutines write to it as well. */
  class Store {
    var executions: map<EventId, Event>

    constructor ()
      ensures executions == map[]
    {
      executions := map[];
    }

    method SaveExecution(id: EventId, payload: Event)
      modifies this
      ensures executions == old(executions)[id := payload]
    {
      executions := executions[id := payload];
    }

    /**
     A snapshot of the bucket, in some order. `corrupt` are the entries that no
     longer decode: one of them makes the whole snapshot fail.
     */
    method PendingExecutions(corrupt: set<EventId>) returns (r: Option<seq<PendingExecution>>)
      ensures r.Some? <==> executions.Keys !! corrupt
      ensures r.Some? ==> IsSnapshot(r.value, executions)
    {
      var items: seq<PendingExecution> := [];
      var rest := executions.Keys;
      while rest != {}
        invariant rest + Ids(items) == executions.Keys && rest !! Ids(items)
        invariant forall i :: 0 <= i < |items| ==> items[i].id in executions && items[i].payload == executions[items[i].id]
        invariant forall i, j :: 0 <= i < j < |items| ==> items[i].id != items[j].id
        invariant Ids(items) !! corrupt
        decreases rest
      {
        Inhabited(rest);
        var id :| id in rest;
        if id in corrupt {
          return None;
        }
        IdsSnoc(items, PendingExecution(id, executions[id]));
        assert forall i :: 0 <= i < |items| ==> items[i].id in Ids(items);
        items := items + [PendingExecution(id, executions[id])];
        rest := rest - {id};
      }
      r := Some(items);
    }

    method DeleteExecution(id: EventId)
      modifies this
      ensures executions == old(executions) - {id}
    {
      executions := executions - {id};
    }
  }

  /** What other goroutines buffer while a request is under way. */
  method SaveArrivals(store: Store, arrivals: seq<PendingExecution>)
    modifies store
    ensures store.executions == SaveAll(old(store.executions), arrivals)
  {
    for i := 0 to |arrivals|
      invariant store.executions == SaveAll(old(store.executions), arrivals[..i])
    {
      assert arrivals[..i + 1][..i] == arrivals[..i];
      store.SaveExecution(arrivals[i].id, arrivals[i].payload);
    }
    assert arrivals[..|arrivals|] == arrivals;
  }

  /** The delete loop; deleting a stuck entry fails silently. */
  method DeleteSent(store: Store, pending: seq<PendingExecution>, stuck: set<EventId>)
    modifies store
    ensures store.executions == old(store.executions) - (Ids(pending) - stuck)
  {
    for i := 0 to |pending|
      invariant store.executions == old(store.executions) - (Ids(pending[..i]) - stuck)
    {
      IdsSnoc(pending[..i], pending[i]);
      assert pending[..i + 1] == pending[..i] + [pending[i]];
      if pending[i].id !in stuck {
        store.DeleteExecution(pending[i].id);
      }
    }
    assert pending[..|pending|] == pending;
  }

  /**
   FlushExecutions. `corrupt` are the entries that do not decode, `sent` tells
   whether the request was answered with success, `arrivals` are the events that
   other goroutines buffer while it is under way, and `stuck` are the entries whose
   delete fails. The events of the snapshot are deleted, save the stuck ones, and
   only after an acknowledged send: arrivals stay for the next flush.
   */
  method FlushExecutions(
      store: Store, corrupt: set<EventId>, sent: bool, arrivals: seq<PendingExecution>, stuck: set<EventId>)
    requires forall i :: 0 <= i < |arrivals| ==> arrivals[i].id !in store.executions
    modifies store
    ensures store.executions == AfterFlush(old(store.executions), corrupt, sent, arrivals, stuck)
    ensures IsFlushed(old(store.executions), store.executions, corrupt, sent, arrivals, stuck)
  {
    FlushMeaning(store.executions, corrupt, sent, arrivals, stuck);
    var snapshot := store.PendingExecutions(corrupt);
    ghost var bucket := store.executions;
    SaveArrivals(store, arrivals);
    if snapshot.None? {
      return;
    }
    var pending := snapshot.value;
    if |pending| == 0 || !sent {
      SnapshotEmpty(bucket, pending);
      assert |pending| == 0 ==> bucket - (bucket.Keys - stuck) == bucket;
      return;
    }
    DeleteSent(store, pending, stuck);
    ArrivalsSurvive(bucket, bucket.Keys - stuck, arrivals);
  }

  function SaveAll(bucket: map<EventId, Event>, items: seq<PendingExecution>): map<EventId, Event> {
    if items == [] then bucket
    else
      var last := items[|items| - 1];
      SaveAll(bucket, items[..|items| - 1])[last.id := last.payload]
  }

  /** The bucket after a flush: the arrivals, and what it had that was not sent or not deleted. */
  function AfterFlush(bucket: map<EventId, Event>, corrupt: set<EventId>, sent: bool,
                      arrivals: seq<PendingExecution>, stuck: set<EventId>): map<EventId, Event> {
    if sent && bucket.Keys !! corrupt then SaveAll(bucket - (bucket.Keys - stuck), arrivals)
    else SaveAll(bucket, arrivals)
  }

  /** Saving items keeps the other entries and leaves the last item of each id. */
  lemma {:induction false} SavedItems(bucket: map<EventId, Event>, items: seq<PendingExecution>)
    ensures forall id :: id in SaveAll(bucket, items) <==> id in bucket || id in Ids(items)
    ensures forall id :: id in bucket && id !in Ids(items) ==> SaveAll(bucket, items)[id] == bucket[id]
    ensures forall i :: 0 <= i < |items| ==> items[i].id in SaveAll(bucket, items)
    ensures forall i :: 0 <= i < |items| && (forall j :: i < j < |items| ==> items[j].id != items[i].id) ==>
              SaveAll(bucket, items)[items[i].id] == items[i].payload
  {
    if items == [] {
      assert Ids(items) == {};
    } else {
      var n := |items| - 1;
      SavedItems(bucket, items[..n]);
      assert items == items[..n] + [items[n]];
      IdsSnoc(items[..n], items[n]);
    }
  }

  /**
   What a flush leaves, entry by entry. Without an acknowledged send every old entry is
   still there; after one, exactly those whose delete failed. The arrivals are there
   in any case, and nothing else.
   */
  ghost predicate IsFlushed(bucket: map<EventId, Event>, r: map<EventId, Event>, corrupt: set<EventId>, sent: bool,
                            arrivals: seq<PendingExecution>, stuck: set<EventId>) {
    && (!sent || !(bucket.Keys !! corrupt) ==> forall id :: id in bucket ==> id in r && r[id] == bucket[id])
    && (sent && bucket.Keys !! corrupt ==>
          forall id :: id in bucket ==> (id in r <==> id in stuck) && (id in stuck ==> r[id] == bucket[id]))
    && (forall i :: 0 <= i < |arrivals| ==> arrivals[i].id in r)
    && (forall i :: 0 <= i < |arrivals| && (forall j :: i < j < |arrivals| ==> arrivals[j].id != arrivals[i].id) ==>
          r[arrivals[i].id] == arrivals[i].payload)
    && (forall id :: id in r ==> id in bucket || id in Ids(arrivals))
  }

  lemma FlushMeaning(bucket: map<EventId, Event>, corrupt: set<EventId>, sent: bool,
                     arrivals: seq<PendingExecution>, stuck: set<EventId>)
    requires forall i :: 0 <= i < |arrivals| ==> arrivals[i].id !in bucket
    ensures IsFlushed(bucket, AfterFlush(bucket, corrupt, sent, arrivals, stuck), corrupt, sent, arrivals, stuck)
  {
    SavedItems(bucket, arrivals);
    SavedItems(bucket - (bucket.Keys - stuck), arrivals);
    assert forall id :: id in Ids(arrivals) ==> id !in bucket;
    assert forall i :: 0 <= i < |arrivals| ==> arrivals[i].id in Ids(arrivals);
  }

  lemma SnapshotEmpty(bucket: map<EventId, Event>, items: seq<PendingExecution>)
    requires Ids(items) == bucket.Keys
    ensures items == [] ==> bucket == map[]
  {
    assert items == [] ==> Ids(items) == {};
  }

  /** Deletes of other ids and saves commute: what was saved meanwhile stays. */
  lemma {:induction false} ArrivalsSurvive(bucket: map<EventId, Event>, ids: set<EventId>, items: seq<PendingExecution>)
    requires forall i :: 0 <= i < |items| ==> items[i].id !in ids
    ensures SaveAll(bucket, items) - ids == SaveAll(bucket - ids, items)
  {
    if items != [] {
      ArrivalsSurvive(bucket, ids, items[..|items| - 1]);
    }
  }

  // ------------------------------------------------------------ a flush is a run of the outbox

  /** Events that other goroutines of one agent may save: of its host, with fresh ids. */
  ghost predicate Fresh(s: State, arrivals: seq<PendingExecution>, host: HostId) {
    && (forall i :: 0 <= i < |arrivals| ==> arrivals[i].payload.host == host && arrivals[i].id !in s.used)
    && forall i, j :: 0 <= i < j < |arrivals| ==> arrivals[i].id != arrivals[j].id
  }

  lemma {:induction false} RunSaves(steps: seq<Step>, arrivals: seq<PendingExecution>, host: HostId) returns (r: seq<Step>)
    requires Run(steps) && Fresh(After(steps), arrivals, host)
    ensures Run(r) && steps <= r && forall k :: |steps| <= k < |r| ==> r[k].Save?
    ensures Saved(After(steps), After(r), arrivals, host)
  {
    r := steps;
    if arrivals == [] {
      assert Ids(arrivals) == {};
    } else {
      var n := |arrivals| - 1;
      var last := arrivals[n];
      var front := RunSaves(steps, arrivals[..n], host);
      assert last.id !in Ids(arrivals[..n]);
      var save := Save(last.id, last.payload, true);
      RunSnoc(front, save);
      RunKeepsInv(front);
      SavedSnoc(After(steps), After(front), arrivals, host);
      r := front + [save];
    }
  }

  /** What saving the arrivals does to the outbox. */
  ghost predicate Saved(s: State, r: State, arrivals: seq<PendingExecution>, host: HostId) {
    && r.flushes == s.flushes
    && r.used == s.used + Ids(arrivals)
    && PendingOf(r, host) == SaveAll(PendingOf(s, host), arrivals)
    && forall h :: h != host ==> PendingOf(r, h) == PendingOf(s, h)
  }

  lemma SavedSnoc(s: State, r: State, arrivals: seq<PendingExecution>, host: HostId)
    requires arrivals != [] && Inv(r) && Saved(s, r, arrivals[..|arrivals| - 1], host)
    requires arrivals[|arrivals| - 1].payload.host == host && arrivals[|arrivals| - 1].id !in r.used
    ensures var last := arrivals[|arrivals| - 1];
            Saved(s, Next(r, Save(last.id, last.payload, true)), arrivals, host)
  {
    var last := arrivals[|arrivals| - 1];
    assert arrivals == arrivals[..|arrivals| - 1] + [last];
    IdsSnoc(arrivals[..|arrivals| - 1], last);
    SaveOne(r, last, host);
  }

  lemma SaveOne(s: State, p: PendingExecution, host: HostId)
    requires Inv(s) && p.id !in s.used && p.payload.host == host
    ensures var s' := Next(s, Save(p.id, p.payload, true));
            && PendingOf(s', host) == PendingOf(s, host)[p.id := p.payload]
            && forall h :: h != host ==> PendingOf(s', h) == PendingOf(s, h)
  {
    assert forall id :: id in s.pending ==> id in s.saved.Keys;
  }

  lemma SamePending(s: State, s': State)
    requires s'.pending == s.pending
    ensures forall h :: PendingOf(s', h) == PendingOf(s, h)
  {
  }

  lemma DeletedOf(s: State, s': State, ids: set<EventId>, host: HostId)
    requires s'.pending == s.pending - ids
    ensures PendingOf(s', host) == PendingOf(s, host) - ids
  {
  }

  lemma {:induction false} RunDeletes(steps: seq<Step>, f: FlushId, items: seq<PendingExecution>, stuck: set<EventId>,
                                      left: set<EventId>)
    returns (r: seq<Step>)
    requires Run(steps) && f in After(steps).flushes && After(steps).flushes[f] == Deleting(left)
    requires Ids(items) <= left
    requires forall i, j :: 0 <= i < j < |items| ==> items[i].id != items[j].id
    ensures Run(r) && steps <= r && forall k :: |steps| <= k < |r| ==> r[k].Delete?
    ensures f in After(r).flushes && After(r).flushes[f] == Deleting(left - Ids(items))
    ensures After(r).pending == After(steps).pending - (Ids(items) - stuck)
  {
    r := steps;
    if items != [] {
      var n := |items| - 1;
      assert items == items[..n] + [items[n]];
      IdsSnoc(items[..n], items[n]);
      var front := RunDeletes(steps, f, items[..n], stuck, left);
      var delete := Delete(f, items[n].id, items[n].id !in stuck);
      assert items[n].id !in Ids(items[..n]);
      RunSnoc(front, delete);
      r := front + [delete];
    }
  }

  /** The flush deletes its snapshot from its agent's bucket; no other bucket holds any of it. */
  lemma {:induction false} RunAnswer(
    steps: seq<Step>, f: FlushId, items: seq<PendingExecution>, stuck: set<EventId>, bucket: map<EventId, Event>)
    returns (r: seq<Step>)
    requires Run(steps) && f in After(steps).flushes && After(steps).flushes[f] == Sending(bucket)
    requires IsSnapshot(items, bucket)
    ensures Run(r) && steps <= r
    ensures |r| > |steps| && r[|steps|] == Acked(f, bucket.Keys)
    ensures forall k :: |steps| < k < |r| ==> r[k].Delete?
    ensures forall h :: PendingOf(After(r), h) == PendingOf(After(steps), h) - (bucket.Keys - stuck)
  {
    var ack := Acked(f, bucket.Keys);
    RunSnoc(steps, ack);
    r := RunDeletes(steps + [ack], f, items, stuck, bucket.Keys);
    forall h ensures PendingOf(After(r), h) == PendingOf(After(steps), h) - (bucket.Keys - stuck) {
      DeletedOf(After(steps), After(r), bucket.Keys - stuck, h);
    }
  }

  lemma {:induction false} RunSnapshot(steps: seq<Step>, f: FlushId, host: HostId)
    requires Run(steps) && f !in After(steps).startedFlushes
    ensures var s, r := After(steps), steps + [Snapshot(f, host)];
            && Run(r) && After(r).pending == s.pending && After(r).used == s.used
            && (PendingOf(s, host) != map[] ==> f in After(r).flushes && After(r).flushes[f] == Sending(PendingOf(s, host)))
  {
    RunSnoc(steps, Snapshot(f, host));
  }

  /** After its first n steps, the run has an acknowledgement of flush f, or a failed send of it. */
  ghost predicate HasAck(r: seq<Step>, n: nat, f: FlushId) {
    exists k :: n <= k < |r| && r[k].Acked? && r[k].flush == f
  }

  ghost predicate HasFailure(r: seq<Step>, n: nat, f: FlushId) {
    exists k :: n <= k < |r| && r[k] == SendFailed(f)
  }

  /** No acknowledgement is lost. */
  ghost predicate NoneLostAfter(r: seq<Step>, n: nat) {
    forall k :: n <= k < |r| ==> !r[k].AckLost?
  }

  /**
   What FlushExecutions does to one agent's bucket is what a run of the outbox
   does to it, from any reachable state: snapshot, arrivals, answer, deletes. The
   send is acknowledged in that run exactly when it was for the method, and fails
   exactly when it did. The buckets of other agents stay as they were.
   */
  lemma {:induction false} FlushIsRun(steps: seq<Step>, f: FlushId, host: HostId, items: seq<PendingExecution>,
      corrupt: set<EventId>, sent: bool, arrivals: seq<PendingExecution>, stuck: set<EventId>) returns (r: seq<Step>)
    requires Run(steps) && f !in After(steps).startedFlushes && Fresh(After(steps), arrivals, host)
    requires IsSnapshot(items, PendingOf(After(steps), host))
    ensures Run(r) && steps <= r
    ensures PendingOf(After(r), host) == AfterFlush(PendingOf(After(steps), host), corrupt, sent, arrivals, stuck)
    ensures var bucket := PendingOf(After(steps), host);
            && (HasAck(r, |steps|, f) <==> sent && bucket.Keys !! corrupt && bucket != map[])
            && (HasFailure(r, |steps|, f) <==> !sent && bucket.Keys !! corrupt && bucket != map[])
            && NoneLostAfter(r, |steps|)
    ensures forall h :: h != host ==> PendingOf(After(r), h) == PendingOf(After(steps), h)
  {
    var bucket := PendingOf(After(steps), host);
    if bucket.Keys !! corrupt {
      r := RunFlush(steps, f, host, items, sent, arrivals, stuck);
    } else {
      r := RunSaves(steps, arrivals, host);
      NoAnswer(r, |steps|, f);
    }
  }

  /** The steps between a snapshot and the answer. */
  ghost predicate Waiting(r: seq<Step>, n: nat) {
    forall k :: n <= k < |r| ==> r[k].Snapshot? || r[k].Save?
  }

  lemma NoAnswer(r: seq<Step>, n: nat, f: FlushId)
    requires Waiting(r, n)
    ensures !HasAck(r, n, f) && !HasFailure(r, n, f) && NoneLostAfter(r, n)
  {
  }

  lemma FailedAnswer(r: seq<Step>, n: nat, f: FlushId)
    requires Waiting(r, n) && n <= |r|
    ensures var t := r + [SendFailed(f)]; !HasAck(t, n, f) && HasFailure(t, n, f) && NoneLostAfter(t, n)
  {
    assert (r + [SendFailed(f)])[|r|] == SendFailed(f);
  }

  lemma AckedAnswer(b: seq<Step>, r: seq<Step>, n: nat, f: FlushId, inserted: set<EventId>)
    requires Waiting(b, n) && n <= |b| < |r| && b <= r && r[|b|] == Acked(f, inserted)
    requires forall k :: |b| < k < |r| ==> r[k].Delete?
    ensures HasAck(r, n, f) && !HasFailure(r, n, f) && NoneLostAfter(r, n)
  {
    assert forall k :: n <= k < |b| ==> r[k] == b[k];
  }

  lemma {:induction false} RunWaiting(steps: seq<Step>, f: FlushId, host: HostId, arrivals: seq<PendingExecution>)
    returns (r: seq<Step>)
    requires Run(steps) && f !in After(steps).startedFlushes && Fresh(After(steps), arrivals, host)
    ensures Run(r) && steps <= r && Waiting(r, |steps|)
    ensures var bucket := PendingOf(After(steps), host);
            bucket != map[] ==> f in After(r).flushes && After(r).flushes[f] == Sending(bucket)
    ensures PendingOf(After(r), host) == SaveAll(PendingOf(After(steps), host), arrivals)
    ensures forall h :: h != host ==> PendingOf(After(r), h) == PendingOf(After(steps), h)
  {
    RunSnapshot(steps, f, host);
    var a := steps + [Snapshot(f, host)];
    SamePending(After(steps), After(a));
    r := RunSaves(a, arrivals, host);
  }

  lemma {:induction false} RunFlush(steps: seq<Step>, f: FlushId, host: HostId, items: seq<PendingExecution>,
      sent: bool, arrivals: seq<PendingExecution>, stuck: set<EventId>) returns (r: seq<Step>)
    requires Run(steps) && f !in After(steps).startedFlushes && Fresh(After(steps), arrivals, host)
    requires IsSnapshot(items, PendingOf(After(steps), host))
    ensures Run(r) && steps <= r
    ensures PendingOf(After(r), host) == AfterFlush(PendingOf(After(steps), host), {}, sent, arrivals, stuck)
    ensures var bucket := PendingOf(After(steps), host);
            && (HasAck(r, |steps|, f) <==> sent && bucket != map[])
            && (HasFailure(r, |steps|, f) <==> !sent && bucket != map[])
            && NoneLostAfter(r, |steps|)
    ensures forall h :: h != host ==> PendingOf(After(r), h) == PendingOf(After(steps), h)
  {
    var bucket := PendingOf(After(steps), host);
    r := RunWaiting(steps, f, host, arrivals);
    if bucket == map[] {
      NoAnswer(r, |steps|, f);
      assert bucket - (bucket.Keys - stuck) == bucket;
    } else if sent {
      r := RunSent(steps, r, f, host, items, arrivals, stuck);
    } else {
      FailedAnswer(r, |steps|, f);
      RunSnoc(r, SendFailed(f));
      SamePending(After(r), After(r + [SendFailed(f)]));
      r := r + [SendFailed(f)];
    }
  }

  lemma {:induction false} RunSent(steps: seq<Step>, b: seq<Step>, f: FlushId, host: HostId, items: seq<PendingExecution>,
      arrivals: seq<PendingExecution>, stuck: set<EventId>) returns (r: seq<Step>)
    requires Run(steps) && Fresh(After(steps), arrivals, host) && IsSnapshot(items, PendingOf(After(steps), host))
    requires Run(b) && steps <= b && Waiting(b, |steps|)
    requires f in After(b).flushes && After(b).flushes[f] == Sending(PendingOf(After(steps), host))
    requires PendingOf(After(b), host) == SaveAll(PendingOf(After(steps), host), arrivals)
    requires forall h :: h != host ==> PendingOf(After(b), h) == PendingOf(After(steps), h)
    ensures Run(r) && steps <= r
    ensures PendingOf(After(r), host) == AfterFlush(PendingOf(After(steps), host), {}, true, arrivals, stuck)
    ensures forall h :: h != host ==> PendingOf(After(r), h) == PendingOf(After(steps), h)
    ensures HasAck(r, |steps|, f) && !HasFailure(r, |steps|, f) && NoneLostAfter(r, |steps|)
  {
    var s := After(steps);
    var bucket := PendingOf(s, host);
    r := RunAnswer(b, f, items, stuck, bucket);
    AckedAnswer(b, r, |steps|, f, bucket.Keys);
    ArrivalsApart(steps, arrivals, host);
    ArrivalsSurvive(bucket, bucket.Keys - stuck, arrivals);
    forall h | h != host ensures PendingOf(s, h) - (bucket.Keys - stuck) == PendingOf(s, h) {
    }
  }

  /** Fresh ids are in no bucket yet. */
  lemma {:induction false} ArrivalsApart(steps: seq<Step>, arrivals: seq<PendingExecution>, host: HostId)
    requires Run(steps) && Fresh(After(steps), arrivals, host)
    ensures forall i :: 0 <= i < |arrivals| ==> arrivals[i].id !in PendingOf(After(steps), host)
  {
    RunKeepsInv(steps);
    var s := After(steps);
    assert forall id :: id in s.pending ==> id in s.saved.Keys;
  }
}
