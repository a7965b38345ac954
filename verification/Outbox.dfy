/**
 The agents' durable outbox: execution events are saved to a local bucket, sent
 in batches by any number of concurrent flushes, and deleted one by one after an
 acknowledged send. Identifiers are fresh UUIDs.
 */
module Outbox {
  import opened Wrappers

  type HostId = int
  type EventId = int
  type CommandId = int
  type FlushId = int

  /** An execution event; `command` and `ok` are those of a remote command's report. */
  datatype Event = Event(host: HostId, command: Option<CommandId>, ok: bool)

  /** A running FlushExecutions: first it holds its snapshot, then the ids it still has to delete. */
  datatype Flush =
    | Sending(batch: map<EventId, Event>)
    | Deleting(left: set<EventId>)

  /**
   `pending` holds the buckets of all agents, `flushes` the flushes under way.
   History: `saved` every event ever saved, `used` every event id ever drawn,
   `acked` the events of acknowledged batches, `received` those of batches the
   server has processed, `stored` the rows it has inserted, one per insertion.
   */
  datatype State = State(
    pending: map<EventId, Event>,
    flushes: map<FlushId, Flush>,
    startedFlushes: set<FlushId>,
    saved: map<EventId, Event>,
    used: set<EventId>,
    acked: set<EventId>,
    received: set<EventId>,
    stored: multiset<EventId>)

  /**
   BufferExecution may fail to write. A send may fail, may be processed with its
   acknowledgement lost, or be acknowledged; the server acknowledges a batch even
   when inserting some of its events fails, so `inserted` is any part of it.
   Deleting one event may fail silently.
   */
  datatype Step =
    | Save(id: EventId, event: Event, written: bool)
    | Snapshot(flush: FlushId, host: HostId)
    | SendFailed(flush: FlushId)
    | AckLost(flush: FlushId, inserted: set<EventId>)
    | Acked(flush: FlushId, inserted: set<EventId>)
    | Delete(flush: FlushId, id: EventId, deleted: bool)
    | Finish(flush: FlushId)

  const Init := State(map[], map[], {}, map[], {}, {}, {}, multiset{})

  ghost function PendingOf(s: State, host: HostId): map<EventId, Event> {
    map id | id in s.pending && s.pending[id].host == host :: s.pending[id]
  }

  ghost predicate Enabled(s: State, step: Step) {
    match step
    case Save(id, _, _) => id !in s.used
    case Snapshot(f, _) => f !in s.startedFlushes
    case SendFailed(f) => f in s.flushes && s.flushes[f].Sending?
    case AckLost(f, inserted) => f in s.flushes && s.flushes[f].Sending? && inserted <= s.flushes[f].batch.Keys
    case Acked(f, inserted) => f in s.flushes && s.flushes[f].Sending? && inserted <= s.flushes[f].batch.Keys
    case Delete(f, id, _) => f in s.flushes && s.flushes[f].Deleting? && id in s.flushes[f].left
    case Finish(f) => f in s.flushes && s.flushes[f] == Deleting({})
  }

  ghost function Next(s: State, step: Step): State
    requires Enabled(s, step)
  {
    match step
    case Save(id, event, written) =>
      var s' := s.(used := s.used + {id});
      if written then s'.(pending := s.pending[id := event], saved := s.saved[id := event]) else s'
    case Snapshot(f, host) =>
      var batch := PendingOf(s, host);
      var s' := s.(startedFlushes := s.startedFlushes + {f});
      if batch == map[] then s' else s'.(flushes := s.flushes[f := Sending(batch)])
    case SendFailed(f) =>
      s.(flushes := s.flushes - {f})
    case AckLost(f, inserted) =>
      s.(flushes := s.flushes - {f},
         received := s.received + s.flushes[f].batch.Keys,
         stored := s.stored + multiset(inserted))
    case Acked(f, inserted) =>
      var ids := s.flushes[f].batch.Keys;
      s.(flushes := s.flushes[f := Deleting(ids)],
         received := s.received + ids,
         acked := s.acked + ids,
         stored := s.stored + multiset(inserted))
    case Delete(f, id, deleted) =>
      var s' := s.(flushes := s.flushes[f := Deleting(s.flushes[f].left - {id})]);
      if deleted then s'.(pending := s.pending - {id}) else s'
    case Finish(f) =>
      s.(flushes := s.flushes - {f})
  }

  ghost predicate Submap(a: map<EventId, Event>, b: map<EventId, Event>) {
    forall id :: id in a ==> id in b && a[id] == b[id]
  }

  ghost predicate FlushOk(s: State, f: Flush) {
    match f
    case Sending(batch) => Submap(batch, s.saved)
    case Deleting(left) => left <= s.acked
  }

  ghost predicate Inv(s: State) {
    && Submap(s.pending, s.saved)
    && s.saved.Keys <= s.used
    && s.saved.Keys <= s.pending.Keys + s.acked
    && s.acked <= s.received <= s.saved.Keys
    && (forall id :: id in s.stored ==> id in s.received)
    && s.flushes.Keys <= s.startedFlushes
    && forall f :: f in s.flushes ==> FlushOk(s, s.flushes[f])
  }

  /** Every step of every flush keeps the outbox consistent. */
  lemma StepKeepsInv(s: State, step: Step)
    requires Inv(s) && Enabled(s, step)
    ensures Inv(Next(s, step))
  {
    var s' := Next(s, step);
    if step.Acked? || step.AckLost? {
      var batch := s.flushes[step.flush].batch;
      assert FlushOk(s, s.flushes[step.flush]);
      forall id | id in batch.Keys ensures id in s.saved.Keys { assert id in batch; }
      assert forall id :: id in s'.stored <==> id in s.stored || id in step.inserted;
    }
    if step.Delete? {
      assert FlushOk(s, s.flushes[step.flush]);
      assert step.id in s.acked;
    }
    forall f | f in s'.flushes ensures FlushOk(s', s'.flushes[f]) {
      assert f in s.flushes ==> FlushOk(s, s.flushes[f]);
    }
  }

  /** What a step may do to the history: nothing is ever forgotten. */
  lemma StepGrows(s: State, step: Step)
    requires Inv(s) && Enabled(s, step)
    ensures var s' := Next(s, step);
            && Submap(s.saved, s'.saved)
            && s.acked <= s'.acked && s.received <= s'.received && s.stored <= s'.stored && s.used <= s'.used
  {
  }

  /** An event leaves the bucket only once it has been acknowledged, so events saved during a flush survive it. */
  lemma OnlyAckedLeave(s: State, step: Step, id: EventId)
    requires Inv(s) && Enabled(s, step)
    requires id in s.pending && id !in Next(s, step).pending
    ensures id in s.acked
  {
    assert FlushOk(s, s.flushes[step.flush]);
  }

  ghost function After(steps: seq<Step>): State
    requires Run(steps)
    decreases |steps|, 1
  {
    if steps == [] then Init else Next(After(steps[..|steps| - 1]), steps[|steps| - 1])
  }

  ghost predicate Run(steps: seq<Step>)
    decreases |steps|, 0
  {
    steps != [] ==> Run(steps[..|steps| - 1]) && Enabled(After(steps[..|steps| - 1]), steps[|steps| - 1])
  }

  lemma {:induction false} RunKeepsInv(steps: seq<Step>)
    requires Run(steps)
    ensures Inv(After(steps))
  {
    if steps != [] {
      RunKeepsInv(steps[..|steps| - 1]);
      StepKeepsInv(After(steps[..|steps| - 1]), steps[|steps| - 1]);
    }
  }

  /**
   At-least-once delivery, over every interleaving: each durably saved event is
   still pending, unchanged, or was in a batch that the server processed and
   acknowledged; and the server only ever receives saved events.
   */
  lemma NothingLost(steps: seq<Step>, id: EventId)
    requires Run(steps)
    ensures var s := After(steps);
            && (id in s.saved ==>
                  (id in s.pending && s.pending[id] == s.saved[id]) || (id in s.acked && id in s.received))
            && (id in s.received ==> id in s.saved)
  {
    RunKeepsInv(steps);
  }

  lemma RunSnoc(steps: seq<Step>, step: Step)
    requires Run(steps) && Enabled(After(steps), step)
    ensures Run(steps + [step]) && After(steps + [step]) == Next(After(steps), step)
  {
    assert (steps + [step])[..|steps|] == steps;
  }

  // ----------------------------------------------------------- what reaches the table

  /** Every saved event is still pending or has been stored. */
  ghost predicate NoneLost(s: State) {
    forall id :: id in s.saved ==> id in s.pending || id in s.stored
  }

  /** The events of flush f are stored once this acknowledgement's inserts are done. */
  ghost predicate Covers(s: State, f: FlushId, inserted: set<EventId>)
    requires Enabled(s, Acked(f, inserted))
  {
    forall id :: id in s.flushes[f].batch ==> id in s.stored || id in inserted
  }

  /** The run goes on with deletes of flush f alone. */
  ghost predicate OwnDeletes(tail: seq<Step>, f: FlushId) {
    forall i :: 0 <= i < |tail| ==> tail[i].Delete? && tail[i].flush == f
  }

  /** Whatever f deletes after this acknowledgement, nothing is lost. */
  ghost predicate SafeAck(steps: seq<Step>, f: FlushId, inserted: set<EventId>) {
    forall tail :: OwnDeletes(tail, f) && Run(steps + [Acked(f, inserted)] + tail) ==>
      NoneLost(After(steps + [Acked(f, inserted)] + tail))
  }

  lemma {:induction false} DeletesAreSafe(base: seq<Step>, f: FlushId, left: set<EventId>, tail: seq<Step>)
    requires Run(base) && NoneLost(After(base))
    requires f in After(base).flushes && After(base).flushes[f] == Deleting(left)
    requires forall id :: id in left ==> id in After(base).stored
    requires OwnDeletes(tail, f) && Run(base + tail)
    ensures NoneLost(After(base + tail)) && After(base + tail).stored == After(base).stored
    ensures var s := After(base + tail); f in s.flushes && s.flushes[f].Deleting? && s.flushes[f].left <= left
  {
    if tail == [] {
      assert base + tail == base;
    } else {
      var n := |tail| - 1;
      assert (base + tail)[..|base + tail| - 1] == base + tail[..n];
      DeletesAreSafe(base, f, left, tail[..n]);
    }
  }

  lemma {:induction false} UncoveredLoses(steps: seq<Step>, f: FlushId, inserted: set<EventId>, id: EventId)
    requires Run(steps) && Enabled(After(steps), Acked(f, inserted))
    requires id in After(steps).flushes[f].batch && id !in After(steps).stored && id !in inserted
    ensures !SafeAck(steps, f, inserted)
  {
    var ack, delete := Acked(f, inserted), Delete(f, id, true);
    RunKeepsInv(steps);
    assert FlushOk(After(steps), After(steps).flushes[f]);
    RunSnoc(steps, ack);
    RunSnoc(steps + [ack], delete);
    assert OwnDeletes([delete], f);
    assert !NoneLost(After(steps + [ack] + [delete]));
  }

  /**
   Acknowledging a batch is safe if and only if each of its events is inserted now
   or was stored before, by an earlier delivery of the same event.
   */
  lemma AckIsSafe(steps: seq<Step>, f: FlushId, inserted: set<EventId>)
    requires Run(steps) && NoneLost(After(steps)) && Enabled(After(steps), Acked(f, inserted))
    ensures SafeAck(steps, f, inserted) <==> Covers(After(steps), f, inserted)
  {
    var ack := Acked(f, inserted);
    RunSnoc(steps, ack);
    if Covers(After(steps), f, inserted) {
      forall tail | OwnDeletes(tail, f) && Run(steps + [ack] + tail)
        ensures NoneLost(After(steps + [ack] + tail))
      {
        DeletesAreSafe(steps + [ack], f, After(steps).flushes[f].batch.Keys, tail);
      }
    } else {
      var id :| id in After(steps).flushes[f].batch && id !in After(steps).stored && id !in inserted;
      UncoveredLoses(steps, f, inserted, id);
    }
  }

  /** A run whose acknowledgements are all safe. */
  ghost predicate CoveredRun(steps: seq<Step>)
    requires Run(steps)
  {
    steps != [] ==>
      var front, last := steps[..|steps| - 1], steps[|steps| - 1];
      CoveredRun(front) && (last.Acked? ==> Covers(After(front), last.flush, last.inserted))
  }

  lemma CoveredStep(s: State, step: Step)
    requires Enabled(s, step) && (step.Acked? ==> Covers(s, step.flush, step.inserted))
    requires forall id :: id in s.acked ==> id in s.stored
    ensures forall id :: id in Next(s, step).acked ==> id in Next(s, step).stored
  {
  }

  /** Over every such run each acknowledged event is stored, and each saved one is pending or stored. */
  lemma {:induction false} CoveredRunStores(steps: seq<Step>)
    requires Run(steps) && CoveredRun(steps)
    ensures forall id :: id in After(steps).acked ==> id in After(steps).stored
    ensures NoneLost(After(steps))
  {
    RunKeepsInv(steps);
    if steps != [] {
      var front := steps[..|steps| - 1];
      CoveredRunStores(front);
      CoveredStep(After(front), steps[|steps| - 1]);
    }
    forall id | id in After(steps).saved ensures id in After(steps).pending || id in After(steps).stored {
      assert id in After(steps).saved.Keys;
    }
  }

  /**
   An event can be lost: the server answers success although an insert failed, and
   the agent deletes the event.
   */
  lemma FailedInsertLosesEvent(e: Event)
    ensures var steps := [Save(1, e, true), Snapshot(7, e.host), Acked(7, {}), Delete(7, 1, true)];
            Run(steps) && 1 in After(steps).saved && 1 !in After(steps).pending && 1 !in After(steps).stored
  {
    var batch := map[1 := e];
    var a, b, c, d := Save(1, e, true), Snapshot(7, e.host), Acked(7, {}), Delete(7, 1, true);
    RunSnoc([], a);
    assert [] + [a] == [a] && [a] + [b] == [a, b] && [a, b] + [c] == [a, b, c] && [a, b, c] + [d] == [a, b, c, d];
    assert After([a]).pending == batch;
    assert PendingOf(After([a]), e.host) == batch;
    RunSnoc([a], b);
    assert batch != map[] by { assert 1 in batch; }
    assert After([a, b]).flushes == map[7 := Sending(batch)];
    RunSnoc([a, b], c);
    assert 1 in batch.Keys;
    assert After([a, b, c]).flushes[7] == Deleting(batch.Keys);
    RunSnoc([a, b, c], d);
  }

  // ------------------------------------------------------------------- stored only once

  ghost predicate AtMostOnce(s: State) {
    forall id :: s.stored[id] <= 1
  }

  /** The run goes on without saves and snapshots: the flushes under way, all of them, in any order. */
  ghost predicate FlushesOnly(tail: seq<Step>) {
    forall i :: 0 <= i < |tail| ==> !tail[i].Save? && !tail[i].Snapshot?
  }

  /** Whatever becomes of the flushes under way, no event is stored twice. */
  ghost predicate StaysOnce(steps: seq<Step>) {
    forall tail :: FlushesOnly(tail) && Run(steps + tail) ==> AtMostOnce(After(steps + tail))
  }

  /** Flush f has not been answered and holds the event. */
  ghost predicate Sends(s: State, f: FlushId, id: EventId) {
    f in s.flushes && s.flushes[f].Sending? && id in s.flushes[f].batch
  }

  /** What is being sent is not stored yet, and by one flush only. */
  ghost predicate Safe(s: State) {
    && (forall f, id :: Sends(s, f, id) ==> id !in s.stored)
    && (forall f, g, id :: Sends(s, f, id) && Sends(s, g, id) ==> f == g)
  }

  lemma AnswerKeepsSafe(s: State, step: Step)
    requires Safe(s) && AtMostOnce(s) && Enabled(s, step) && !step.Save? && !step.Snapshot?
    ensures Safe(Next(s, step)) && AtMostOnce(Next(s, step))
  {
    var s' := Next(s, step);
    var answer := step.Acked? || step.AckLost?;
    var g, inserted := if answer then step.flush else 0, if answer then step.inserted else {};
    assert forall id :: id in inserted ==> Sends(s, g, id);
    assert forall id :: id in s'.stored <==> id in s.stored || id in inserted;
    forall f, id | Sends(s', f, id) ensures Sends(s, f, id) && id !in s'.stored {
      assert Sends(s, f, id);
      assert answer ==> f != g;
    }
  }

  lemma {:induction false} AnswersKeepSafe(base: seq<Step>, tail: seq<Step>)
    requires Run(base) && Safe(After(base)) && AtMostOnce(After(base))
    requires FlushesOnly(tail) && Run(base + tail)
    ensures Safe(After(base + tail)) && AtMostOnce(After(base + tail))
  {
    if tail == [] {
      assert base + tail == base;
    } else {
      var n := |tail| - 1;
      assert (base + tail)[..|base + tail| - 1] == base + tail[..n];
      AnswersKeepSafe(base, tail[..n]);
      AnswerKeepsSafe(After(base + tail[..n]), tail[n]);
    }
  }

  /** A stored event that is sent again can be stored again. */
  lemma {:induction false} StoredAgain(steps: seq<Step>, f: FlushId, id: EventId)
    requires Run(steps) && Sends(After(steps), f, id) && id in After(steps).stored
    ensures !StaysOnce(steps)
  {
    var ack := Acked(f, {id});
    RunSnoc(steps, ack);
    assert FlushesOnly([ack]);
    assert After(steps + [ack]).stored[id] >= 2;
  }

  /** An event that two flushes are sending can be stored by both. */
  lemma {:induction false} SentTwice(steps: seq<Step>, f: FlushId, g: FlushId, id: EventId)
    requires Run(steps) && f != g && Sends(After(steps), f, id) && Sends(After(steps), g, id)
    ensures !StaysOnce(steps)
  {
    var a, b := Acked(f, {id}), Acked(g, {id});
    RunSnoc(steps, a);
    RunSnoc(steps + [a], b);
    assert steps + [a] + [b] == steps + [a, b];
    assert FlushesOnly([a, b]);
    assert After(steps + [a, b]).stored[id] >= 2;
  }

  /**
   In every reachable state where nothing is stored twice yet: no interleaving of the
   flushes under way, with any inserts, lost acknowledgements and failed deletes, can
   store an event twice if and only if the events being sent are not stored yet and
   no two flushes are sending the same one.
   */
  lemma {:induction false} StaysOnceIffSafe(steps: seq<Step>)
    requires Run(steps) && AtMostOnce(After(steps))
    ensures StaysOnce(steps) <==> Safe(After(steps))
  {
    var s := After(steps);
    if Safe(s) {
      forall tail | FlushesOnly(tail) && Run(steps + tail) ensures AtMostOnce(After(steps + tail)) {
        AnswersKeepSafe(steps, tail);
      }
    } else if f, id :| Sends(s, f, id) && id in s.stored {
      StoredAgain(steps, f, id);
    } else {
      var f, g, id :| Sends(s, f, id) && Sends(s, g, id) && f != g;
      SentTwice(steps, f, g, id);
    }
  }

  /** No pending event of the agent is stored, or is being sent by another flush. */
  ghost predicate Untouched(s: State, host: HostId) {
    forall id :: id in PendingOf(s, host) ==> id !in s.stored && forall f :: !Sends(s, f, id)
  }

  lemma SendsAfterSnapshot(s: State, f: FlushId, host: HostId, g: FlushId, id: EventId)
    requires Inv(s) && Enabled(s, Snapshot(f, host))
    ensures Sends(Next(s, Snapshot(f, host)), g, id) <==> Sends(s, g, id) || (g == f && id in PendingOf(s, host))
  {
  }

  lemma SnapshotSafe(s: State, f: FlushId, host: HostId)
    requires Inv(s) && Safe(s) && Enabled(s, Snapshot(f, host))
    ensures Safe(Next(s, Snapshot(f, host))) <==> Untouched(s, host)
  {
    var s' := Next(s, Snapshot(f, host));
    forall g, id ensures Sends(s', g, id) <==> Sends(s, g, id) || (g == f && id in PendingOf(s, host)) {
      SendsAfterSnapshot(s, f, host, g, id);
    }
    forall id ensures !Sends(s, f, id) {
    }
    if Safe(s') {
      forall id | id in PendingOf(s, host) ensures id !in s.stored && forall g :: !Sends(s, g, id) {
        assert Sends(s', f, id);
        forall g ensures !Sends(s, g, id) {
          assert Sends(s, g, id) ==> Sends(s', g, id);
        }
      }
    }
  }

  /**
   Starting one more flush keeps that so if and only if no pending event of its agent
   is stored already or is being sent by another flush.
   */
  lemma {:induction false} SnapshotStaysOnce(steps: seq<Step>, f: FlushId, host: HostId)
    requires Run(steps) && AtMostOnce(After(steps)) && Safe(After(steps))
    requires Enabled(After(steps), Snapshot(f, host))
    ensures StaysOnce(steps + [Snapshot(f, host)]) <==> Untouched(After(steps), host)
  {
    RunKeepsInv(steps);
    RunSnoc(steps, Snapshot(f, host));
    SnapshotSafe(After(steps), f, host);
    StaysOnceIffSafe(steps + [Snapshot(f, host)]);
  }

  /** A run in which every flush starts that way. */
  ghost predicate UntouchedRun(steps: seq<Step>)
    requires Run(steps)
  {
    steps != [] ==>
      var front, last := steps[..|steps| - 1], steps[|steps| - 1];
      UntouchedRun(front) && (last.Snapshot? ==> Untouched(After(front), last.host))
  }

  lemma SaveKeepsSafe(s: State, step: Step)
    requires Safe(s) && step.Save? && Enabled(s, step)
    ensures Safe(Next(s, step))
  {
    var s' := Next(s, step);
    assert forall f, id :: Sends(s', f, id) == Sends(s, f, id);
  }

  /**
   Over every such run, failed deletes and lost acknowledgements included, no event is
   stored twice; and if its acknowledgements lose nothing, every saved event is
   pending or stored exactly once.
   */
  lemma {:induction false} UntouchedRunStoresOnce(steps: seq<Step>)
    requires Run(steps) && UntouchedRun(steps)
    ensures Safe(After(steps)) && AtMostOnce(After(steps))
    ensures CoveredRun(steps) ==>
              forall id :: id in After(steps).saved ==> id in After(steps).pending || After(steps).stored[id] == 1
  {
    if steps != [] {
      var s, step := After(steps[..|steps| - 1]), steps[|steps| - 1];
      UntouchedRunStoresOnce(steps[..|steps| - 1]);
      RunKeepsInv(steps[..|steps| - 1]);
      match step
      case Save(_, _, _) => SaveKeepsSafe(s, step);
      case Snapshot(f, host) => SnapshotSafe(s, f, host);
      case _ => AnswerKeepsSafe(s, step);
    }
    if CoveredRun(steps) {
      CoveredRunStores(steps);
    }
  }

  lemma OverlapSnapshots(e: Event)
    ensures var steps := [Save(1, e, true), Snapshot(7, e.host), Snapshot(8, e.host)];
            && Run(steps) && CoveredRun(steps)
            && After(steps).flushes == map[7 := Sending(map[1 := e]), 8 := Sending(map[1 := e])]
            && After(steps).stored == multiset{}
  {
    var a, b, c := Save(1, e, true), Snapshot(7, e.host), Snapshot(8, e.host);
    assert [] + [a] == [a] && [a] + [b] == [a, b] && [a, b] + [c] == [a, b, c];
    var batch := map[1 := e];
    assert 1 in batch;
    CoveredSnoc([], a);
    assert Next(Init, a).pending == batch;
    SnapshotAdds(After([a]), 7, e.host, batch);
    CoveredSnoc([a], b);
    SnapshotAdds(After([a, b]), 8, e.host, batch);
    CoveredSnoc([a, b], c);
  }

  lemma SnapshotAdds(s: State, f: FlushId, host: HostId, batch: map<EventId, Event>)
    requires s.pending == batch != map[] && f !in s.startedFlushes && forall id :: id in batch ==> batch[id].host == host
    ensures Next(s, Snapshot(f, host)) == s.(startedFlushes := s.startedFlushes + {f}, flushes := s.flushes[f := Sending(batch)])
  {
    assert forall id :: id in PendingOf(s, host) <==> id in batch;
    assert PendingOf(s, host) == batch;
  }

  /** Two flushes that overlap store an event twice, although no send, insert or delete fails. */
  lemma OverlapStoresTwice(e: Event)
    ensures var steps := [Save(1, e, true), Snapshot(7, e.host), Snapshot(8, e.host), Acked(7, {1}), Acked(8, {1})];
            Run(steps) && CoveredRun(steps) && After(steps).stored[1] == 2
  {
    var a, b, c, d, f := Save(1, e, true), Snapshot(7, e.host), Snapshot(8, e.host), Acked(7, {1}), Acked(8, {1});
    assert [a, b, c] + [d] == [a, b, c, d] && [a, b, c, d] + [f] == [a, b, c, d, f];
    OverlapSnapshots(e);
    CoveredSnoc([a, b, c], d);
    CoveredSnoc([a, b, c, d], f);
  }

  lemma CoveredSnoc(steps: seq<Step>, step: Step)
    requires Run(steps) && CoveredRun(steps) && Enabled(After(steps), step)
    requires step.Acked? ==> Covers(After(steps), step.flush, step.inserted)
    ensures Run(steps + [step]) && CoveredRun(steps + [step])
    ensures After(steps + [step]) == Next(After(steps), step)
  {
    RunSnoc(steps, step);
    assert (steps + [step])[..|steps|] == steps;
  }
}
