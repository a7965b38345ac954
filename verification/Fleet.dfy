/**
 Remote commands end to end: the server's queue, the agents' outboxes, and one
 goroutine of executeRunCommand for every command a claim has delivered. The
 goroutine runs the command, saves its report, flushes, and completes the
 command; everything else interleaves freely.
 */
module Fleet {
  import opened Wrappers
  import Q = CommandQueue
  import O = Outbox

  /** A command delivered by a claim's response. */
  datatype Key = Key(claim: Q.ClaimId, command: Q.CommandId)

  /** How far executeRunCommand has come; `written` says whether its report was saved. */
  datatype Phase =
    | Executing
    | Reported(ok: bool, event: O.EventId, written: bool)
    | Flushing(ok: bool, event: O.EventId, written: bool, flush: O.FlushId)
    | Done(ok: bool, event: O.EventId, written: bool)

  datatype State = State(queue: Q.State, outbox: O.State, runs: map<Key, Phase>)

  datatype Step =
    | Server(q: Q.Step)
    | Agent(o: O.Step)
    | Start(key: Key)
    | Report(key: Key, ok: bool, event: O.EventId, written: bool)
    | Flush(key: Key, flush: O.FlushId)
    | Complete(key: Key, applied: bool)

  const Init := State(Q.Init, O.Init, map[])

  ghost predicate Delivered(s: State, k: Key) {
    && k.claim in s.queue.claims
    && s.queue.claims[k.claim].Returned?
    && k.command in s.queue.claims[k.claim].ids
  }

  ghost function HostOf(s: State, k: Key): Q.HostId {
    if k.command in s.queue.commands then s.queue.commands[k.command].host else 0
  }

  ghost function ReportEvent(s: State, k: Key, ok: bool): O.Event {
    O.Event(HostOf(s, k), Some(k.command), ok)
  }

  /**
   Only the goroutines complete commands and send command reports. A response is
   handled once; whether it arrives at all is left open.
   */
  ghost predicate Enabled(s: State, step: Step) {
    match step
    case Server(q) => Q.Enabled(s.queue, q) && !q.Complete?
    case Agent(o) => O.Enabled(s.outbox, o) && (o.Save? ==> o.event.command.None?)
    case Start(k) => Delivered(s, k) && k !in s.runs
    case Report(k, ok, event, written) =>
      k in s.runs && s.runs[k].Executing? && O.Enabled(s.outbox, O.Save(event, ReportEvent(s, k, ok), written))
    case Flush(k, f) =>
      k in s.runs && s.runs[k].Reported? && O.Enabled(s.outbox, O.Snapshot(f, HostOf(s, k)))
    case Complete(k, applied) =>
      && k in s.runs && s.runs[k].Flushing? && s.runs[k].flush !in s.outbox.flushes
      && Q.Enabled(s.queue, Q.Complete(k.command, s.runs[k].ok))
  }

  ghost function Next(s: State, step: Step): State
    requires Enabled(s, step)
  {
    match step
    case Server(q) => s.(queue := Q.Next(s.queue, q))
    case Agent(o) => s.(outbox := O.Next(s.outbox, o))
    case Start(k) => s.(runs := s.runs[k := Executing])
    case Report(k, ok, event, written) =>
      s.(outbox := O.Next(s.outbox, O.Save(event, ReportEvent(s, k, ok), written)),
         runs := s.runs[k := Reported(ok, event, written)])
    case Flush(k, f) =>
      s.(outbox := O.Next(s.outbox, O.Snapshot(f, HostOf(s, k))),
         runs := s.runs[k := Flushing(s.runs[k].ok, s.runs[k].event, s.runs[k].written, f)])
    case Complete(k, applied) =>
      var r := s.runs[k];
      s.(queue := if applied then Q.Next(s.queue, Q.Complete(k.command, r.ok)) else s.queue,
         runs := s.runs[k := Done(r.ok, r.event, r.written)])
  }

  // ---------------------------------------------------------------------- invariant

  ghost predicate Saved(s: State, k: Key, ok: bool, event: O.EventId) {
    event in s.outbox.saved && s.outbox.saved[event] == ReportEvent(s, k, ok)
  }

  ghost predicate RunOk(s: State, k: Key, r: Phase) {
    && Delivered(s, k)
    && k.command in s.queue.commands
    && (!r.Done? ==> s.queue.commands[k.command].status == Q.Dispatched)
    && (!r.Executing? && r.written ==> Saved(s, k, r.ok, r.event))
  }

  function StatusOf(ok: bool): Q.Status {
    if ok then Q.Success else Q.Failed
  }

  ghost predicate CompletedBy(s: State, k: Key, status: Q.Status) {
    k in s.runs && s.runs[k].Done? && status == StatusOf(s.runs[k].ok)
  }

  ghost predicate CommandOk(s: State, id: Q.CommandId, status: Q.Status) {
    Q.Rank(status) == 2 ==> exists c :: CompletedBy(s, Key(c, id), status)
  }

  ghost predicate Inv(s: State) {
    && Q.Inv(s.queue) && O.Inv(s.outbox)
    && (forall k :: k in s.runs ==> RunOk(s, k, s.runs[k]))
    && (forall id :: id in s.queue.commands ==> CommandOk(s, id, s.queue.commands[id].status))
  }

  /** A delivered command is dispatched or done, so no claim holds its row. */
  lemma DeliveredUnlocked(s: State, k: Key)
    requires Q.Inv(s.queue) && Delivered(s, k)
    ensures k.command in s.queue.commands && s.queue.commands[k.command].status != Q.Pending
    ensures !Q.Locked(s.queue, k.command)
  {
    var q := s.queue;
    assert Q.ClaimOk(q, q.claims[k.claim]);
    forall c | c in q.claims && q.claims[c].Picked? ensures k.command !in q.claims[c].ids {
      assert Q.ClaimOk(q, q.claims[c]);
    }
  }

  /** Two deliveries of one command are the same delivery. */
  lemma DeliveredOnce(s: State, k: Key, l: Key)
    requires Q.Inv(s.queue) && Delivered(s, k) && Delivered(s, l) && k.command == l.command
    ensures k == l
  {
    assert k.claim != l.claim ==> Q.Apart(s.queue.claims[k.claim], s.queue.claims[l.claim]);
  }

  /** A delivered command with no goroutine yet is dispatched. */
  lemma NotStarted(s: State, k: Key)
    requires Inv(s) && Delivered(s, k) && k !in s.runs
    ensures k.command in s.queue.commands && s.queue.commands[k.command].status == Q.Dispatched
  {
    DeliveredUnlocked(s, k);
    var status := s.queue.commands[k.command].status;
    assert CommandOk(s, k.command, status);
    if Q.Rank(status) == 2 {
      var c :| CompletedBy(s, Key(c, k.command), status);
      assert RunOk(s, Key(c, k.command), s.runs[Key(c, k.command)]);
      DeliveredOnce(s, k, Key(c, k.command));
    }
  }

  lemma ServerKeepsDelivered(s: State, q: Q.Step, k: Key)
    requires Q.Inv(s.queue) && Q.Enabled(s.queue, q) && Delivered(s, k)
    ensures Delivered(s.(queue := Q.Next(s.queue, q)), k)
    ensures k.command in s.queue.commands && k.command in Q.Next(s.queue, q).commands
    ensures Q.Next(s.queue, q).commands[k.command].host == s.queue.commands[k.command].host
    ensures !q.Complete? ==>
              Q.Next(s.queue, q).commands[k.command].status == s.queue.commands[k.command].status
  {
    DeliveredUnlocked(s, k);
    Q.StepRank(s.queue, q, k.command);
    if q.Commit? {
      assert Q.Apart(s.queue.claims[k.claim], s.queue.claims[q.claim]);
    }
  }

  lemma ServerStep(s: State, q: Q.Step)
    requires Inv(s) && Enabled(s, Server(q))
    ensures Inv(Next(s, Server(q)))
  {
    var s' := Next(s, Server(q));
    Q.StepKeepsInv(s.queue, q);
    forall k | k in s'.runs ensures RunOk(s', k, s'.runs[k]) {
      assert RunOk(s, k, s.runs[k]);
      ServerKeepsDelivered(s, q, k);
    }
    forall id | id in s'.queue.commands ensures CommandOk(s', id, s'.queue.commands[id].status) {
      if id in s.queue.commands {
        var status := s.queue.commands[id].status;
        assert CommandOk(s, id, status);
        if Q.Rank(s'.queue.commands[id].status) == 2 {
          var c :| CompletedBy(s, Key(c, id), status);
          assert CompletedBy(s', Key(c, id), s'.queue.commands[id].status);
        }
      }
    }
  }

  /** Steps that leave the queue alone and move one goroutine forward, never past Done. */
  lemma OutboxStep(s: State, s': State, o: O.Step, k: Key)
    requires Inv(s) && O.Enabled(s.outbox, o)
    requires s'.queue == s.queue && s'.outbox == O.Next(s.outbox, o)
    requires forall l :: l in s'.runs && l != k ==> l in s.runs && s'.runs[l] == s.runs[l]
    requires forall l :: l in s.runs && l != k ==> l in s'.runs
    requires k in s.runs && s.runs[k].Done? ==> k in s'.runs && s'.runs[k] == s.runs[k]
    requires k in s'.runs ==> RunOk(s', k, s'.runs[k])
    ensures Inv(s')
  {
    O.StepKeepsInv(s.outbox, o);
    O.StepGrows(s.outbox, o);
    forall l | l in s'.runs ensures RunOk(s', l, s'.runs[l]) {
      if l != k {
        assert RunOk(s, l, s.runs[l]);
      }
    }
    forall id | id in s'.queue.commands ensures CommandOk(s', id, s'.queue.commands[id].status) {
      var status := s.queue.commands[id].status;
      assert CommandOk(s, id, status);
      if Q.Rank(status) == 2 {
        var c :| CompletedBy(s, Key(c, id), status);
        assert CompletedBy(s', Key(c, id), status);
      }
    }
  }

  lemma StartStep(s: State, k: Key)
    requires Inv(s) && Enabled(s, Start(k))
    ensures Inv(Next(s, Start(k)))
  {
    var s' := Next(s, Start(k));
    NotStarted(s, k);
    forall l | l in s'.runs ensures RunOk(s', l, s'.runs[l]) {
      assert l != k ==> RunOk(s, l, s.runs[l]);
    }
    forall id | id in s'.queue.commands ensures CommandOk(s', id, s'.queue.commands[id].status) {
      var status := s.queue.commands[id].status;
      assert CommandOk(s, id, status);
      if Q.Rank(status) == 2 {
        var c :| CompletedBy(s, Key(c, id), status);
        assert CompletedBy(s', Key(c, id), status);
      }
    }
  }

  lemma CompleteStep(s: State, k: Key, applied: bool)
    requires Inv(s) && Enabled(s, Complete(k, applied))
    ensures Inv(Next(s, Complete(k, applied)))
  {
    var s' := Next(s, Complete(k, applied));
    var q := Q.Complete(k.command, s.runs[k].ok);
    if applied {
      Q.StepKeepsInv(s.queue, q);
    }
    assert RunOk(s, k, s.runs[k]);
    forall l | l in s'.runs ensures RunOk(s', l, s'.runs[l]) {
      assert RunOk(s, l, s.runs[l]);
      if l != k && l.command == k.command {
        DeliveredOnce(s, k, l);
      }
    }
    forall id | id in s'.queue.commands ensures CommandOk(s', id, s'.queue.commands[id].status) {
      var status := s'.queue.commands[id].status;
      if applied && id == k.command {
        assert CompletedBy(s', Key(k.claim, id), status);
      } else {
        assert CommandOk(s, id, status);
        if Q.Rank(status) == 2 {
          var c :| CompletedBy(s, Key(c, id), status);
          assert CompletedBy(s', Key(c, id), status);
        }
      }
    }
  }

  lemma StepKeepsInv(s: State, step: Step)
    requires Inv(s) && Enabled(s, step)
    ensures Inv(Next(s, step))
  {
    var s' := Next(s, step);
    match step
    case Server(q) =>
      ServerStep(s, q);
    case Agent(o) =>
      O.StepGrows(s.outbox, o);
      var k := Key(0, 0);
      assert k in s.runs ==> RunOk(s, k, s.runs[k]);
      OutboxStep(s, s', o, k);
    case Start(k) =>
      StartStep(s, k);
    case Report(k, ok, event, written) =>
      assert RunOk(s, k, s.runs[k]);
      OutboxStep(s, s', O.Save(event, ReportEvent(s, k, ok), written), k);
    case Flush(k, f) =>
      assert RunOk(s, k, s.runs[k]);
      OutboxStep(s, s', O.Snapshot(f, HostOf(s, k)), k);
    case Complete(k, applied) =>
      CompleteStep(s, k, applied);
  }

  // --------------------------------------------------------------------------- runs

  ghost function After(steps: seq<Step>): State
    requires Run(steps)
    decreases |steps|, 1
  {
    if steps == [] then Init else Next(After(steps[..|steps| - 1]), steps[|steps| - 1])
  }

  ghost predicate Run(steps: seq<Step>)
    decreases |steps|, 0
  {
    steps != [] ==> Run(steps[..|steps| - 1]) && Enabled(After(steps[..|steps| - 1]), steps[|steps| - 1])
  }

  lemma {:induction false} RunKeepsInv(steps: seq<Step>)
    requires Run(steps)
    ensures Inv(After(steps))
  {
    if steps != [] {
      RunKeepsInv(steps[..|steps| - 1]);
      StepKeepsInv(After(steps[..|steps| - 1]), steps[|steps| - 1]);
    }
  }

  ghost predicate IsReport(s: State, event: O.EventId, id: Q.CommandId) {
    && id in s.queue.commands
    && event in s.outbox.saved
    && s.outbox.saved[event] ==
         O.Event(s.queue.commands[id].host, Some(id), s.queue.commands[id].status == Q.Success)
    && ((event in s.outbox.pending && s.outbox.pending[event] == s.outbox.saved[event])
        || (event in s.outbox.acked && event in s.outbox.received))
  }

  /**
   Every completed command was completed by one run of it, with the run's outcome;
   and if saving that run's report went well, whatever other reports were lost, the
   report is still pending on the agent or was acknowledged by the server.
   */
  lemma {:induction false} CompletedIsReported(steps: seq<Step>, id: Q.CommandId)
    requires Run(steps)
    requires id in After(steps).queue.commands && Q.Rank(After(steps).queue.commands[id].status) == 2
    ensures exists c ::
              && CompletedBy(After(steps), Key(c, id), After(steps).queue.commands[id].status)
              && (After(steps).runs[Key(c, id)].written ==> IsReport(After(steps), After(steps).runs[Key(c, id)].event, id))
  {
    RunKeepsInv(steps);
    var s := After(steps);
    var status := s.queue.commands[id].status;
    assert CommandOk(s, id, status);
    var c :| CompletedBy(s, Key(c, id), status);
    var r := s.runs[Key(c, id)];
    assert RunOk(s, Key(c, id), r);
    assert r.written ==> IsReport(s, r.event, id);
  }

  /** No command is ever run twice, whatever claims overlap. */
  lemma RunsOnce(steps: seq<Step>, k: Key, l: Key)
    requires Run(steps) && k in After(steps).runs && l in After(steps).runs && k.command == l.command
    ensures k == l
  {
    RunKeepsInv(steps);
    assert RunOk(After(steps), k, After(steps).runs[k]) && RunOk(After(steps), l, After(steps).runs[l]);
    DeliveredOnce(After(steps), k, l);
  }

  /** A status moves only from pending to dispatched and from there to its one final value. */
  lemma StatusPath(s: State, step: Step, id: Q.CommandId)
    requires Inv(s) && Enabled(s, step) && id in s.queue.commands
    ensures var s' := Next(s, step);
            && id in s'.queue.commands
            && var was, now := s.queue.commands[id].status, s'.queue.commands[id].status;
               now == was || Q.Rank(now) == Q.Rank(was) + 1
  {
    match step
    case Server(q) =>
      Q.StepRank(s.queue, q, id);
      if q.Commit? {
        assert Q.ClaimOk(s.queue, s.queue.claims[q.claim]);
      }
    case Complete(k, _) =>
      assert RunOk(s, k, s.runs[k]);
    case _ =>
  }

  /** The update that completes a command never waits for a claim's row lock. */
  lemma CompletionNeverBlocked(steps: seq<Step>, k: Key)
    requires Run(steps)
    requires k in After(steps).runs && After(steps).runs[k].Flushing?
    requires After(steps).runs[k].flush !in After(steps).outbox.flushes
    ensures forall applied :: Enabled(After(steps), Complete(k, applied))
  {
    RunKeepsInv(steps);
    assert RunOk(After(steps), k, After(steps).runs[k]);
    DeliveredUnlocked(After(steps), k);
  }
}
