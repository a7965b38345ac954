/**
 The server's queue of remote commands. A claim is one SQL statement that first
 picks and locks rows (FOR UPDATE SKIP LOCKED) and then updates them; claims of
 concurrent requests overlap between those two moments.
 */
module CommandQueue {
  type HostId = int
  type CommandId = int
  type ClaimId = int
  type Time = int

  datatype Status = Pending | Dispatched | Success | Failed

  datatype Command = Command(host: HostId, requestedAt: Time, status: Status)

  datatype Claim =
    | Picked(host: HostId, ids: set<CommandId>)
    | Returned(host: HostId, ids: set<CommandId>)
    | Aborted

  datatype State = State(commands: map<CommandId, Command>, claims: map<ClaimId, Claim>)

  datatype Step =
    | Enqueue(id: CommandId, host: HostId, at: Time)
    | Pick(claim: ClaimId, host: HostId, limit: int, ids: set<CommandId>)
    | Commit(claim: ClaimId)
    | Abort(claim: ClaimId)
    | Complete(id: CommandId, ok: bool)

  const Init := State(map[], map[])

  /** pending, dispatched, terminal */
  function Rank(s: Status): nat {
    match s case Pending => 0 case Dispatched => 1 case Success => 2 case Failed => 2
  }

  /** A non-positive limit means ten. */
  function Limit(limit: int): (n: nat)
    ensures n > 0
  {
    if limit <= 0 then 10 else limit
  }

  ghost predicate Locked(s: State, id: CommandId) {
    exists c :: c in s.claims && s.claims[c].Picked? && id in s.claims[c].ids
  }

  ghost function PendingOf(s: State, host: HostId): set<CommandId> {
    set id | id in s.commands && s.commands[id].host == host && s.commands[id].status == Pending
  }

  ghost function Available(s: State, host: HostId): set<CommandId> {
    set id | id in PendingOf(s, host) && !Locked(s, id)
  }

  /** ORDER BY requested_at ASC LIMIT n over the rows that are not locked. */
  ghost predicate OldestFirst(s: State, host: HostId, limit: int, ids: set<CommandId>) {
    && ids <= Available(s, host)
    && |ids| <= Limit(limit)
    && (|ids| < Limit(limit) ==> ids == Available(s, host))
    && forall p, q :: p in ids && q in Available(s, host) - ids ==>
         s.commands[p].requestedAt <= s.commands[q].requestedAt
  }

  ghost predicate Enabled(s: State, step: Step) {
    match step
    case Enqueue(id, _, _) => id !in s.commands
    case Pick(c, host, limit, ids) => c !in s.claims && OldestFirst(s, host, limit, ids)
    case Commit(c) => c in s.claims && s.claims[c].Picked?
    case Abort(c) => c in s.claims && s.claims[c].Picked?
    case Complete(id, _) => id in s.commands && !Locked(s, id)
  }

  ghost function Next(s: State, step: Step): State
    requires Enabled(s, step)
  {
    match step
    case Enqueue(id, host, at) =>
      s.(commands := s.commands[id := Command(host, at, Pending)])
    case Pick(c, host, limit, ids) =>
      s.(claims := s.claims[c := Picked(host, ids)])
    case Commit(c) =>
      var ids := s.claims[c].ids;
      State(
        map id | id in s.commands ::
          if id in ids then s.commands[id].(status := Dispatched) else s.commands[id],
        s.claims[c := Returned(s.claims[c].host, ids)])
    case Abort(c) =>
      s.(claims := s.claims[c := Aborted])
    case Complete(id, ok) =>
      s.(commands := s.commands[id := s.commands[id].(status := if ok then Success else Failed)])
  }

  ghost predicate ClaimOk(s: State, claim: Claim) {
    match claim
    case Picked(host, ids) => ids <= PendingOf(s, host)
    case Returned(host, ids) =>
      forall id :: id in ids ==> id in s.commands && s.commands[id].host == host && s.commands[id].status != Pending
    case Aborted => true
  }

  ghost predicate Apart(a: Claim, b: Claim) {
    a.Aborted? || b.Aborted? || a.ids !! b.ids
  }

  ghost predicate Inv(s: State) {
    && (forall c :: c in s.claims ==> ClaimOk(s, s.claims[c]))
    && (forall c, d :: c in s.claims && d in s.claims && c != d ==> Apart(s.claims[c], s.claims[d]))
  }

  lemma StepKeepsInv(s: State, step: Step)
    requires Inv(s) && Enabled(s, step)
    ensures Inv(Next(s, step))
  {
    var s' := Next(s, step);
    forall c | c in s'.claims ensures ClaimOk(s', s'.claims[c]) {
      StepKeepsClaim(s, step, c);
    }
    forall c, d | c in s'.claims && d in s'.claims && c != d ensures Apart(s'.claims[c], s'.claims[d]) {
      StepKeepsApart(s, step, c, d);
    }
  }

  lemma StepKeepsClaim(s: State, step: Step, c: ClaimId)
    requires Inv(s) && Enabled(s, step) && c in Next(s, step).claims
    ensures ClaimOk(Next(s, step), Next(s, step).claims[c])
  {
    var s' := Next(s, step);
    if c in s.claims {
      assert ClaimOk(s, s.claims[c]);
      if step.Commit? && c != step.claim {
        assert Apart(s.claims[c], s.claims[step.claim]);
      }
    }
  }

  lemma StepKeepsApart(s: State, step: Step, c: ClaimId, d: ClaimId)
    requires Inv(s) && Enabled(s, step) && c in Next(s, step).claims && d in Next(s, step).claims && c != d
    ensures Apart(Next(s, step).claims[c], Next(s, step).claims[d])
  {
    if c in s.claims && d in s.claims {
      assert Apart(s.claims[c], s.claims[d]);
    } else {
      var known := if c in s.claims then c else d;
      PickedIsNew(s, step, known);
    }
  }

  /** A pick takes nothing that another live claim has taken. */
  lemma PickedIsNew(s: State, step: Step, c: ClaimId)
    requires Inv(s) && Enabled(s, step) && step.Pick? && c in s.claims
    ensures Apart(Picked(step.host, step.ids), s.claims[c])
  {
    assert ClaimOk(s, s.claims[c]);
    if !s.claims[c].Aborted? {
      forall id | id in step.ids ensures id !in s.claims[c].ids {
        assert id in Available(s, step.host);
        assert s.claims[c].Picked? && id in s.claims[c].ids ==> Locked(s, id);
      }
    }
  }

  ghost function After(steps: seq<Step>): State
    requires Run(steps)
    decreases |steps|, 1
  {
    if steps == [] then Init else Next(After(steps[..|steps| - 1]), steps[|steps| - 1])
  }

  ghost predicate Run(steps: seq<Step>)
    decreases |steps|, 0
  {
    steps != [] ==> Run(steps[..|steps| - 1]) && Enabled(After(steps[..|steps| - 1]), steps[|steps| - 1])
  }

  lemma {:induction false} RunKeepsInv(steps: seq<Step>)
    requires Run(steps)
    ensures Inv(After(steps))
  {
    if steps != [] {
      RunKeepsInv(steps[..|steps| - 1]);
      StepKeepsInv(After(steps[..|steps| - 1]), steps[|steps| - 1]);
    }
  }

  /** Over every run, overlapping claims included, a command is returned by at most one claim. */
  lemma ReturnedOnce(steps: seq<Step>, c: ClaimId, d: ClaimId, id: CommandId)
    requires Run(steps)
    requires var claims := After(steps).claims;
             && c in claims && claims[c].Returned? && id in claims[c].ids
             && d in claims && claims[d].Returned? && id in claims[d].ids
    ensures c == d
  {
    RunKeepsInv(steps);
    var claims := After(steps).claims;
    assert c != d ==> Apart(claims[c], claims[d]);
  }

  lemma StepRank(s: State, step: Step, id: CommandId)
    requires Inv(s) && Enabled(s, step) && id in s.commands
    ensures var s' := Next(s, step);
            && id in s'.commands
            && Rank(s.commands[id].status) <= Rank(s'.commands[id].status)
            && s'.commands[id].host == s.commands[id].host
            && s'.commands[id].requestedAt == s.commands[id].requestedAt
  {
    if step.Commit? {
      assert ClaimOk(s, s.claims[step.claim]);
    }
  }

  /** Over every run, no command is ever removed and its status rank never falls. */
  lemma {:induction false} RankNeverFalls(steps: seq<Step>, k: nat, id: CommandId)
    requires Run(steps) && k <= |steps|
    ensures Run(steps[..k])
    ensures id in After(steps[..k]).commands ==>
              && id in After(steps).commands
              && Rank(After(steps[..k]).commands[id].status) <= Rank(After(steps).commands[id].status)
  {
    if k == |steps| {
      assert steps[..k] == steps;
    } else {
      var n := |steps| - 1;
      var front := steps[..n];
      RankNeverFalls(front, k, id);
      assert front[..k] == steps[..k];
      RunKeepsInv(front);
      if id in After(front).commands {
        StepRank(After(front), steps[n], id);
      }
    }
  }

  /**
   A claim that no other claim overlaps takes as many pending commands of its host
   as the limit allows, and leaves behind none that is older than one it took.
   */
  lemma SerialClaim(s: State, c: ClaimId, host: HostId, limit: int, ids: set<CommandId>)
    requires Inv(s) && Enabled(s, Pick(c, host, limit, ids))
    requires forall d :: d in s.claims ==> !s.claims[d].Picked?
    ensures var s1 := Next(s, Pick(c, host, limit, ids));
            && Enabled(s1, Commit(c))
            && var s2 := Next(s1, Commit(c));
            && s2.claims[c] == Returned(host, ids)
            && PendingOf(s2, host) == PendingOf(s, host) - ids
            && |ids| <= (if limit <= 0 then 10 else limit)
            && (|ids| < (if limit <= 0 then 10 else limit) ==>
                  forall id :: id in s2.commands && s2.commands[id].host == host ==> s2.commands[id].status != Pending)
            && (forall id :: id in ids ==>
                  id in s.commands && s.commands[id].host == host && s.commands[id].status == Pending)
            && (forall p, q :: p in ids && q in s2.commands && s2.commands[q].host == host && s2.commands[q].status == Pending
                  ==> s2.commands[p].requestedAt <= s2.commands[q].requestedAt)
            && (forall id :: id in ids ==> s2.commands[id].status == Dispatched && s2.commands[id].host == host)
            && (forall id :: id in s.commands && id !in ids ==> s2.commands[id] == s.commands[id])
  {
    assert Available(s, host) == PendingOf(s, host);
    var s1 := Next(s, Pick(c, host, limit, ids));
    var s2 := Next(s1, Commit(c));
    assert PendingOf(s2, host) == PendingOf(s, host) - ids;
    forall q | q in s2.commands && s2.commands[q].host == host && s2.commands[q].status == Pending
      ensures q in PendingOf(s2, host)
    {
    }
  }

  /** Step k is the last that completes a command. */
  ghost predicate LastCompletion(steps: seq<Step>, id: CommandId, k: nat) {
    && k < |steps| && steps[k].Complete? && steps[k].id == id
    && forall i :: k < i < |steps| && steps[i].Complete? ==> steps[i].id != id
  }

  ghost predicate Completed(steps: seq<Step>, id: CommandId) {
    exists k: nat :: LastCompletion(steps, id, k)
  }

  ghost predicate ReturnedBySome(s: State, id: CommandId) {
    exists c :: c in s.claims && s.claims[c].Returned? && id in s.claims[c].ids
  }

  lemma CompletionSnoc(steps: seq<Step>, id: CommandId)
    requires steps != []
    ensures var n := |steps| - 1; var last := steps[n].Complete? && steps[n].id == id;
            && (last ==> LastCompletion(steps, id, n))
            && (Completed(steps, id) <==> last || Completed(steps[..n], id))
            && (!last ==> forall k: nat :: LastCompletion(steps, id, k) ==> LastCompletion(steps[..n], id, k))
  {
    var n := |steps| - 1;
    var last := steps[n].Complete? && steps[n].id == id;
    assert last ==> LastCompletion(steps, id, n);
    forall k: nat | !last ensures LastCompletion(steps, id, k) <==> LastCompletion(steps[..n], id, k) {
    }
  }

  /**
   Over every run a command has the status of its last completion; one that was never
   completed is dispatched exactly if some claim has returned it.
   */
  lemma {:induction false} StatusIsHistory(steps: seq<Step>, id: CommandId)
    requires Run(steps) && id in After(steps).commands
    ensures var status := After(steps).commands[id].status;
            && (forall k: nat :: LastCompletion(steps, id, k) ==> status == if steps[k].ok then Success else Failed)
            && (!Completed(steps, id) ==>
                  status == if ReturnedBySome(After(steps), id) then Dispatched else Pending)
  {
    var n := |steps| - 1;
    var s, step := After(steps[..n]), steps[n];
    RunKeepsInv(steps[..n]);
    RunKeepsInv(steps);
    CompletionSnoc(steps, id);
    if id in s.commands {
      StatusIsHistory(steps[..n], id);
      ReturnedNext(s, step, id);
    } else {
      NeverCompleted(steps[..n], id);
      NoneReturned(After(steps), id);
    }
  }

  /** A new command has been returned by no claim. */
  lemma NoneReturned(s: State, id: CommandId)
    requires Inv(s) && id in s.commands && s.commands[id].status == Pending
    ensures !ReturnedBySome(s, id)
  {
    forall c | c in s.claims && s.claims[c].Returned? ensures id !in s.claims[c].ids {
      assert ClaimOk(s, s.claims[c]);
    }
  }

  lemma ReturnedNext(s: State, step: Step, id: CommandId)
    requires Inv(s) && Enabled(s, step)
    ensures var commits := step.Commit? && id in s.claims[step.claim].ids;
            ReturnedBySome(Next(s, step), id) <==> ReturnedBySome(s, id) || commits
  {
    var s' := Next(s, step);
    if c :| c in s.claims && s.claims[c].Returned? && id in s.claims[c].ids {
      assert s'.claims[c] == s.claims[c];
    }
    if c :| c in s'.claims && s'.claims[c].Returned? && id in s'.claims[c].ids {
      assert c in s.claims;
    }
    if step.Commit? && id in s.claims[step.claim].ids {
      assert s'.claims[step.claim].Returned?;
    }
  }

  lemma {:induction false} NeverCompleted(steps: seq<Step>, id: CommandId)
    requires Run(steps) && id !in After(steps).commands
    ensures !Completed(steps, id)
  {
    if steps != [] {
      var n := |steps| - 1;
      NeverCompleted(steps[..n], id);
      CompletionSnoc(steps, id);
    }
  }
}
