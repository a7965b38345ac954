/**
 The manager under concurrent requests. Each mutex section is one step; logins,
 session checks and the cleanup tick take several, between which anything may
 happen and the clock may advance.
 */
module AuthRuns {
  import opened Wrappers
  import opened Ordered
  import opened Auth

  type LoginId = int
  type CheckId = int

  /** A login that has passed the lock check, and one that has cleared its failures. */
  datatype Login = Checked(ip: Ip) | Cleared

  /** A session check that has read an entry, and one that is about to delete an expired entry. */
  datatype Check = Read(token: Token, createdAt: Time, live: bool) | Deleting(token: Token)

  /** What a check answered: `live` says whether the token was issued and not logged out when it was read. */
  datatype Answer = Answer(token: Token, ok: bool, live: bool, at: Time)

  /** `cleanup` is the reading with which the running cleanup tick works. History: issued, loggedOut, answers. */
  datatype State = State(
    now: Time,
    sessions: Sessions,
    attempts: Attempts,
    logins: map<LoginId, Login>,
    checks: map<CheckId, Check>,
    cleanup: Option<Time>,
    issued: map<Token, Time>,
    loggedOut: set<Token>,
    answers: map<CheckId, Answer>)

  datatype Step =
    | Advance(to: Time)
    | BeginLogin(login: LoginId, ip: Ip)
    | RejectLogin(login: LoginId)
    | AcceptLogin(login: LoginId)
    | IssueToken(login: LoginId, token: Token, username: string)
    | AbandonLogin(login: LoginId)
    | Logout(token: Token)
    | ReadSession(check: CheckId, token: Token)
    | DecideSession(check: CheckId)
    | DropSession(check: CheckId)
    | BeginCleanup
    | CleanupSessions
    | CleanupAttempts

  const Init := State(0, map[], map[], map[], map[], None, map[], {}, map[])

  ghost predicate Live(s: State, token: Token) {
    token in s.issued && token !in s.loggedOut
  }

  /** The logins of an address that passed the lock check and have not been decided. */
  ghost function Undecided(s: State, ip: Ip): set<LoginId> {
    set l | l in s.logins && s.logins[l] == Checked(ip)
  }

  /** k bounds the undecided logins of one address. */
  ghost predicate Enabled(s: State, k: nat, step: Step) {
    match step
    case Advance(to) => to >= s.now
    case BeginLogin(l, ip) => l !in s.logins && |Undecided(s, ip)| < k
    case RejectLogin(l) => l in s.logins && s.logins[l].Checked?
    case AcceptLogin(l) => l in s.logins && s.logins[l].Checked?
    case IssueToken(l, token, _) => l in s.logins && s.logins[l].Cleared? && token !in s.issued
    case AbandonLogin(l) => l in s.logins && s.logins[l].Cleared?
    case Logout(_) => true
    case ReadSession(c, _) => c !in s.checks && c !in s.answers
    case DecideSession(c) => c in s.checks && s.checks[c].Read?
    case DropSession(c) => c in s.checks && s.checks[c].Deleting?
    case BeginCleanup => true
    case CleanupSessions => s.cleanup.Some?
    case CleanupAttempts => s.cleanup.Some?
  }

  ghost function Next(s: State, k: nat, step: Step): State
    requires Enabled(s, k, step)
  {
    match step
    case Advance(to) => s.(now := to)
    case BeginLogin(l, ip) =>
      if IsLockedOutNow(s.attempts, ip, s.now) then s
      else s.(attempts := AfterLockCheck(s.attempts, ip, s.now), logins := s.logins[l := Checked(ip)])
    case RejectLogin(l) =>
      s.(attempts := AfterFailure(s.attempts, s.logins[l].ip, s.now), logins := s.logins - {l})
    case AcceptLogin(l) =>
      s.(attempts := s.attempts - {s.logins[l].ip}, logins := s.logins[l := Cleared])
    case IssueToken(l, token, username) =>
      s.(sessions := s.sessions[token := Session(username, s.now)],
         issued := s.issued[token := s.now],
         logins := s.logins - {l})
    case AbandonLogin(l) => s.(logins := s.logins - {l})
    case Logout(token) =>
      s.(sessions := s.sessions - {token},
         loggedOut := if token in s.issued then s.loggedOut + {token} else s.loggedOut)
    case ReadSession(c, token) =>
      if token in s.sessions then
        s.(checks := s.checks[c := Read(token, s.sessions[token].createdAt, Live(s, token))])
      else s.(answers := s.answers[c := Answer(token, false, Live(s, token), s.now)])
    case DecideSession(c) =>
      var r := s.checks[c];
      if Expired(r.createdAt, s.now) then
        s.(checks := s.checks[c := Deleting(r.token)],
           answers := s.answers[c := Answer(r.token, false, r.live, s.now)])
      else
        s.(checks := s.checks - {c}, answers := s.answers[c := Answer(r.token, true, r.live, s.now)])
    case DropSession(c) =>
      s.(sessions := s.sessions - {s.checks[c].token}, checks := s.checks - {c})
    case BeginCleanup => s.(cleanup := Some(s.now))
    case CleanupSessions => s.(sessions := CleanSessions(s.sessions, s.cleanup.value))
    case CleanupAttempts => s.(attempts := CleanAttempts(s.attempts, s.cleanup.value))
  }

  // ----------------------------------------------------------------------- sessions

  ghost predicate SessionOk(s: State, token: Token)
    requires token in s.sessions
  {
    Live(s, token) && s.sessions[token].createdAt == s.issued[token]
  }

  ghost predicate CheckOk(s: State, c: Check) {
    && c.token in s.issued
    && match c
       case Read(token, createdAt, live) => live && createdAt == s.issued[token]
       case Deleting(token) => Expired(s.issued[token], s.now)
  }

  ghost predicate AnswerOk(s: State, a: Answer) {
    a.ok <==> a.live && a.token in s.issued && !Expired(s.issued[a.token], a.at)
  }

  ghost predicate SessionInv(s: State) {
    && (forall token :: token in s.sessions ==> SessionOk(s, token))
    && (forall token :: Live(s, token) && token !in s.sessions ==> Expired(s.issued[token], s.now))
    && (forall c :: c in s.checks ==> CheckOk(s, s.checks[c]))
    && (forall c :: c in s.answers ==> AnswerOk(s, s.answers[c]))
    && (s.cleanup.Some? ==> s.cleanup.value <= s.now)
    && s.loggedOut <= s.issued.Keys
  }

  /** The history of a token only ever grows, so an answer stays right. */
  lemma AnswerStays(s: State, k: nat, step: Step, a: Answer)
    requires Enabled(s, k, step) && AnswerOk(s, a) && (a.live ==> a.token in s.issued)
    ensures AnswerOk(Next(s, k, step), a)
  {
  }

  ghost predicate AnswersIssued(s: State) {
    forall c :: c in s.answers && s.answers[c].live ==> s.answers[c].token in s.issued
  }

  lemma StepKeepsEntries(s: State, k: nat, step: Step, token: Token)
    requires SessionInv(s) && Enabled(s, k, step)
    ensures var s' := Next(s, k, step);
            && (token in s'.sessions ==> SessionOk(s', token))
            && (Live(s', token) && token !in s'.sessions ==> Expired(s'.issued[token], s'.now))
  {
    assert token in s.sessions ==> SessionOk(s, token);
    assert Live(s, token) && token !in s.sessions ==> Expired(s.issued[token], s.now);
    if step.DropSession? {
      assert CheckOk(s, s.checks[step.check]);
    }
  }

  lemma StepKeepsChecks(s: State, k: nat, step: Step, c: CheckId)
    requires SessionInv(s) && Enabled(s, k, step) && c in Next(s, k, step).checks
    ensures CheckOk(Next(s, k, step), Next(s, k, step).checks[c])
  {
    assert c in s.checks ==> CheckOk(s, s.checks[c]);
    if step.ReadSession? && step.token in s.sessions {
      assert SessionOk(s, step.token);
    }
  }

  /** A check that finds no entry may say no: its token is gone, logged out or expired. */
  lemma MissIsRight(s: State, token: Token)
    requires SessionInv(s) && token !in s.sessions
    ensures AnswerOk(s, Answer(token, false, Live(s, token), s.now))
  {
    assert Live(s, token) ==> Expired(s.issued[token], s.now);
  }

  /** A check that found an entry judges the time it was issued. */
  lemma ReadIsRight(s: State, c: CheckId)
    requires SessionInv(s) && c in s.checks && s.checks[c].Read?
    ensures var r := s.checks[c];
            && r.live && r.token in s.issued
            && AnswerOk(s, Answer(r.token, !Expired(r.createdAt, s.now), r.live, s.now))
  {
    assert CheckOk(s, s.checks[c]);
  }

  lemma StepKeepsAnswers(s: State, k: nat, step: Step, c: CheckId)
    requires SessionInv(s) && AnswersIssued(s) && Enabled(s, k, step) && c in Next(s, k, step).answers
    ensures var s' := Next(s, k, step);
            AnswerOk(s', s'.answers[c]) && (s'.answers[c].live ==> s'.answers[c].token in s'.issued)
  {
    if step.DecideSession? && c == step.check {
      ReadIsRight(s, c);
    } else if step.ReadSession? && c == step.check {
      if step.token !in s.sessions {
        MissIsRight(s, step.token);
      }
    } else {
      AnswerStays(s, k, step, s.answers[c]);
    }
  }

  lemma StepKeepsSessions(s: State, k: nat, step: Step)
    requires SessionInv(s) && AnswersIssued(s) && Enabled(s, k, step)
    ensures SessionInv(Next(s, k, step)) && AnswersIssued(Next(s, k, step))
  {
    var s' := Next(s, k, step);
    forall token {
      StepKeepsEntries(s, k, step, token);
    }
    forall c | c in s'.checks {
      StepKeepsChecks(s, k, step, c);
    }
    forall c | c in s'.answers {
      StepKeepsAnswers(s, k, step, c);
    }
  }

  // ------------------------------------------------------------------------ lockout

  ghost function Failures(s: State, ip: Ip): nat {
    if ip in s.attempts then s.attempts[ip].failures else 0
  }

  ghost predicate AttemptOk(a: Attempt, now: Time) {
    && (a.lockedAt.Some? <==> a.failures >= LOGIN_MAX_ATTEMPTS)
    && (a.lockedAt.Some? ==> a.lockedAt.value <= now)
  }

  ghost predicate LockInv(s: State, k: nat) {
    && (forall ip :: ip in s.attempts ==> AttemptOk(s.attempts[ip], s.now))
    && (forall ip :: CountOk(s, k, ip))
    && (s.cleanup.Some? ==> s.cleanup.value <= s.now)
  }

  /** How a step changes the undecided logins of an address. */
  lemma UndecidedStep(s: State, k: nat, step: Step, ip: Ip)
    requires Enabled(s, k, step)
    ensures var s' := Next(s, k, step);
            Undecided(s', ip) ==
              if step.BeginLogin? && step.ip == ip && !IsLockedOutNow(s.attempts, ip, s.now)
              then Undecided(s, ip) + {step.login}
              else if (step.RejectLogin? || step.AcceptLogin?) && s.logins[step.login] == Checked(ip)
              then Undecided(s, ip) - {step.login}
              else Undecided(s, ip)
  {
  }

  lemma StepKeepsAttempt(s: State, k: nat, step: Step, ip: Ip)
    requires LockInv(s, k) && Enabled(s, k, step) && ip in Next(s, k, step).attempts
    ensures AttemptOk(Next(s, k, step).attempts[ip], Next(s, k, step).now)
  {
    assert ip in s.attempts ==> AttemptOk(s.attempts[ip], s.now);
  }

  ghost predicate CountOk(s: State, k: nat, ip: Ip) {
    |Undecided(s, ip)| <= k && Failures(s, ip) + |Undecided(s, ip)| <= LOGIN_MAX_ATTEMPTS - 1 + k
  }

  /** Only a rejected login adds a failure, and only one; a login that begins finds its address unlocked. */
  lemma FailuresStep(s: State, k: nat, step: Step, ip: Ip)
    requires Enabled(s, k, step)
    ensures var s' := Next(s, k, step);
            && Failures(s', ip) <= Failures(s, ip) +
                 (if step.RejectLogin? && s.logins[step.login] == Checked(ip) then 1 else 0)
            && (step.BeginLogin? && step.ip == ip && !IsLockedOutNow(s.attempts, ip, s.now) ==>
                  Failures(s', ip) < LOGIN_MAX_ATTEMPTS)
  {
  }

  lemma StepKeepsCount(s: State, k: nat, step: Step, ip: Ip)
    requires CountOk(s, k, ip) && Enabled(s, k, step)
    ensures CountOk(Next(s, k, step), k, ip)
  {
    UndecidedStep(s, k, step, ip);
    FailuresStep(s, k, step, ip);
    var before, after := Undecided(s, ip), Undecided(Next(s, k, step), ip);
    if step.BeginLogin? && step.ip == ip {
      assert step.login !in before;
      assert after == before || |after| == |before| + 1;
    } else if step.RejectLogin? && s.logins[step.login] == Checked(ip) {
      assert step.login in before && |after| == |before| - 1;
    } else {
      assert after <= before;
      SubsetCard(after, before);
    }
  }

  lemma StepKeepsLock(s: State, k: nat, step: Step)
    requires LockInv(s, k) && Enabled(s, k, step)
    ensures LockInv(Next(s, k, step), k)
  {
    forall ip | ip in Next(s, k, step).attempts {
      StepKeepsAttempt(s, k, step, ip);
    }
    forall ip ensures CountOk(Next(s, k, step), k, ip) {
      assert CountOk(s, k, ip);
      StepKeepsCount(s, k, step, ip);
    }
  }

  // --------------------------------------------------------------------------- runs

  ghost function After(k: nat, steps: seq<Step>): State
    requires Run(k, steps)
    decreases |steps|, 1
  {
    if steps == [] then Init else Next(After(k, steps[..|steps| - 1]), k, steps[|steps| - 1])
  }

  ghost predicate Run(k: nat, steps: seq<Step>)
    decreases |steps|, 0
  {
    steps != [] ==>
      Run(k, steps[..|steps| - 1]) && Enabled(After(k, steps[..|steps| - 1]), k, steps[|steps| - 1])
  }

  lemma {:induction false} RunKeepsInv(k: nat, steps: seq<Step>)
    requires Run(k, steps)
    ensures SessionInv(After(k, steps)) && AnswersIssued(After(k, steps)) && LockInv(After(k, steps), k)
  {
    if steps == [] {
      forall ip ensures CountOk(Init, k, ip) {
        assert Undecided(Init, ip) == {};
      }
    } else {
      RunKeepsInv(k, steps[..|steps| - 1]);
      StepKeepsSessions(After(k, steps[..|steps| - 1]), k, steps[|steps| - 1]);
      StepKeepsLock(After(k, steps[..|steps| - 1]), k, steps[|steps| - 1]);
    }
  }

  /**
   Over every interleaving, a session check says yes exactly when its token was
   issued and not logged out when it was read, and was at most 24 hours old when
   it was judged: lazy deletion and cleanup never show.
   */
  lemma ChecksAreExact(k: nat, steps: seq<Step>, c: CheckId)
    requires Run(k, steps) && c in After(k, steps).answers
    ensures var s := After(k, steps); var a := s.answers[c];
            a.ok <==> a.live && a.token in s.issued && a.at - s.issued[a.token] <= 86_400_000_000_000
  {
    RunKeepsInv(k, steps);
    assert AnswerOk(After(k, steps), After(k, steps).answers[c]);
  }

  /** A check that nothing interrupts answers from the issue and logout history alone. */
  lemma UninterruptedCheck(k: nat, steps: seq<Step>, c: CheckId, token: Token)
    requires Run(k, steps) && Enabled(After(k, steps), k, ReadSession(c, token))
    ensures var s := After(k, steps);
            var s1 := Next(s, k, ReadSession(c, token));
            var s2 := if c in s1.answers then s1 else Next(s1, k, DecideSession(c));
            && c in s2.answers
            && s2.answers[c].ok == (Live(s, token) && s.now - s.issued[token] <= 86_400_000_000_000)
  {
    RunKeepsInv(k, steps);
    var s := After(k, steps);
    if token in s.sessions {
      assert SessionOk(s, token);
    }
  }

  /**
   The failure count of an address never exceeds 4 + k when at most k of its logins
   are undecided at once, and the lock time is set exactly from 5 failures on.
   */
  lemma FailuresBounded(k: nat, steps: seq<Step>, ip: Ip)
    requires Run(k, steps)
    ensures var s := After(k, steps);
            && Failures(s, ip) <= 4 + k
            && (ip in s.attempts ==> (s.attempts[ip].lockedAt.Some? <==> s.attempts[ip].failures >= 5))
  {
    RunKeepsInv(k, steps);
    var s := After(k, steps);
    assert CountOk(s, k, ip);
    assert ip in s.attempts ==> AttemptOk(s.attempts[ip], s.now);
  }

  /** A lock set at or after `since`. */
  ghost predicate LockedSince(s: State, ip: Ip, since: Time) {
    && ip in s.attempts
    && s.attempts[ip].failures >= 5
    && s.attempts[ip].lockedAt.Some?
    && s.attempts[ip].lockedAt.value >= since
  }

  ghost predicate AcceptsLogin(s: State, step: Step, ip: Ip) {
    step.AcceptLogin? && step.login in s.logins && s.logins[step.login] == Checked(ip)
  }

  /** Nothing but a login already under way that succeeds lifts a lock before its five minutes pass. */
  lemma StepKeepsLocked(s: State, k: nat, step: Step, ip: Ip, since: Time)
    requires LockInv(s, k) && Enabled(s, k, step)
    requires LockedSince(s, ip, since) && !AcceptsLogin(s, step, ip)
    requires Next(s, k, step).now < since + 300_000_000_000
    ensures LockedSince(Next(s, k, step), ip, since)
  {
    assert AttemptOk(s.attempts[ip], s.now);
  }

  /** From step i on, no login of the address is accepted. */
  ghost predicate NoneAccepted(k: nat, steps: seq<Step>, i: nat, ip: Ip)
    requires Run(k, steps)
  {
    |steps| > i ==>
      && !AcceptsLogin(After(k, steps[..|steps| - 1]), steps[|steps| - 1], ip)
      && NoneAccepted(k, steps[..|steps| - 1], i, ip)
  }

  lemma ClockAdvances(s: State, k: nat, step: Step)
    requires Enabled(s, k, step)
    ensures s.now <= Next(s, k, step).now
  {
  }

  lemma LockedNow(s: State, ip: Ip, since: Time)
    requires LockedSince(s, ip, since) && s.now < since + 300_000_000_000
    ensures IsLockedOutNow(s.attempts, ip, s.now)
  {
  }

  /**
   Over every run: once an address is locked at `since`, it stays locked, and every
   new login from it is refused, until five minutes later or until a login that had
   already passed the check succeeds. Cleanup and lazy expiry never release it early.
   */
  lemma {:induction false} LockHolds(k: nat, steps: seq<Step>, i: nat, ip: Ip, since: Time)
    requires Run(k, steps) && i <= |steps| && Run(k, steps[..i])
    requires LockedSince(After(k, steps[..i]), ip, since)
    requires NoneAccepted(k, steps, i, ip)
    requires After(k, steps).now < since + 300_000_000_000
    ensures LockedSince(After(k, steps), ip, since)
    ensures IsLockedOutNow(After(k, steps).attempts, ip, After(k, steps).now)
  {
    if i == |steps| {
      assert steps[..i] == steps;
      LockedNow(After(k, steps), ip, since);
    } else {
      var n := |steps| - 1;
      var front := steps[..n];
      assert front[..i] == steps[..i];
      RunKeepsInv(k, front);
      ClockAdvances(After(k, front), k, steps[n]);
      LockHolds(k, front, i, ip, since);
      StepKeepsLocked(After(k, front), k, steps[n], ip, since);
      LockedNow(After(k, steps), ip, since);
    }
  }

  // ------------------------------------------------------------- who is refused, and why

  /** Step j rejects a login of the address. */
  ghost predicate RejectsAt(s: State, step: Step, ip: Ip) {
    step.RejectLogin? && step.login in s.logins && s.logins[step.login] == Checked(ip)
  }

  /** The rejected logins of an address since the last accepted one. */
  ghost function Rejections(k: nat, steps: seq<Step>, ip: Ip): nat
    requires Run(k, steps)
  {
    if steps == [] then 0
    else
      var n := |steps| - 1;
      var s := After(k, steps[..n]);
      if AcceptsLogin(s, steps[n], ip) then 0
      else Rejections(k, steps[..n], ip) + if RejectsAt(s, steps[n], ip) then 1 else 0
  }

  /** When the last of them was. */
  ghost function LastRejection(k: nat, steps: seq<Step>, ip: Ip): Option<Time>
    requires Run(k, steps)
  {
    if steps == [] then None
    else
      var n := |steps| - 1;
      var s := After(k, steps[..n]);
      if AcceptsLogin(s, steps[n], ip) then None
      else if RejectsAt(s, steps[n], ip) then Some(s.now)
      else LastRejection(k, steps[..n], ip)
  }

  /** What the attempts map knows of the address is part of that history. */
  ghost predicate FromHistory(s: State, ip: Ip, rejections: nat, last: Option<Time>) {
    ip in s.attempts ==>
      && s.attempts[ip].failures <= rejections
      && (s.attempts[ip].lockedAt.Some? ==> s.attempts[ip].lockedAt == last)
  }

  lemma StepFromHistory(s: State, k: nat, step: Step, ip: Ip, rejections: nat, last: Option<Time>)
    requires Enabled(s, k, step) && FromHistory(s, ip, rejections, last)
    requires ip in s.attempts ==> AttemptOk(s.attempts[ip], s.now)
    ensures FromHistory(Next(s, k, step), ip,
              if AcceptsLogin(s, step, ip) then 0 else rejections + if RejectsAt(s, step, ip) then 1 else 0,
              if AcceptsLogin(s, step, ip) then None else if RejectsAt(s, step, ip) then Some(s.now) else last)
  {
  }

  lemma {:induction false} RunFromHistory(k: nat, steps: seq<Step>, ip: Ip)
    requires Run(k, steps)
    ensures FromHistory(After(k, steps), ip, Rejections(k, steps, ip), LastRejection(k, steps, ip))
  {
    if steps != [] {
      var n := |steps| - 1;
      RunFromHistory(k, steps[..n], ip);
      RunKeepsInv(k, steps[..n]);
      StepFromHistory(After(k, steps[..n]), k, steps[n], ip,
        Rejections(k, steps[..n], ip), LastRejection(k, steps[..n], ip));
    }
  }

  /** A login that begins is let through when it gets an entry among the undecided ones. */
  ghost predicate LetThrough(s: State, k: nat, login: LoginId, ip: Ip)
    requires Enabled(s, k, BeginLogin(login, ip))
  {
    login in Next(s, k, BeginLogin(login, ip)).logins
  }

  /**
   The converse of LockHolds, over every run: a login is refused only if its address has
   had at least five logins rejected since one was accepted, the last of them less
   than five minutes ago.
   */
  lemma {:induction false} RefusedForCause(k: nat, steps: seq<Step>, login: LoginId, ip: Ip)
    requires Run(k, steps) && Enabled(After(k, steps), k, BeginLogin(login, ip))
    requires !LetThrough(After(k, steps), k, login, ip)
    ensures Rejections(k, steps, ip) >= 5
    ensures LastRejection(k, steps, ip).Some?
    ensures After(k, steps).now - LastRejection(k, steps, ip).value < 300_000_000_000
  {
    RunFromHistory(k, steps, ip);
  }

  /** So five minutes after the last rejected login, every login from the address is let through. */
  lemma {:induction false} LockExpires(k: nat, steps: seq<Step>, login: LoginId, ip: Ip)
    requires Run(k, steps) && Enabled(After(k, steps), k, BeginLogin(login, ip))
    requires LastRejection(k, steps, ip).Some? ==>
               After(k, steps).now - LastRejection(k, steps, ip).value >= 300_000_000_000
    ensures LetThrough(After(k, steps), k, login, ip)
  {
    if !LetThrough(After(k, steps), k, login, ip) {
      RefusedForCause(k, steps, login, ip);
    }
  }
}
