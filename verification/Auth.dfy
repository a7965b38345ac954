/**
 The session and lockout manager of the server's API: its two maps, and its
 methods as they update them. Every reading of the clock is a parameter.
 */
module Auth {
  import opened Wrappers
  import opened Ordered

  type Time = int    // nanoseconds
  type Token = int   // random 256-bit tokens; the empty string is None
  type Ip = int

  const SECOND: int := 1_000_000_000
  const SESSION_TTL: int := 24 * 3600 * SECOND
  const LOGIN_MAX_ATTEMPTS: int := 5
  const LOGIN_LOCKOUT: int := 5 * 60 * SECOND

  datatype Session = Session(username: string, createdAt: Time)

  /** lockedAt is None while it still has Go's zero time, which is longer ago than any duration. */
  datatype Attempt = Attempt(failures: nat, lockedAt: Option<Time>)

  type Sessions = map<Token, Session>
  type Attempts = map<Ip, Attempt>

  /** now.Sub(t) >= d, for a positive duration d */
  predicate Elapsed(now: Time, t: Option<Time>, d: int) {
    t.None? || now - t.value >= d
  }

  predicate Locked(a: Attempt, now: Time) {
    a.failures >= LOGIN_MAX_ATTEMPTS && !Elapsed(now, a.lockedAt, LOGIN_LOCKOUT)
  }

  predicate IsLockedOutNow(m: Attempts, ip: Ip, now: Time) {
    ip in m && Locked(m[ip], now)
  }

  /** An expired lock is dropped when it is looked at. */
  function AfterLockCheck(m: Attempts, ip: Ip, now: Time): Attempts {
    if ip in m && m[ip].failures >= LOGIN_MAX_ATTEMPTS && !Locked(m[ip], now) then m - {ip} else m
  }

  function AfterFailure(m: Attempts, ip: Ip, now: Time): Attempts {
    var a := if ip in m then m[ip] else Attempt(0, None);
    var n := a.failures + 1;
    m[ip := Attempt(n, if n >= LOGIN_MAX_ATTEMPTS then Some(now) else a.lockedAt)]
  }

  /** An entry the cleanup deletes: an expired lock, or failures short of a lock. */
  predicate Stale(a: Attempt, now: Time) {
    if a.failures >= LOGIN_MAX_ATTEMPTS then Elapsed(now, a.lockedAt, LOGIN_LOCKOUT)
    else a.lockedAt.None? || now - a.lockedAt.value > LOGIN_LOCKOUT
  }

  function CleanAttempts(m: Attempts, now: Time): Attempts {
    map ip | ip in m && !Stale(m[ip], now) :: m[ip]
  }

  predicate Expired(createdAt: Time, now: Time) {
    now - createdAt > SESSION_TTL
  }

  function CleanSessions(m: Sessions, now: Time): Sessions {
    map tok | tok in m && !Expired(m[tok].createdAt, now) :: m[tok]
  }

  class AuthManager {
    const loginUsername: string
    const loginPassword: string
    var sessions: Sessions
    var attempts: Attempts

    constructor (loginUsername: string, loginPassword: string)
      ensures this.loginUsername == loginUsername && this.loginPassword == loginPassword
      ensures sessions == map[] && attempts == map[]
    {
      this.loginUsername, this.loginPassword := loginUsername, loginPassword;
      sessions, attempts := map[], map[];
    }

    method IsLockedOut(ip: Ip, now: Time) returns (locked: bool)
      modifies this`attempts
      ensures locked == IsLockedOutNow(old(attempts), ip, now)
      ensures attempts == AfterLockCheck(old(attempts), ip, now)
      ensures locked <==>
                && ip in old(attempts) && old(attempts)[ip].failures >= 5 && old(attempts)[ip].lockedAt.Some?
                && now - old(attempts)[ip].lockedAt.value < 300_000_000_000
      ensures attempts == if !locked && ip in old(attempts) && old(attempts)[ip].failures >= 5
                          then old(attempts) - {ip} else old(attempts)
    {
      if ip !in attempts {
        return false;
      }
      var att := attempts[ip];
      if att.failures >= LOGIN_MAX_ATTEMPTS {
        if att.lockedAt.Some? && now - att.lockedAt.value < LOGIN_LOCKOUT {
          return true;
        }
        attempts := attempts - {ip};
      }
      return false;
    }

    method RecordFailure(ip: Ip, now: Time)
      modifies this`attempts
      ensures attempts == AfterFailure(old(attempts), ip, now)
      ensures attempts.Keys == old(attempts).Keys + {ip}
      ensures attempts[ip].failures == (if ip in old(attempts) then old(attempts)[ip].failures else 0) + 1
      ensures attempts[ip].failures >= 5 ==> attempts[ip].lockedAt == Some(now)
      ensures forall i :: i in old(attempts) && i != ip ==> attempts[i] == old(attempts)[i]
    {
      var att := Attempt(0, None);
      if ip in attempts {
        att := attempts[ip];
      }
      att := att.(failures := att.failures + 1);
      if att.failures >= LOGIN_MAX_ATTEMPTS {
        att := att.(lockedAt := Some(now));
      }
      attempts := attempts[ip := att];
    }

    method ClearFailures(ip: Ip)
      modifies this`attempts
      ensures attempts == old(attempts) - {ip}
    {
      attempts := attempts - {ip};
    }

    /**
     Login at clock readings t1 <= t2. `token` is the next random token, or None
     when the random source fails. Wrong credentials and a lock look alike.
     */
    method Login(ip: Ip, username: string, password: string, token: Option<Token>, t1: Time, t2: Time)
      returns (issued: Option<Token>)
      modifies this
      ensures var good := username == loginUsername && password == loginPassword;
              var locked := IsLockedOutNow(old(attempts), ip, t1);
              && issued == (if locked || !good then None else token)
              && attempts == (if locked then old(attempts)
                              else if good then old(attempts) - {ip}
                              else AfterFailure(AfterLockCheck(old(attempts), ip, t1), ip, t2))
              && sessions == (if issued.Some? then old(sessions)[issued.value := Session(username, t2)]
                              else old(sessions))
      ensures issued.Some? <==>
                && username == loginUsername && password == loginPassword && token.Some?
                && !(&& ip in old(attempts) && old(attempts)[ip].failures >= 5 && old(attempts)[ip].lockedAt.Some?
                     && t1 - old(attempts)[ip].lockedAt.value < 300_000_000_000)
    {
      var locked := IsLockedOut(ip, t1);
      if locked {
        return None;
      }
      var userOK := username == loginUsername;
      var passOK := password == loginPassword;
      if !userOK || !passOK {
        RecordFailure(ip, t2);
        return None;
      }
      ClearFailures(ip);
      if token.None? {
        return None;
      }
      sessions := sessions[token.value := Session(username, t2)];
      return token;
    }

    method Logout(token: Option<Token>)
      modifies this`sessions
      ensures sessions == if token.None? then old(sessions) else old(sessions) - {token.value}
    {
      if token.None? {
        return;
      }
      sessions := sessions - {token.value};
    }

    method IsSessionToken(token: Token, now: Time) returns (ok: bool)
      modifies this`sessions
      ensures ok == (token in old(sessions) && !Expired(old(sessions)[token].createdAt, now))
      ensures sessions == if ok then old(sessions) else old(sessions) - {token}
      ensures ok <==> token in old(sessions) && now - old(sessions)[token].createdAt <= 86_400_000_000_000
    {
      if token !in sessions {
        return false;
      }
      var entry := sessions[token];
      if now - entry.createdAt > SESSION_TTL {
        sessions := sessions - {token};
        return false;
      }
      return true;
    }

    /** One tick of the cleanup loop: it ranges over both maps, in any order, deleting as it goes. */
    method Cleanup(now: Time)
      modifies this
      ensures sessions == CleanSessions(old(sessions), now)
      ensures attempts == CleanAttempts(old(attempts), now)
      ensures forall tok :: tok in sessions <==>
                tok in old(sessions) && now - old(sessions)[tok].createdAt <= 86_400_000_000_000
      ensures forall ip :: ip in attempts <==>
                && ip in old(attempts) && old(attempts)[ip].lockedAt.Some?
                && (if old(attempts)[ip].failures >= 5 then now - old(attempts)[ip].lockedAt.value < 300_000_000_000
                    else now - old(attempts)[ip].lockedAt.value <= 300_000_000_000)
    {
      var tokens := sessions.Keys;
      while tokens != {}
        invariant tokens <= old(sessions).Keys
        invariant sessions == map tok | tok in old(sessions) &&
                    (tok in tokens || !Expired(old(sessions)[tok].createdAt, now)) :: old(sessions)[tok]
        invariant attempts == old(attempts)
        decreases tokens
      {
        Inhabited(tokens);
        var tok :| tok in tokens;
        if now - sessions[tok].createdAt > SESSION_TTL {
          sessions := sessions - {tok};
        }
        tokens := tokens - {tok};
      }
      var ips := attempts.Keys;
      while ips != {}
        invariant ips <= old(attempts).Keys
        invariant attempts == map ip | ip in old(attempts) &&
                    (ip in ips || !Stale(old(attempts)[ip], now)) :: old(attempts)[ip]
        invariant sessions == CleanSessions(old(sessions), now)
        decreases ips
      {
        Inhabited(ips);
        var ip :| ip in ips;
        var att := attempts[ip];
        if att.failures >= LOGIN_MAX_ATTEMPTS && Elapsed(now, att.lockedAt, LOGIN_LOCKOUT) {
          attempts := attempts - {ip};
        } else if att.failures < LOGIN_MAX_ATTEMPTS && (att.lockedAt.None? || now - att.lockedAt.value > LOGIN_LOCKOUT) {
          attempts := attempts - {ip};
        }
        ips := ips - {ip};
      }
    }
  }
}
