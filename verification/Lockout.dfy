/** Password authentication with a failure counter and a lockout period. Whether a password
    matches, and the clock, are parameters. */
module Lockout {

  datatype Policy = Policy(maxAttempts: int, duration: int)

  datatype User = User(active: bool, failedAttempts: int, lockedUntil: int, lastLoginAt: int)

  datatype Status = Success | Failure | LockedOut

  datatype AuthResult = AuthResult(status: Status, known: bool, reason: string, lockedUntil: int)

  // ---------------------------------------------------------------- one attempt

  function RecordFailure(p: Policy, u: User, now: int): (User, AuthResult) {
    var n := u.failedAttempts + 1;
    if n >= p.maxAttempts then
      (u.(failedAttempts := n, lockedUntil := now + p.duration),
       AuthResult(LockedOut, true, "max attempts exceeded", now + p.duration))
    else (u.(failedAttempts := n), AuthResult(Failure, true, "bad password", 0))
  }

  function Authenticated(p: Policy, u: User, now: int, matches: bool): (User, AuthResult) {
    if u.lockedUntil > now then (u, AuthResult(LockedOut, true, "account locked", u.lockedUntil))
    else if !u.active then (u, AuthResult(Failure, true, "account disabled", 0))
    else if !matches then RecordFailure(p, u, now)
    else (u.(failedAttempts := 0, lockedUntil := 0, lastLoginAt := now), AuthResult(Success, true, "ok", 0))
  }

  /** The attempt got as far as comparing the password, and it was wrong. */
  predicate FailedCheck(u: User, now: int, matches: bool) {
    u.lockedUntil <= now && u.active && !matches
  }

  // ---------------------------------------------------------------- runs on one account

  /** The calls that compare a password with the stored one, and the reset, which does not.
      Only authenticate looks at the lock. */
  datatype Kind = Login | Verify | Change | Reset

  datatype Call = Call(kind: Kind, now: int, matches: bool)

  function Cleared(u: User): User {
    u.(failedAttempts := 0, lockedUntil := 0)
  }

  function Called(p: Policy, u: User, call: Call): User {
    match call.kind
    case Login => Authenticated(p, u, call.now, call.matches).0
    case Verify => u
    case Change => if call.matches then Cleared(u) else u
    case Reset => Cleared(u)
  }

  /** The user before call i. */
  function Before(p: Policy, u: User, run: seq<Call>, i: nat): User
    requires i <= |run|
  {
    if i == 0 then u else Called(p, Before(p, u, run, i - 1), run[i - 1])
  }

  predicate FailedLogin(u: User, call: Call) {
    call.kind == Login && FailedCheck(u, call.now, call.matches)
  }

  /** The indices of the calls of authenticate that are failed password checks, in order. */
  function FailedChecks(p: Policy, u: User, run: seq<Call>, n: nat): (r: seq<nat>)
    requires n <= |run|
    ensures forall k | 0 <= k < |r| :: r[k] < n
  {
    if n == 0 then []
    else FailedChecks(p, u, run, n - 1) + if FailedLogin(Before(p, u, run, n - 1), run[n - 1]) then [n - 1] else []
  }

  ghost predicate Monotone(run: seq<Call>) {
    forall i, j | 0 <= i < j < |run| :: run[i].now <= run[j].now
  }

  /** Wrong passwords only, and no reset. */
  ghost predicate NeverMatches(run: seq<Call>) {
    forall i | 0 <= i < |run| :: !run[i].matches && run[i].kind != Reset
  }

  function Threshold(p: Policy): nat {
    if p.maxAttempts < 1 then 1 else p.maxAttempts
  }

  /** The account counts the failed checks of authenticate, and from the threshold on it is locked for the
      full duration after the last one. */
  lemma {:induction false} AccountState(p: Policy, u: User, run: seq<Call>, n: nat)
    requires n <= |run| && NeverMatches(run) && u.failedAttempts == 0 && u.lockedUntil == 0
    ensures var b, f := Before(p, u, run, n), FailedChecks(p, u, run, n);
            && b.failedAttempts == |f|
            && (|f| >= Threshold(p) ==> b.lockedUntil == run[f[|f| - 1]].now + p.duration)
  {
    if n > 0 {
      AccountState(p, u, run, n - 1);
    }
  }

  /** Counted from one, failed check k + 1 of an account comes no earlier than the lockout
      duration after failed check k, once k has reached the threshold. */
  lemma {:induction false} NextFailureWaits(p: Policy, u: User, run: seq<Call>, n: nat, k: nat)
    requires n <= |run| && NeverMatches(run) && u.failedAttempts == 0 && u.lockedUntil == 0
    requires Threshold(p) <= k < |FailedChecks(p, u, run, n)|
    ensures var f := FailedChecks(p, u, run, n);
            run[f[k]].now >= run[f[k - 1]].now + p.duration
  {
    var g := FailedChecks(p, u, run, n - 1);
    if k < |g| {
      NextFailureWaits(p, u, run, n - 1, k);
    } else {
      AccountState(p, u, run, n - 1);
    }
  }

  /** In any run of wrong passwords on one account, failed check k comes at least
      (k - threshold) lockout durations after the failed check that first locked it. */
  lemma {:induction false} LockoutBound(p: Policy, u: User, run: seq<Call>, k: nat)
    requires NeverMatches(run) && u.failedAttempts == 0 && u.lockedUntil == 0
    requires Threshold(p) <= k <= |FailedChecks(p, u, run, |run|)|
    ensures var f := FailedChecks(p, u, run, |run|);
            run[f[k - 1]].now >= run[f[Threshold(p) - 1]].now + (k - Threshold(p)) * p.duration
    decreases k
  {
    if k > Threshold(p) {
      LockoutBound(p, u, run, k - 1);
      NextFailureWaits(p, u, run, |run|, k - 1);
      assert (k - Threshold(p)) * p.duration == (k - 1 - Threshold(p)) * p.duration + p.duration;
    }
  }

  /** So within a window of time authenticate compares only so many passwords: up to the
      threshold, and then one per lockout duration. */
  lemma GuessesInWindow(p: Policy, u: User, run: seq<Call>, window: nat)
    requires NeverMatches(run) && Monotone(run) && u.failedAttempts == 0 && u.lockedUntil == 0
    requires run != [] && run[|run| - 1].now <= run[0].now + window
    ensures var n := |FailedChecks(p, u, run, |run|)|;
            n <= Threshold(p) || (n - Threshold(p)) * p.duration <= window
  {
    var f := FailedChecks(p, u, run, |run|);
    var t := Threshold(p);
    if |f| > t {
      LockoutBound(p, u, run, |f|);
      assert run[f[|f| - 1]].now <= run[|run| - 1].now && run[f[t - 1]].now >= run[0].now;
    }
  }

  // ---------------------------------------------------------------- what a login answers

  /** A login succeeds exactly with the right password, on an active account, outside the lock;
      then nothing is left of earlier failures. A locked account refuses the right password too. */
  lemma SucceedsExactly(p: Policy, u: User, now: int, matches: bool)
    ensures var (u', r) := Authenticated(p, u, now, matches);
            && (r.status == Success <==> matches && u.active && u.lockedUntil <= now)
            && (r.status == Success ==> u'.failedAttempts == 0 && u'.lockedUntil == 0 && u'.lastLoginAt == now)
            && (u.lockedUntil > now ==> r.status == LockedOut && r.lockedUntil == u.lockedUntil && u' == u)
            && (!FailedCheck(u, now, matches) && r.status != Success ==> u' == u)
  {
  }

  /** The call comes before the lock ends, and is neither a reset nor a password change. */
  predicate LeavesLock(call: Call, lockedUntil: int) {
    match call.kind
    case Login => call.now < lockedUntil
    case Verify => true
    case Change => !call.matches
    case Reset => false
  }

  /** Nothing but the end of the lock, a reset, or a password change lifts it: until then every
      login is locked out, whatever its password, and the account does not change. */
  lemma {:induction false} LockHolds(p: Policy, u: User, run: seq<Call>, i: nat, j: nat)
    requires i <= j <= |run|
    requires forall k | i <= k < j :: LeavesLock(run[k], Before(p, u, run, i).lockedUntil)
    ensures Before(p, u, run, j) == Before(p, u, run, i)
    ensures j < |run| && run[j].kind == Login && run[j].now < Before(p, u, run, i).lockedUntil ==>
              Authenticated(p, Before(p, u, run, j), run[j].now, run[j].matches).1.status == LockedOut
    decreases j
  {
    if i < j {
      LockHolds(p, u, run, i, j - 1);
    }
  }

  /** A failed check at the threshold locks the account for the full duration from then on. */
  lemma FailureLocks(p: Policy, u: User, now: int)
    requires FailedCheck(u, now, false)
    ensures var (u', r) := Authenticated(p, u, now, false);
            && u'.failedAttempts == u.failedAttempts + 1
            && (u'.failedAttempts >= p.maxAttempts ==> u'.lockedUntil == now + p.duration && r.status == LockedOut)
            && (u'.failedAttempts < p.maxAttempts ==> u'.lockedUntil == u.lockedUntil && r.status == Failure)
  {
  }

  // ---------------------------------------------------------------- calls that ignore the lock

  /** The call compares a password with the stored one. */
  predicate Compares(u: User, call: Call) {
    match call.kind
    case Login => u.lockedUntil <= call.now && u.active
    case Verify => true
    case Change => true
    case Reset => false
  }

  /** How many passwords the first n calls compare. */
  function Compared(p: Policy, u: User, run: seq<Call>, n: nat): nat
    requires n <= |run|
  {
    if n == 0 then 0 else Compared(p, u, run, n - 1) + if Compares(Before(p, u, run, n - 1), run[n - 1]) then 1 else 0
  }

  function Logins(run: seq<Call>): seq<Call> {
    if run == [] then []
    else Logins(run[..|run| - 1]) + if run[|run| - 1].kind == Login then [run[|run| - 1]] else []
  }

  lemma {:induction false} SamePrefix(p: Policy, u: User, a: seq<Call>, b: seq<Call>, n: nat)
    requires n <= |a| && n <= |b| && a[..n] == b[..n]
    ensures Before(p, u, a, n) == Before(p, u, b, n) && |FailedChecks(p, u, a, n)| == |FailedChecks(p, u, b, n)|
    ensures Compared(p, u, a, n) == Compared(p, u, b, n)
  {
    if n > 0 {
      assert a[..n][..n - 1] == a[..n - 1] && b[..n][..n - 1] == b[..n - 1];
      assert a[n - 1] == a[..n][n - 1] == b[n - 1];
      SamePrefix(p, u, a, b, n - 1);
      hide Called, Compares, FailedCheck;
    }
  }

  /** Wrong passwords given to the calls other than authenticate leave no trace on the account,
      and the lock does not stop a single one of them: a run compares one password for each
      failed check of authenticate, and one for each of the other calls. */
  lemma {:induction false} OtherCallsAreFree(p: Policy, u: User, run: seq<Call>)
    requires NeverMatches(run)
    ensures var n, logins := |run|, Logins(run);
            && Before(p, u, run, n) == Before(p, u, logins, |logins|)
            && |FailedChecks(p, u, run, n)| == |FailedChecks(p, u, logins, |logins|)|
            && Compared(p, u, run, n) == |FailedChecks(p, u, run, n)| + (n - |logins|)
  {
    hide Called, FailedLogin, Compares, Before, FailedChecks, Compared;
    if run == [] {
      NoCalls(p, u);
    } else {
      var n := |run| - 1;
      var rest, logins := Logins(run[..n]), Logins(run);
      OtherCallsAreFree(p, u, run[..n]);
      SamePrefix(p, u, run, run[..n], n);
      OneCall(p, u, run, n);
      CallIsFree(p, Before(p, u, run, n), run[n]);
      if run[n].kind == Login {
        assert logins == rest + [run[n]] && logins[..|rest|] == rest;
        SamePrefix(p, u, logins, rest, |rest|);
        OneCall(p, u, logins, |rest|);
      } else {
        assert logins == rest;
      }
    }
  }

  lemma NoCalls(p: Policy, u: User)
    ensures Before(p, u, [], 0) == u && FailedChecks(p, u, [], 0) == [] && Compared(p, u, [], 0) == 0
  {
  }

  lemma OneCall(p: Policy, u: User, run: seq<Call>, n: nat)
    requires n < |run|
    ensures var before := Before(p, u, run, n);
            && Before(p, u, run, n + 1) == Called(p, before, run[n])
            && |FailedChecks(p, u, run, n + 1)| == |FailedChecks(p, u, run, n)| + (if FailedLogin(before, run[n]) then 1 else 0)
            && Compared(p, u, run, n + 1) == Compared(p, u, run, n) + (if Compares(before, run[n]) then 1 else 0)
  {
  }

  lemma CallIsFree(p: Policy, u: User, call: Call)
    requires !call.matches && call.kind != Reset
    ensures Compares(u, call) <==> FailedLogin(u, call) || call.kind != Login
    ensures call.kind != Login ==> Called(p, u, call) == u && !FailedLogin(u, call)
  {
  }

  /** So no policy bounds the other calls: a single moment admits any number of them, on a
      locked account too. */
  lemma OtherCallsAreUnbounded(p: Policy, u: User, now: int, n: nat)
    ensures exists run: seq<Call> ::
      && |run| == n && NeverMatches(run) && Monotone(run) && (forall i | 0 <= i < n :: run[i].now == now)
      && Compared(p, u, run, n) == n && Before(p, u, run, n) == u
  {
    var run := seq(n, _ => Call(Verify, now, false));
    OtherCallsAreFree(p, u, run);
    NoLogins(run);
    assert Compared(p, u, run, n) == n && Before(p, u, run, n) == u;
  }

  lemma {:induction false} NoLogins(run: seq<Call>)
    requires forall i | 0 <= i < |run| :: run[i].kind != Login
    ensures Logins(run) == []
  {
    if run != [] { NoLogins(run[..|run| - 1]); }
  }

  // ---------------------------------------------------------------- the class

  class UserAuthenticator {
    var usersById: map<string, User>
    var usersByName: map<string, string>
    const policy: Policy

    ghost predicate Valid()
      reads this
    {
      forall name | name in usersByName :: usersByName[name] in usersById
    }

    constructor (policy: Policy)
      ensures this.policy == policy && Valid() && usersById == map[] && usersByName == map[]
    {
      this.policy, usersById, usersByName := policy, map[], map[];
    }

    /** Authenticates a normalized username; matches says whether the password is right. */
    method Authenticate(username: string, now: int, matches: bool) returns (r: AuthResult)
      requires Valid()
      modifies this`usersById
      ensures Valid()
      ensures username !in usersByName ==>
                r == AuthResult(Failure, false, "unknown user", 0) && usersById == old(usersById)
      ensures username in usersByName ==>
                var uid := usersByName[username];
                var (u, result) := Authenticated(policy, old(usersById)[uid], now, matches);
                r == result && usersById == old(usersById)[uid := u]
    {
      if username !in usersByName { return AuthResult(Failure, false, "unknown user", 0); }
      var uid := usersByName[username];
      var u := usersById[uid];
      if u.lockedUntil > now {
        assert usersById[uid := u] == usersById;
        return AuthResult(LockedOut, true, "account locked", u.lockedUntil);
      }
      if !u.active {
        assert usersById[uid := u] == usersById;
        return AuthResult(Failure, true, "account disabled", 0);
      }
      if !matches {
        r := Fail(uid, now);
        return;
      }
      usersById := usersById[uid := u.(failedAttempts := 0, lockedUntil := 0, lastLoginAt := now)];
      r := AuthResult(Success, true, "ok", 0);
    }

    /** Compares a password, locked or not. */
    method VerifyCredentials(uid: string, matches: bool) returns (ok: bool)
      ensures ok == (uid in usersById && matches)
    {
      if uid !in usersById { return false; }
      ok := matches;
    }

    /** Changes a password after comparing the current one, locked or not. */
    method ChangePassword(uid: string, now: int, matches: bool) returns (ok: bool)
      modifies this`usersById
      ensures ok == (uid in old(usersById) && matches)
      ensures usersById == if uid !in old(usersById) then old(usersById)
                           else old(usersById)[uid := Called(policy, old(usersById)[uid], Call(Change, now, matches))]
    {
      if uid !in usersById { return false; }
      var u := usersById[uid];
      if !matches {
        assert usersById[uid := u] == usersById;
        return false;
      }
      usersById := usersById[uid := u.(failedAttempts := 0, lockedUntil := 0)];
      ok := true;
    }

    method ResetPassword(uid: string, now: int) returns (ok: bool)
      modifies this`usersById
      ensures ok == (uid in old(usersById))
      ensures usersById == if uid !in old(usersById) then old(usersById)
                           else old(usersById)[uid := Called(policy, old(usersById)[uid], Call(Reset, now, false))]
    {
      if uid !in usersById { return false; }
      usersById := usersById[uid := usersById[uid].(failedAttempts := 0, lockedUntil := 0)];
      ok := true;
    }

    method Fail(uid: string, now: int) returns (r: AuthResult)
      requires uid in usersById
      modifies this`usersById
      ensures var (u, result) := RecordFailure(policy, old(usersById)[uid], now);
              r == result && usersById == old(usersById)[uid := u]
    {
      var u := usersById[uid];
      u := u.(failedAttempts := u.failedAttempts + 1);
      if u.failedAttempts >= policy.maxAttempts {
        u := u.(lockedUntil := now + policy.duration);
        usersById := usersById[uid := u];
        return AuthResult(LockedOut, true, "max attempts exceeded", u.lockedUntil);
      }
      usersById := usersById[uid := u];
      r := AuthResult(Failure, true, "bad password", 0);
    }
  }
}
