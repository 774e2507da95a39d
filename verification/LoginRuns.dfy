/** Whole runs of `Login` over the stored accounts and the login records, one login at a time: when a login
    goes through, when it is refused, and how many of a key can fail in any window. */
module LoginRuns {
  import opened Basics
  import opened Text
  import opened SessionCache
  import opened LoginLockout
  import opened Auth

  datatype Settings = Settings(ttl: int, sessionTtl: int, lockout: Config)

  /** One call of `Login`, and the user that the database finds if it is asked. */
  datatype Request = Request(identifier: string, ip: Option<string>, password: string, outside: Outside, token: Token,
                             found: Option<UserId>)

  datatype State = State(now: int, accounts: Accounts, rows: seq<Row>)

  /** `OtherWrite` is everything else that happens to users, sessions and cache. */
  datatype Step = Tick | OtherWrite(accounts: Accounts) | Login(request: Request, result: Result<UserId, LoginError>)

  datatype Run = Run(states: seq<State>, steps: seq<Step>)

  /** The promises of the method `Login`. */
  ghost predicate LoginStep(c: Settings, s: State, r: Request, result: Result<UserId, LoginError>, s': State) {
    && (r.found.Some? ==> r.found.value in s.accounts.users)
    && (LookedUp(result) ==> IsByEmail(s.accounts.users, Trim(r.identifier), r.found))
    && result == LoginChecked(s.accounts, c.lockout, s.rows, s.now, r.identifier, r.ip, r.password, r.outside, r.found)
    && s' == State(s.now, AfterLogin(s.accounts, c.ttl, c.sessionTtl, s.now, result, r.token),
                   RowsAfterLogin(c.lockout, s.rows, r.identifier, r.ip, r.password, result.Ok?, s.now))
  }

  ghost predicate Next(c: Settings, s: State, step: Step, s': State) {
    match step
    case Tick => s' == s.(now := s.now + 1)
    case OtherWrite(accounts) => s' == s.(accounts := accounts)
    case Login(request, result) => LoginStep(c, s, request, result, s')
  }

  ghost predicate NextAt(c: Settings, run: Run, i: nat)
    requires i < |run.steps| && i + 1 < |run.states|
  {
    Next(c, run.states[i], run.steps[i], run.states[i + 1])
  }

  ghost predicate IsRun(c: Settings, run: Run) {
    && |run.states| == |run.steps| + 1
    && run.states[0].rows == []
    && forall i :: 0 <= i < |run.steps| ==> NextAt(c, run, i)
  }

  /** Step `i` is a login with identifier and password. */
  predicate IsLogin(run: Run, i: nat)
    requires i < |run.steps|
  {
    run.steps[i].Login? && FieldsGiven(run.steps[i].request.identifier, run.steps[i].request.password)
  }

  lemma LoginAt(c: Settings, run: Run, i: nat)
    requires IsRun(c, run) && i < |run.steps| && run.steps[i].Login?
    ensures LoginStep(c, run.states[i], run.steps[i].request, run.steps[i].result, run.states[i + 1])
  {
    assert NextAt(c, run, i);
  }

  // ---------- The failures held against a login ----------

  predicate SameIdentifier(earlier: Request, r: Request) {
    Trim(earlier.identifier) == Trim(r.identifier)
  }

  predicate SameAddress(earlier: Request, r: Request) {
    NormalizeOptional(r.ip).Some? && NormalizeOptional(earlier.ip) == NormalizeOptional(r.ip)
  }

  predicate Shares(scope: Scope, earlier: Request, r: Request) {
    match scope
    case ByIdentifier => SameIdentifier(earlier, r)
    case ByIp => SameAddress(earlier, r)
    case ByIdentifierOrIp => SameIdentifier(earlier, r) || SameAddress(earlier, r)
  }

  /** Step `j` is a login that did not succeed, refused ones included, from `since` on. */
  predicate FailsSince(run: Run, j: nat, since: int)
    requires j < |run.steps| < |run.states|
  {
    IsLogin(run, j) && run.states[j].now >= since && run.steps[j].result.Err?
  }

  /** The logins before step `n` that failed since then and share with `r` what the scope counts. */
  function HeldAgainst(c: Settings, run: Run, n: nat, r: Request, since: int): set<nat>
    requires n <= |run.steps| < |run.states|
  {
    set j: nat | j < n && FailsSince(run, j, since) && Shares(c.lockout.scope, run.steps[j].request, r)
  }

  lemma SharesIsMatching(scope: Scope, earlier: Request, r: Request, succeeded: bool, at: int)
    ensures Matches(scope, Row(Trim(earlier.identifier), StoredIp(NormalizeOptional(earlier.ip)), succeeded, at),
                    Trim(r.identifier), NormalizeOptional(r.ip))
            <==> Shares(scope, earlier, r)
  {
  }

  lemma OneMoreHeld(c: Settings, run: Run, n: nat, r: Request, since: int)
    requires n < |run.steps| < |run.states|
    ensures var held := FailsSince(run, n, since) && Shares(c.lockout.scope, run.steps[n].request, r);
            |HeldAgainst(c, run, n + 1, r, since)| == |HeldAgainst(c, run, n, r, since)| + (if held then 1 else 0)
  {
    var held := FailsSince(run, n, since) && Shares(c.lockout.scope, run.steps[n].request, r);
    assert HeldAgainst(c, run, n + 1, r, since) - {n} == HeldAgainst(c, run, n, r, since);
    WithoutOne(HeldAgainst(c, run, n + 1, r, since), n);
    assert n in HeldAgainst(c, run, n + 1, r, since) <==> held;
  }

  /** What the count of a login like `r` sees before step `n`. */
  function CountSeen(c: Settings, run: Run, n: nat, r: Request, since: int): nat
    requires n < |run.states|
  {
    CountRecentFailed(run.states[n].rows, c.lockout.scope, Trim(r.identifier), NormalizeOptional(r.ip), since)
  }

  lemma OneMoreCounted(c: Settings, run: Run, n: nat, r: Request, since: int)
    requires IsRun(c, run) && n < |run.steps| && c.lockout.enabled
    ensures CountSeen(c, run, n + 1, r, since)
         == CountSeen(c, run, n, r, since)
            + (if FailsSince(run, n, since) && Shares(c.lockout.scope, run.steps[n].request, r) then 1 else 0)
  {
    assert NextAt(c, run, n);
    if IsLogin(run, n) {
      var q, ok := run.steps[n].request, run.steps[n].result.Ok?;
      SharesIsMatching(c.lockout.scope, q, r, ok, run.states[n].now);
      CountMore(run.states[n].rows, Row(Trim(q.identifier), StoredIp(NormalizeOptional(q.ip)), ok, run.states[n].now),
                c.lockout.scope, Trim(r.identifier), NormalizeOptional(r.ip), since);
    }
  }

  lemma NothingCounted(c: Settings, run: Run, r: Request, since: int)
    requires IsRun(c, run)
    ensures CountSeen(c, run, 0, r, since) == 0 && HeldAgainst(c, run, 0, r, since) == {}
  {
  }

  /** The count over the rows is the number of these logins. */
  lemma {:induction false} RowsCountFailures(c: Settings, run: Run, n: nat, r: Request, since: int)
    requires IsRun(c, run) && n <= |run.steps| && c.lockout.enabled
    ensures CountSeen(c, run, n, r, since) == |HeldAgainst(c, run, n, r, since)|
  {
    if n == 0 {
      NothingCounted(c, run, r, since);
    } else {
      RowsCountFailures(c, run, n - 1, r, since);
      OneMoreHeld(c, run, n - 1, r, since);
      OneMoreCounted(c, run, n - 1, r, since);
    }
  }

  /** Nothing is recorded while the lockout is off. */
  lemma {:induction false} OffRecordsNothing(c: Settings, run: Run, i: nat)
    requires IsRun(c, run) && i < |run.states| && !c.lockout.enabled
    ensures run.states[i].rows == []
  {
    if i > 0 {
      OffRecordsNothing(c, run, i - 1);
      assert NextAt(c, run, i - 1);
    }
  }

  // ---------- When a login goes through ----------

  /** The lockout is on, and as many failures as it allows are held against the login of step `i`. */
  predicate LockedOut(c: Settings, run: Run, i: nat)
    requires i < |run.steps| < |run.states| && run.steps[i].Login?
  {
    && c.lockout.enabled && c.lockout.maxAttempts > 0 && c.lockout.window > 0
    && |HeldAgainst(c, run, i, run.steps[i].request, run.states[i].now - c.lockout.window)| >= c.lockout.maxAttempts
  }

  /** A login past the field checks is refused for too many attempts exactly when it is locked out. */
  lemma LockedOutExactly(c: Settings, run: Run, i: nat)
    requires IsRun(c, run) && i < |run.steps| && run.steps[i].Login?
    ensures run.steps[i].result == Err(TooManyAttempts) <==> IsLogin(run, i) && LockedOut(c, run, i)
  {
    LoginAt(c, run, i);
    if c.lockout.enabled {
      RowsCountFailures(c, run, i, run.steps[i].request, run.states[i].now - c.lockout.window);
    }
  }

  /** A login succeeds exactly when both fields are given, it is not locked out, the database finds a user by the
      email, that user is active and has a password hash that accepts the trimmed password, and a session
      can be stored. */
  lemma LoginExact(c: Settings, run: Run, i: nat)
    requires IsRun(c, run) && i < |run.steps| && run.steps[i].Login?
    ensures run.steps[i].request.found.Some? ==> run.steps[i].request.found.value in run.states[i].accounts.users
    ensures var r, users := run.steps[i].request, run.states[i].accounts.users;
            run.steps[i].result.Ok? <==>
              && Trim(r.identifier) != "" && Trim(r.password) != "" && !LockedOut(c, run, i)
              && r.found.Some? && users[r.found.value].active && users[r.found.value].passwordHash.Some?
              && r.outside.compare(users[r.found.value].passwordHash.value, Trim(r.password))
              && r.outside.sessionWorks
    ensures var r, users := run.steps[i].request, run.states[i].accounts.users;
            run.steps[i].result.Ok? ==>
              && run.steps[i].result.value == r.found.value && users[r.found.value].email.Some?
              && Lower(users[r.found.value].email.value) == Lower(Trim(r.identifier))
  {
    LoginAt(c, run, i);
    LockedOutExactly(c, run, i);
  }

  /** Which of the other refusals a login meets. Unknown users and wrong passwords are told apart by nothing. */
  lemma RefusalsExact(c: Settings, run: Run, i: nat)
    requires IsRun(c, run) && i < |run.steps| && run.steps[i].Login?
    ensures run.steps[i].request.found.Some? ==> run.steps[i].request.found.value in run.states[i].accounts.users
    ensures var r, users, result := run.steps[i].request, run.states[i].accounts.users, run.steps[i].result;
            var checked := IsLogin(run, i) && !LockedOut(c, run, i);
            && (result == Err(InvalidFields) <==> !IsLogin(run, i))
            && (result == Err(Disabled) <==> checked && r.found.Some? && !users[r.found.value].active)
            && (result == Err(NoPassword) <==>
                  checked && r.found.Some? && users[r.found.value].active && users[r.found.value].passwordHash.None?)
            && (result == Err(WrongCredentials) <==>
                  && checked
                  && (r.found.Some? ==>
                        && users[r.found.value].active && users[r.found.value].passwordHash.Some?
                        && !r.outside.compare(users[r.found.value].passwordHash.value, Trim(r.password))))
            && (checked && r.found.None? ==>
                  forall id :: id in users && users[id].email.Some? ==>
                    Lower(users[id].email.value) != Lower(Trim(r.identifier)))
  {
    LoginAt(c, run, i);
    LockedOutExactly(c, run, i);
  }

  /** A login that succeeds stores a session of that user, which ends after the session lifetime if there is one,
      and at once the token is answered with user and session. Any other login changes no account. */
  lemma LoginOpensSession(c: Settings, run: Run, i: nat)
    requires IsRun(c, run) && i < |run.steps| && run.steps[i].Login?
    ensures run.steps[i].request.found.Some? ==> run.steps[i].request.found.value in run.states[i].accounts.users
    ensures run.steps[i].result.Err? ==> run.states[i + 1].accounts == run.states[i].accounts
    ensures run.steps[i].result.Ok? ==> run.steps[i].result.value in run.states[i].accounts.users
    ensures var token, now := run.steps[i].request.token, run.states[i].now;
            var a, a' := run.states[i].accounts, run.states[i + 1].accounts;
            run.steps[i].result.Ok? ==>
              && var user := run.steps[i].result.value;
              var session := Session(user, if c.sessionTtl > 0 then Some(now + c.sessionTtl) else None);
              && a'.users == a.users && a'.sessions == a.sessions[token := session]
              && (Trim(token) == token != "" ==>
                    Answer(a', now, token) == Some(Identity(a.users[user], session)))
  {
    LoginAt(c, run, i);
    LoginExact(c, run, i);
  }

  // ---------- The history of a run ----------

  /** The login of step `i` as the lockout sees it. */
  function LoginOf(run: Run, i: nat): LoginLockout.Login
    requires i < |run.steps| < |run.states| && run.steps[i].Login?
  {
    var r, now, result := run.steps[i].request, run.states[i].now, run.steps[i].result;
    LoginLockout.Login(Trim(r.identifier), NormalizeOptional(r.ip), now, now, result != Err(TooManyAttempts),
                       result.Ok?)
  }

  function History(run: Run, n: nat): seq<LoginLockout.Login>
    requires n <= |run.steps| < |run.states|
  {
    if n == 0 then []
    else if IsLogin(run, n - 1) then History(run, n - 1) + [LoginOf(run, n - 1)]
    else History(run, n - 1)
  }

  lemma SequentialAppend(c: Config, logins: seq<LoginLockout.Login>, l: LoginLockout.Login)
    requires Sequential(c, logins) && Consistent(c, logins + [l], |logins|)
    requires logins != [] ==> logins[|logins| - 1].recordedAt <= l.checkedAt
    ensures Sequential(c, logins + [l])
  {
    var all := logins + [l];
    forall i | 0 <= i < |all| ensures Consistent(c, all, i) {
      if i < |logins| {
        assert Consistent(c, logins, i) && all[..i] == logins[..i];
      }
    }
  }

  lemma NormalizedIsClean(ip: Option<string>)
    ensures NormalizeOptional(ip).Some? ==>
              Trim(NormalizeOptional(ip).value) == NormalizeOptional(ip).value != ""
  {
    if ip.Some? {
      TrimIdempotent(ip.value);
    }
  }

  lemma {:induction false} LoginIsConsistent(c: Settings, run: Run, i: nat, logins: seq<LoginLockout.Login>)
    requires i < |run.steps| < |run.states| && IsLogin(run, i)
    requires IsRun(c, run) && run.states[i].rows == RowsOf(c.lockout, logins)
    ensures Consistent(c.lockout, logins + [LoginOf(run, i)], |logins|)
  {
    var r := run.steps[i].request;
    LoginAt(c, run, i);
    TrimIdempotent(r.identifier);
    NormalizedIsClean(r.ip);
    assert (logins + [LoginOf(run, i)])[..|logins|] == logins;
  }

  lemma {:induction false} LoginIsRecorded(c: Settings, run: Run, i: nat, logins: seq<LoginLockout.Login>)
    requires IsRun(c, run) && i < |run.steps| && IsLogin(run, i)
    requires run.states[i].rows == RowsOf(c.lockout, logins)
    ensures run.states[i + 1].rows == RowsOf(c.lockout, logins + [LoginOf(run, i)])
  {
    LoginAt(c, run, i);
    assert (logins + [LoginOf(run, i)])[..|logins|] == logins;
  }

  /** The calls of `Login` are a sequential history, and the rows are its rows. */
  lemma {:induction false} HistoryIsSequential(c: Settings, run: Run, n: nat)
    requires IsRun(c, run) && n <= |run.steps|
    ensures var logins := History(run, n);
            && Sequential(c.lockout, logins) && run.states[n].rows == RowsOf(c.lockout, logins)
            && (logins != [] ==> logins[|logins| - 1].recordedAt <= run.states[n].now)
  {
    if n > 0 {
      HistoryIsSequential(c, run, n - 1);
      assert NextAt(c, run, n - 1);
      if IsLogin(run, n - 1) {
        var logins := History(run, n - 1);
        LoginIsConsistent(c, run, n - 1, logins);
        LoginIsRecorded(c, run, n - 1, logins);
        SequentialAppend(c.lockout, logins, LoginOf(run, n - 1));
      }
    }
  }

  // ---------- The bound on the calls of Login ----------

  predicate MeantBy(key: Key, r: Request) {
    match key
    case Identifier(identifier) => Trim(r.identifier) == identifier
    case Address(ip) => NormalizeOptional(r.ip) == Some(ip)
    case Account(name) => Lower(Trim(r.identifier)) == Lower(name)
  }

  /** Step `i` is a login of the key in [t - window, t] that is let through and fails. */
  predicate FailsIn(c: Settings, run: Run, i: nat, key: Key, t: int)
    requires i < |run.steps| < |run.states|
  {
    && IsLogin(run, i) && MeantBy(key, run.steps[i].request) && t - c.lockout.window <= run.states[i].now <= t
    && run.steps[i].result.Err? && run.steps[i].result != Err(TooManyAttempts)
  }

  function FailingSteps(c: Settings, run: Run, n: nat, key: Key, t: int): set<nat>
    requires n <= |run.steps| < |run.states|
  {
    set i: nat | i < n && FailsIn(c, run, i, key, t)
  }

  lemma OneMoreFailing(c: Settings, run: Run, n: nat, key: Key, t: int)
    requires n < |run.steps| < |run.states|
    ensures |FailingSteps(c, run, n + 1, key, t)|
         == |FailingSteps(c, run, n, key, t)| + (if FailsIn(c, run, n, key, t) then 1 else 0)
  {
    assert FailingSteps(c, run, n + 1, key, t) - {n} == FailingSteps(c, run, n, key, t);
    WithoutOne(FailingSteps(c, run, n + 1, key, t), n);
  }

  lemma OneMoreInHistory(c: Settings, run: Run, n: nat, key: Key, t: int)
    requires n < |run.steps| < |run.states|
    ensures FailuresIn(c.lockout, key, History(run, n + 1), t)
         == FailuresIn(c.lockout, key, History(run, n), t) + (if FailsIn(c, run, n, key, t) then 1 else 0)
  {
    if IsLogin(run, n) {
      FailuresInMore(c.lockout, key, History(run, n), LoginOf(run, n), t);
    }
  }

  lemma NoneFailingYet(c: Settings, run: Run, key: Key, t: int)
    requires |run.steps| < |run.states|
    ensures FailuresIn(c.lockout, key, History(run, 0), t) == 0 && FailingSteps(c, run, 0, key, t) == {}
  {
  }

  lemma {:induction false} HistoryCountsSteps(c: Settings, run: Run, n: nat, key: Key, t: int)
    requires n <= |run.steps| < |run.states|
    ensures FailuresIn(c.lockout, key, History(run, n), t) == |FailingSteps(c, run, n, key, t)|
  {
    if n == 0 {
      NoneFailingYet(c, run, key, t);
    } else {
      HistoryCountsSteps(c, run, n - 1, key, t);
      OneMoreInHistory(c, run, n - 1, key, t);
      OneMoreFailing(c, run, n - 1, key, t);
    }
  }

  /** In every run, every interval [t - window, t] holds at most `maxAttempts` calls of `Login` for one key that
      are let through and fail, under the scopes that count the key. */
  lemma LoginsAreBounded(c: Settings, run: Run, key: Key, t: int)
    requires IsRun(c, run) && CountedUnder(key, c.lockout.scope)
    requires c.lockout.enabled && c.lockout.maxAttempts > 0 && c.lockout.window > 0
    ensures |FailingSteps(c, run, |run.steps|, key, t)| <= c.lockout.maxAttempts
  {
    HistoryIsSequential(c, run, |run.steps|);
    LockoutBound(c.lockout, key, History(run, |run.steps|), t);
    HistoryCountsSteps(c, run, |run.steps|, key, t);
  }
}
