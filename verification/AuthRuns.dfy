/** Whole runs of the session system, one operation at a time. Tokens are never reused. */
module AuthRuns {
  import opened Basics
  import opened Text
  import opened SessionCache
  import opened Auth

  datatype Config = Config(ttl: int, sessionTtl: int)

  datatype State = State(now: int, accounts: Accounts, issued: set<Token>)

  /** `WriteUser` is every write of a user row that does not touch the cache: an administrator's
      edit or deactivation, a password reset, a linked Google account. `OpenSession` ends every kind of
      login and the registration. */
  datatype Step =
    | Tick
    | Evict
    | WriteUser(id: UserId, user: User)
    | OpenSession(id: UserId, token: Token)
    | Authenticate(given: string)
    | Logout(given: string)
    | UpdateProfile(id: UserId, user: User, given: string)
    | ChangePassword(id: string, current: Option<string>, newPassword: string, compare: (string, string) -> bool,
                     hash: string -> Option<string>, given: string)

  datatype Run = Run(states: seq<State>, steps: seq<Step>)

  /** The token a profile update comes with is one of the same user, as the handler ensures. */
  predicate OwnToken(a: Accounts, id: UserId, given: string) {
    Trim(given) in a.sessions ==> a.sessions[Trim(given)].userId == id
  }

  ghost predicate Next(c: Config, s: State, step: Step, s': State) {
    var a := s.accounts;
    match step
    case Tick => s' == s.(now := s.now + 1)
    case Evict => s' == s.(accounts := a.(items := AfterEviction(a.items, s.now)))
    case WriteUser(id, user) => s' == s.(accounts := WithUser(a, id, user))
    case OpenSession(id, token) =>
      && id in a.users && a.users[id].active && token !in s.issued && Trim(token) == token != ""
      && s' == State(s.now, Opened(a, c.ttl, c.sessionTtl, s.now, id, token), s.issued + {token})
    case Authenticate(given) => s' == s.(accounts := AfterAuthenticate(a, c.ttl, s.now, given))
    case Logout(given) => s' == s.(accounts := AfterLogout(a, given))
    case UpdateProfile(id, user, given) =>
      && OwnToken(a, id, given)
      && s' == s.(accounts := AfterUpdateProfile(a, c.ttl, s.now, id, user, given))
    case ChangePassword(id, current, newPassword, compare, hash, given) =>
      s' == s.(accounts := AfterPasswordChange(a, id, current, newPassword, compare, hash, given))
  }

  ghost predicate IsRun(c: Config, run: Run) {
    && |run.states| == |run.steps| + 1
    && run.states[0].accounts == Accounts(map[], map[], map[]) && run.states[0].issued == {}
    && forall i :: 0 <= i < |run.steps| ==> Next(c, run.states[i], run.steps[i], run.states[i + 1])
  }

  lemma {:induction false} ClockOnlyMovesOn(c: Config, run: Run, i: nat, j: nat)
    requires IsRun(c, run) && i <= j < |run.states|
    ensures run.states[i].now <= run.states[j].now
  {
    if i < j {
      ClockOnlyMovesOn(c, run, i, j - 1);
      assert Next(c, run.states[j - 1], run.steps[j - 1], run.states[j]);
    }
  }

  // ---------- What the cache holds ----------

  /** The entry holds the identity stored in `s`, and lasts for at most the cache lifetime from
      then and no longer than the session. */
  predicate Vouches(c: Config, s: State, token: Token, e: Entry) {
    && StoredIdentity(s.accounts, token) == Some(e.identity)
    && e.expiresAt.Some? && e.expiresAt.value <= s.now + c.ttl
    && (e.identity.session.expiresAt.Some? ==> e.expiresAt.value <= e.identity.session.expiresAt.value)
  }

  /** Cached tokens are stored ones, with the stored session. */
  ghost predicate SessionsAgree(s: State) {
    && s.accounts.sessions.Keys <= s.issued
    && (forall t :: t in s.accounts.sessions ==> s.accounts.sessions[t].userId in s.accounts.users)
    && forall t :: t in s.accounts.items ==>
         t in s.accounts.sessions && s.accounts.items[t].identity.session == s.accounts.sessions[t]
  }

  /** Every entry after a step was there before or holds what is stored now. */
  ghost predicate OldOrVouched(c: Config, s: State, s': State) {
    forall t :: t in s'.accounts.items ==>
      (t in s.accounts.items && s.accounts.items[t] == s'.accounts.items[t]) || Vouches(c, s', t, s'.accounts.items[t])
  }

  lemma SetVouches(c: Config, s: State, items: Items, token: Token, identity: Identity)
    requires c.ttl > 0 && token != "" && StoredIdentity(s.accounts, token) == Some(identity)
    ensures var after := AfterSet(items, c.ttl, token, identity, identity.session.expiresAt, s.now);
            token in after && after[token].identity == identity && Vouches(c, s, token, after[token])
  {
  }

  lemma StepKeepsAgreement(c: Config, s: State, step: Step, s': State)
    requires SessionsAgree(s) && Next(c, s, step, s')
    ensures SessionsAgree(s')
  {
  }

  lemma {:induction false} AgreementHolds(c: Config, run: Run, j: nat)
    requires IsRun(c, run) && j < |run.states|
    ensures SessionsAgree(run.states[j])
  {
    if j > 0 {
      AgreementHolds(c, run, j - 1);
      StepKeepsAgreement(c, run.states[j - 1], run.steps[j - 1], run.states[j]);
    }
  }

  lemma StepVouches(c: Config, s: State, step: Step, s': State)
    requires c.ttl > 0 && SessionsAgree(s) && Next(c, s, step, s')
    ensures OldOrVouched(c, s, s')
  {
    match step {
      case OpenSession(id, token) =>
        SetVouches(c, s', s.accounts.items, token, Identity(s.accounts.users[id], s'.accounts.sessions[token]));
      case Authenticate(given) =>
        if s'.accounts.items != s.accounts.items && Answer(s.accounts, s.now, given).Some? {
          SetVouches(c, s', AfterGet(s.accounts.items, Trim(given), s.now), Trim(given),
                     Answer(s.accounts, s.now, given).value);
        }
      case UpdateProfile(id, user, given) =>
        var t := Trim(given);
        var hit := Found(s.accounts.items, t, s.now);
        if id in s.accounts.users && t != "" && hit.Some? {
          SetVouches(c, s', AfterGet(s.accounts.items, t, s.now), t, hit.value.(user := user));
        }
      case _ =>
    }
  }

  ghost predicate VouchedBy(c: Config, run: Run, j: nat, t: Token, e: Entry, i: nat) {
    i <= j < |run.states| && Vouches(c, run.states[i], t, e)
  }

  ghost predicate CacheInv(c: Config, run: Run, j: nat)
    requires j < |run.states|
  {
    forall t :: t in run.states[j].accounts.items ==>
      exists i :: VouchedBy(c, run, j, t, run.states[j].accounts.items[t], i)
  }

  lemma {:induction false} CacheInvHolds(c: Config, run: Run, j: nat)
    requires IsRun(c, run) && c.ttl > 0 && j < |run.states|
    ensures CacheInv(c, run, j)
  {
    if j > 0 {
      CacheInvHolds(c, run, j - 1);
      var s, s' := run.states[j - 1], run.states[j];
      AgreementHolds(c, run, j - 1);
      StepVouches(c, s, run.steps[j - 1], s');
      forall t | t in s'.accounts.items ensures exists i :: VouchedBy(c, run, j, t, s'.accounts.items[t], i) {
        if Vouches(c, s', t, s'.accounts.items[t]) {
          assert VouchedBy(c, run, j, t, s'.accounts.items[t], j);
        } else {
          var i :| VouchedBy(c, run, j - 1, t, s.accounts.items[t], i);
          assert VouchedBy(c, run, j, t, s'.accounts.items[t], i);
        }
      }
    }
  }

  // ---------- Bounded staleness ----------

  /** Any identity an authentication would return was the stored one at a moment less than the
      cache lifetime ago, and is of an active user with a session that has not expired. */
  lemma BoundedStaleness(c: Config, run: Run, j: nat, given: string) returns (i: nat)
    requires IsRun(c, run) && c.ttl > 0 && j < |run.states|
    requires Answer(run.states[j].accounts, run.states[j].now, given).Some?
    ensures var identity := Answer(run.states[j].accounts, run.states[j].now, given);
            && i <= j && StoredIdentity(run.states[i].accounts, Trim(given)) == identity
            && run.states[i].now <= run.states[j].now < run.states[i].now + c.ttl
            && Usable(identity.value, run.states[j].now)
  {
    var s, t := run.states[j], Trim(given);
    if Found(s.accounts.items, t, s.now).Some? {
      CacheInvHolds(c, run, j);
      i :| VouchedBy(c, run, j, t, s.accounts.items[t], i);
      ClockOnlyMovesOn(c, run, i, j);
    } else {
      i := j;
    }
  }

  /** The stored identity of the token was the same at every moment less than the cache lifetime ago. */
  ghost predicate UnchangedLately(c: Config, run: Run, j: nat, t: Token)
    requires j < |run.states|
  {
    forall i :: 0 <= i <= j && run.states[j].now < run.states[i].now + c.ttl ==>
      StoredIdentity(run.states[i].accounts, t) == StoredIdentity(run.states[j].accounts, t)
  }

  /** While the stored identity does not change for the cache lifetime, the cache makes no
      difference to any answer. */
  lemma UnchangedSameAnswer(c: Config, run: Run, j: nat, given: string)
    requires IsRun(c, run) && c.ttl > 0 && j < |run.states| && UnchangedLately(c, run, j, Trim(given))
    ensures Answer(run.states[j].accounts, run.states[j].now, given)
         == AnswerFromStore(run.states[j].accounts, run.states[j].now, given)
  {
    var s, t := run.states[j], Trim(given);
    if Found(s.accounts.items, t, s.now).Some? {
      CacheInvHolds(c, run, j);
      var i :| VouchedBy(c, run, j, t, s.accounts.items[t], i);
      ClockOnlyMovesOn(c, run, i, j);
      CacheAgrees(s.accounts, s.now, given);
    }
  }

  lemma {:induction false} IssuedStays(c: Config, run: Run, i: nat, j: nat, t: Token)
    requires IsRun(c, run) && i <= j < |run.states| && t in run.states[i].issued
    ensures t in run.states[j].issued
  {
    if i < j {
      IssuedStays(c, run, i, j - 1, t);
      assert Next(c, run.states[j - 1], run.steps[j - 1], run.states[j]);
    }
  }

  /** An issued token that is neither stored nor cached stays that way. */
  predicate Gone(s: State, t: Token) {
    t in s.issued && t !in s.accounts.sessions && t !in s.accounts.items
  }

  lemma StepKeepsSession(c: Config, s: State, step: Step, s': State, t: Token)
    requires SessionsAgree(s) && Next(c, s, step, s') && t in s.issued && t in s'.accounts.sessions
    ensures t in s.accounts.sessions && s'.accounts.sessions[t] == s.accounts.sessions[t]
  {
  }

  /** A stored session never changes while it is stored. */
  lemma {:induction false} SessionIsFixed(c: Config, run: Run, i: nat, j: nat, t: Token)
    requires IsRun(c, run) && i <= j < |run.states|
    requires t in run.states[i].accounts.sessions && t in run.states[j].accounts.sessions
    ensures run.states[i].accounts.sessions[t] == run.states[j].accounts.sessions[t]
    decreases j - i
  {
    if i < j {
      AgreementHolds(c, run, i);
      AgreementHolds(c, run, j - 1);
      IssuedStays(c, run, i, j - 1, t);
      StepKeepsSession(c, run.states[j - 1], run.steps[j - 1], run.states[j], t);
      SessionIsFixed(c, run, i, j - 1, t);
    }
  }

  /** A user who has been inactive for the cache lifetime is locked out of every session. */
  lemma DeactivationTakesEffect(c: Config, run: Run, i: nat, j: nat, given: string)
    requires IsRun(c, run) && c.ttl > 0 && i <= j < |run.states|
    requires Trim(given) in run.states[j].accounts.sessions
    requires forall k :: i <= k <= j ==>
               var s := run.states[k];
               var id := run.states[j].accounts.sessions[Trim(given)].userId;
               id in s.accounts.users ==> !s.accounts.users[id].active
    requires run.states[j].now >= run.states[i].now + c.ttl
    ensures Answer(run.states[j].accounts, run.states[j].now, given).None?
  {
    if Answer(run.states[j].accounts, run.states[j].now, given).Some? {
      var k := BoundedStaleness(c, run, j, given);
      if k < i {
        ClockOnlyMovesOn(c, run, k, i);
      }
      SessionIsFixed(c, run, k, j, Trim(given));
    }
  }

  // ---------- Logout ----------

  lemma StepKeepsGone(c: Config, s: State, step: Step, s': State, t: Token)
    requires Next(c, s, step, s') && Gone(s, t)
    ensures Gone(s', t)
  {
  }

  /** After a logout that went through, the token is refused for ever. */
  lemma {:induction false} LogoutIsFinal(c: Config, run: Run, i: nat, j: nat, given: string, again: string)
    requires IsRun(c, run) && i < |run.steps| && i < j < |run.states|
    requires run.steps[i] == Logout(given) && Trim(again) == Trim(given)
    requires Trim(given) != "" && Trim(given) in run.states[i].accounts.sessions
    ensures Gone(run.states[j], Trim(given))
    ensures Answer(run.states[j].accounts, run.states[j].now, again).None?
  {
    if j == i + 1 {
      assert Next(c, run.states[i], run.steps[i], run.states[j]);
      AgreementHolds(c, run, i);
    } else {
      LogoutIsFinal(c, run, i, j - 1, given, again);
      StepKeepsGone(c, run.states[j - 1], run.steps[j - 1], run.states[j], Trim(given));
    }
  }

  // ---------- The life of a session ----------

  lemma OpenedAt(c: Config, run: Run, i: nat, id: UserId, token: Token)
    requires IsRun(c, run) && i < |run.steps| && run.steps[i] == OpenSession(id, token)
    ensures token in run.states[i + 1].accounts.sessions
    ensures run.states[i + 1].accounts.sessions[token]
         == Session(id, if c.sessionTtl > 0 then Some(run.states[i].now + c.sessionTtl) else None)
  {
    assert Next(c, run.states[i], run.steps[i], run.states[i + 1]);
  }

  /** Whatever is answered for a token, its session is the stored one. */
  lemma AnswersStoredSession(c: Config, run: Run, j: nat, given: string)
    requires IsRun(c, run) && j < |run.states|
    requires Answer(run.states[j].accounts, run.states[j].now, given).Some?
    ensures Trim(given) in run.states[j].accounts.sessions
    ensures Answer(run.states[j].accounts, run.states[j].now, given).value.session
         == run.states[j].accounts.sessions[Trim(given)]
  {
    AgreementHolds(c, run, j);
  }

  /** A session opened at time t is refused after t and the session lifetime, cached or not. Until then, while it
      is not logged out, the stored accounts answer it exactly when its user is active. */
  lemma SessionEndsOnTime(c: Config, run: Run, i: nat, j: nat, id: UserId, token: Token, given: string)
    requires IsRun(c, run) && i < |run.steps| && i < j < |run.states|
    requires run.steps[i] == OpenSession(id, token) && Trim(given) == token
    ensures var s, ended := run.states[j], c.sessionTtl > 0 && run.states[j].now > run.states[i].now + c.sessionTtl;
            && (ended ==> Answer(s.accounts, s.now, given).None?)
            && (token in s.accounts.sessions ==>
                  && id in s.accounts.users
                  && (AnswerFromStore(s.accounts, s.now, given).Some? <==> !ended && s.accounts.users[id].active)
                  && (AnswerFromStore(s.accounts, s.now, given).Some? ==>
                        AnswerFromStore(s.accounts, s.now, given).value.user == s.accounts.users[id]))
  {
    var s := run.states[j];
    OpenedAt(c, run, i, id, token);
    assert Next(c, run.states[i], run.steps[i], run.states[i + 1]);
    AgreementHolds(c, run, j);
    if Answer(s.accounts, s.now, given).Some? {
      AnswersStoredSession(c, run, j, given);
    }
    if token in s.accounts.sessions {
      SessionIsFixed(c, run, i + 1, j, token);
    }
  }

  // ---------- Changes of a password ----------

  /** A request changes a password exactly when it names an active user, brings at least eight bytes that can be
      hashed and, if there is a password, the one that is accepted now. Then the new hash is the only change of the
      users, and the caller's cached identity is gone. Any other request changes nothing. */
  lemma PasswordChangeExact(c: Config, run: Run, i: nat)
    requires IsRun(c, run) && i < |run.steps| && run.steps[i].ChangePassword?
    ensures var step, a, a' := run.steps[i], run.states[i].accounts, run.states[i + 1].accounts;
            var id, next, given := Trim(step.id), Trim(step.newPassword), Trim(step.given);
            if id != "" && id in a.users && a.users[id].active && ByteLength(next) >= 8 && step.hash(next).Some?
               && (a.users[id].passwordHash.Some? ==>
                     && step.current.Some? && Trim(step.current.value) != ""
                     && step.compare(a.users[id].passwordHash.value, Trim(step.current.value)))
            then
              && a'.users == a.users[id := a.users[id].(passwordHash := step.hash(next))]
              && a'.sessions == a.sessions && (given != "" ==> a'.items == a.items - {given})
            else a' == a
  {
    assert Next(c, run.states[i], run.steps[i], run.states[i + 1]);
  }
}
