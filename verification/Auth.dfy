/** Sessions over the stored accounts and the session cache: login, authentication, logout, and
    the user changes that refresh, drop or bypass the cached identity. */
module Auth {
  import opened Basics
  import opened Text
  import opened SessionCache
  import opened LoginLockout

  datatype Accounts = Accounts(users: map<UserId, User>, sessions: map<Token, Session>, items: Items)

  /** `GetByTokenWithUser`: the session joined with its user. */
  function StoredIdentity(a: Accounts, token: Token): Option<Identity> {
    if token in a.sessions && a.sessions[token].userId in a.users
    then Some(Identity(a.users[a.sessions[token].userId], a.sessions[token])) else None
  }

  // ---------- Authentication ----------

  predicate Usable(identity: Identity, now: int) {
    (identity.session.expiresAt.Some? ==> now <= identity.session.expiresAt.value) && identity.user.active
  }

  function IfUsable(identity: Option<Identity>, now: int): Option<Identity> {
    if identity.Some? && Usable(identity.value, now) then identity else None
  }

  /** The answer without a cache. */
  function AnswerFromStore(a: Accounts, now: int, token: string): Option<Identity> {
    if Trim(token) == "" then None else IfUsable(StoredIdentity(a, Trim(token)), now)
  }

  /** `Authenticate`: the identity, or none for an unauthorized request. */
  function Answer(a: Accounts, now: int, token: string): Option<Identity> {
    var hit := Found(a.items, Trim(token), now);
    if Trim(token) != "" && hit.Some? then IfUsable(hit, now) else AnswerFromStore(a, now, token)
  }

  function AfterAuthenticate(a: Accounts, ttl: int, now: int, token: string): Accounts {
    var t := Trim(token);
    if t == "" then a
    else if Found(a.items, t, now).Some? then
      if Answer(a, now, token).Some? then a else a.(items := AfterDelete(a.items, t))
    else
      var items := AfterGet(a.items, t, now);
      var answer := Answer(a, now, token);
      a.(items := if answer.None? then items
                  else AfterSet(items, ttl, t, answer.value, answer.value.session.expiresAt, now))
  }

  /** If the cached identity is the stored one, the cache makes no difference. */
  lemma CacheAgrees(a: Accounts, now: int, token: string)
    requires Found(a.items, Trim(token), now).Some? ==>
             Found(a.items, Trim(token), now) == StoredIdentity(a, Trim(token))
    ensures Answer(a, now, token) == AnswerFromStore(a, now, token)
  {
  }

  /** What an authentication leaves in the cache: its answer, as long as the session does not end this very
      second, and nothing after a refusal. */
  lemma AuthenticateCaches(a: Accounts, ttl: int, now: int, token: string)
    requires Trim(token) != ""
    ensures var items, answer := AfterAuthenticate(a, ttl, now, token).items, Answer(a, now, token);
            && (answer.None? ==> Trim(token) !in items)
            && (answer.Some? && answer.value.session.expiresAt != Some(now) ==>
                  Found(items, Trim(token), now) == answer)
  {
  }

  // ---------- Sessions ----------

  function SessionExpiry(sessionTtl: int, now: int): Option<int> {
    if sessionTtl > 0 then Some(now + sessionTtl) else None
  }

  /** Storing a new session and caching its identity, as every kind of login ends. */
  function Opened(a: Accounts, ttl: int, sessionTtl: int, now: int, user: UserId, token: Token): Accounts
    requires user in a.users
  {
    var session := Session(user, SessionExpiry(sessionTtl, now));
    a.(sessions := a.sessions[token := session],
       items := AfterSet(a.items, ttl, token, Identity(a.users[user], session), session.expiresAt, now))
  }

  /** `Logout`: refused for a blank or unknown token, and then nothing changes. */
  predicate CanLogout(a: Accounts, token: string) {
    Trim(token) != "" && Trim(token) in a.sessions
  }

  function AfterLogout(a: Accounts, token: string): Accounts {
    if CanLogout(a, token) then Accounts(a.users, a.sessions - {Trim(token)}, AfterDelete(a.items, Trim(token))) else a
  }

  // ---------- Changes to a user ----------

  function WithUser(a: Accounts, id: UserId, user: User): Accounts {
    a.(users := a.users[id := user])
  }

  /** `UpdateProfile` once the row is saved: the caller's cached identity gets the new user. */
  function Refreshed(a: Accounts, ttl: int, now: int, user: User, token: string): Accounts {
    var t := Trim(token);
    if t == "" then a
    else
      var hit, items := Found(a.items, t, now), AfterGet(a.items, t, now);
      a.(items := if hit.None? then items
                  else AfterSet(items, ttl, t, hit.value.(user := user), hit.value.session.expiresAt, now))
  }

  function AfterUpdateProfile(a: Accounts, ttl: int, now: int, id: UserId, user: User, token: string): Accounts {
    if id in a.users then Refreshed(WithUser(a, id, user), ttl, now, user, token) else a
  }

  /** After a profile update that met a cached entry of the stored session, the entry is the stored
      identity exactly when the session belongs to the user, or its user looks just like it. */
  lemma RefreshIsExact(a: Accounts, ttl: int, now: int, id: UserId, user: User, token: string)
    requires var t := Trim(token);
             && t != "" && id in a.users && StoredIdentity(a, t).Some?
             && Found(a.items, t, now).Some? && Found(a.items, t, now).value.session == a.sessions[t]
    ensures var t, after := Trim(token), AfterUpdateProfile(a, ttl, now, id, user, token);
            Some(after.items[t].identity) == StoredIdentity(after, t) <==>
              a.sessions[t].userId == id || a.users[a.sessions[t].userId] == user
  {
  }

  /** `ChangePassword` once the checks are passed: the caller's cached identity is dropped. */
  function AfterChangePassword(a: Accounts, id: UserId, user: User, token: string): Accounts {
    var saved := WithUser(a, id, user);
    saved.(items := AfterDelete(saved.items, Trim(token)))
  }

  /** `ChangePassword` asks for a known active user, eight bytes of new password, and the current
      password where there is one. */
  predicate CanChangePassword(users: map<UserId, User>, id: string, current: Option<string>, newPassword: string,
                              compare: (string, string) -> bool) {
    && Trim(id) != "" && ByteLength(Trim(newPassword)) >= 8
    && Trim(id) in users && users[Trim(id)].active
    && (users[Trim(id)].passwordHash.Some? ==>
          NormalizeOptional(current).Some?
          && compare(users[Trim(id)].passwordHash.value, NormalizeOptional(current).value))
  }

  /** The accounts after a request to change a password: unchanged when the checks or the hash fail. */
  function AfterPasswordChange(a: Accounts, id: string, current: Option<string>, newPassword: string,
                               compare: (string, string) -> bool, hash: string -> Option<string>, token: string)
    : Accounts
  {
    if CanChangePassword(a.users, id, current, newPassword, compare) && hash(Trim(newPassword)).Some? then
      AfterChangePassword(a, Trim(id), a.users[Trim(id)].(passwordHash := hash(Trim(newPassword))), token)
    else a
  }

  // ---------- Password login ----------

  datatype LoginError = InvalidFields | TooManyAttempts | WrongCredentials | Disabled | NoPassword | NoSession

  predicate HasEmail(user: User, identifier: string) {
    user.email.Some? && Lower(user.email.value) == Lower(identifier)
  }

  /** `GetByEmail` ignores letter case; the choice among several matches is the database's. */
  predicate IsByEmail(users: map<UserId, User>, identifier: string, found: Option<UserId>) {
    match found
    case None => forall id :: id in users ==> !HasEmail(users[id], identifier)
    case Some(id) => id in users && HasEmail(users[id], identifier)
  }

  predicate FieldsGiven(identifier: string, password: string) {
    Trim(identifier) != "" && Trim(password) != ""
  }

  /** What a login depends on besides the stored state: the password hash comparison, and whether a
      token can be drawn and its session stored. */
  datatype Outside = Outside(compare: (string, string) -> bool, sessionWorks: bool)

  /** The checks of `Login` on normalized fields, in order. */
  function Checked(a: Accounts, c: Config, rows: seq<Row>, now: int, identifier: string, ip: Option<string>,
                   password: string, outside: Outside, found: Option<UserId>): Result<UserId, LoginError>
    requires found.Some? ==> found.value in a.users
  {
    if !Allowed(c, rows, identifier, ip, now) then Err(TooManyAttempts)
    else if found.None? then Err(WrongCredentials)
    else
      var user := a.users[found.value];
      if !user.active then Err(Disabled)
      else if user.passwordHash.None? then Err(NoPassword)
      else if !outside.compare(user.passwordHash.value, password) then Err(WrongCredentials)
      else if !outside.sessionWorks then Err(NoSession)
      else Ok(found.value)
  }

  function LoginChecked(a: Accounts, c: Config, rows: seq<Row>, now: int, identifier: string, ip: Option<string>,
                        password: string, outside: Outside, found: Option<UserId>): Result<UserId, LoginError>
    requires found.Some? ==> found.value in a.users
  {
    if !FieldsGiven(identifier, password) then Err(InvalidFields)
    else Checked(a, c, rows, now, Trim(identifier), NormalizeOptional(ip), Trim(password), outside, found)
  }

  /** The stored accounts after a login with result `r`. */
  function AfterLogin(a: Accounts, ttl: int, sessionTtl: int, now: int, r: Result<UserId, LoginError>, token: Token)
    : Accounts
    requires r.Ok? ==> r.value in a.users
  {
    if r.Ok? then Opened(a, ttl, sessionTtl, now, r.value, token) else a
  }

  /** The rows after it: one more, unless fields were missing. */
  function RowsAfterLogin(c: Config, rows: seq<Row>, identifier: string, ip: Option<string>, password: string,
                          succeeded: bool, now: int): seq<Row>
  {
    if FieldsGiven(identifier, password)
    then Recorded(c, rows, Trim(identifier), NormalizeOptional(ip), succeeded, now) else rows
  }

  /** The user was looked up, which happens only past the field checks and the lockout. */
  predicate LookedUp(r: Result<UserId, LoginError>) {
    r.Ok? || !(r.error.InvalidFields? || r.error.TooManyAttempts?)
  }

  // ---------- The use case ----------

  class AuthUseCase {
    var users: map<UserId, User>
    var sessions: map<Token, Session>
    var loginAttempts: seq<Row>
    const cache: Cache
    const sessionTtl: int
    const lockout: Config

    function Contents(): Accounts
      reads this, cache
    {
      Accounts(users, sessions, cache.items)
    }

    /** The lockout scope is configured as a text. */
    constructor (ttl: int, sessionTtl: int, lockoutEnabled: bool, maxAttempts: int, window: int, scope: string)
      ensures Contents() == Accounts(map[], map[], map[]) && loginAttempts == []
      ensures cache.ttl == ttl && this.sessionTtl == sessionTtl
      ensures lockout == Config(lockoutEnabled, maxAttempts, window, NormalizeScope(scope))
      ensures fresh(cache)
    {
      users, sessions, loginAttempts := map[], map[], [];
      cache := new Cache(ttl);
      this.sessionTtl := sessionTtl;
      lockout := Config(lockoutEnabled, maxAttempts, window, NormalizeScope(scope));
    }

    method GetByTokenWithUser(token: Token) returns (identity: Option<Identity>)
      ensures identity == StoredIdentity(Contents(), token)
    {
      if token !in sessions || sessions[token].userId !in users {
        return None;
      }
      return Some(Identity(users[sessions[token].userId], sessions[token]));
    }

    method Authenticate(token: string, now: int) returns (identity: Option<Identity>)
      modifies cache
      ensures identity == Answer(old(Contents()), now, token)
      ensures Contents() == AfterAuthenticate(old(Contents()), cache.ttl, now, token)
    {
      var t := Trim(token);
      if t == "" {
        return None;
      }
      var hit := cache.Get(t, now);
      if hit.Some? {
        if hit.value.session.expiresAt.Some? && hit.value.session.expiresAt.value < now {
          cache.Delete(t);
          return None;
        }
        if !hit.value.user.active {
          cache.Delete(t);
          return None;
        }
        return hit;
      }
      var stored := GetByTokenWithUser(t);
      if stored.None? {
        return None;
      }
      if stored.value.session.expiresAt.Some? && stored.value.session.expiresAt.value < now {
        return None;
      }
      if !stored.value.user.active {
        return None;
      }
      cache.Set(t, stored.value, stored.value.session.expiresAt, now);
      return stored;
    }

    method CreateSession(user: UserId, token: Token, now: int)
      requires user in users
      modifies this`sessions, cache
      ensures Contents() == Opened(old(Contents()), cache.ttl, sessionTtl, now, user, token)
    {
      var expiresAt: Option<int> := None;
      if sessionTtl > 0 {
        expiresAt := Some(now + sessionTtl);
      }
      var session := Session(user, expiresAt);
      sessions := sessions[token := session];
      cache.Set(token, Identity(users[user], session), expiresAt, now);
    }

    method GetByEmail(identifier: string) returns (found: Option<UserId>)
      ensures IsByEmail(users, identifier, found)
    {
      var rest := users.Keys;
      while rest != {}
        invariant rest <= users.Keys
        invariant forall id :: id in users.Keys - rest ==> !HasEmail(users[id], identifier)
        decreases rest
      {
        var id :| id in rest;
        if HasEmail(users[id], identifier) {
          return Some(id);
        }
        rest := rest - {id};
      }
      return None;
    }

    /** `Login`: the row about it is written on every way out except for missing fields. */
    method Login(identifier: string, ip: Option<string>, password: string, outside: Outside, token: Token, now: int)
      returns (r: Result<UserId, LoginError>, ghost found: Option<UserId>)
      modifies this`sessions, this`loginAttempts, cache
      ensures found.Some? ==> found.value in old(users)
      ensures LookedUp(r) ==> IsByEmail(old(users), Trim(identifier), found)
      ensures r == LoginChecked(old(Contents()), lockout, old(loginAttempts), now, identifier, ip, password, outside,
                                found)
      ensures Contents() == AfterLogin(old(Contents()), cache.ttl, sessionTtl, now, r, token)
      ensures loginAttempts == RowsAfterLogin(lockout, old(loginAttempts), identifier, ip, password, r.Ok?, now)
    {
      var login, address, given := Trim(identifier), NormalizeOptional(ip), Trim(password);
      if login == "" || given == "" {
        return Err(InvalidFields), None;
      }
      r, found := CheckLogin(login, address, given, outside, now);
      if r.Ok? {
        CreateSession(r.value, token, now);
      }
      loginAttempts := Recorded(lockout, loginAttempts, login, address, r.Ok?, now);
    }

    method CheckLogin(identifier: string, ip: Option<string>, password: string, outside: Outside, now: int)
      returns (r: Result<UserId, LoginError>, ghost found: Option<UserId>)
      ensures found.Some? ==> found.value in users
      ensures LookedUp(r) ==> IsByEmail(users, identifier, found)
      ensures r == Checked(Contents(), lockout, loginAttempts, now, identifier, ip, password, outside, found)
    {
      if !Allowed(lockout, loginAttempts, identifier, ip, now) {
        return Err(TooManyAttempts), None;
      }
      var id := GetByEmail(identifier);
      found := id;
      if id.None? {
        return Err(WrongCredentials), found;
      }
      var user := users[id.value];
      if !user.active {
        return Err(Disabled), found;
      }
      if user.passwordHash.None? {
        return Err(NoPassword), found;
      }
      if !outside.compare(user.passwordHash.value, password) {
        return Err(WrongCredentials), found;
      }
      if !outside.sessionWorks {
        return Err(NoSession), found;
      }
      return Ok(id.value), found;
    }

    method Logout(token: string) returns (done: bool)
      modifies this`sessions, cache
      ensures done == CanLogout(old(Contents()), token)
      ensures Contents() == AfterLogout(old(Contents()), token)
    {
      var t := Trim(token);
      if t == "" || t !in sessions {
        return false;
      }
      sessions := sessions - {t};
      cache.Delete(t);
      return true;
    }

    method UpdateProfile(id: UserId, user: User, token: string, now: int) returns (found: bool)
      modifies this`users, cache
      ensures found == (id in old(users))
      ensures Contents() == AfterUpdateProfile(old(Contents()), cache.ttl, now, id, user, token)
    {
      if id !in users {
        return false;
      }
      users := users[id := user];
      var t := Trim(token);
      if t != "" {
        var hit := cache.Get(t, now);
        if hit.Some? {
          cache.Set(t, hit.value.(user := user), hit.value.session.expiresAt, now);
        }
      }
      return true;
    }

    /** `ChangePassword`: a refused request changes nothing, and so does one whose password cannot be hashed
        (bcrypt takes 72 bytes). */
    method ChangePassword(id: string, current: Option<string>, newPassword: string, compare: (string, string) -> bool,
                          hash: string -> Option<string>, token: string)
      returns (done: bool)
      modifies this`users, cache
      ensures done == (CanChangePassword(old(users), id, current, newPassword, compare)
                       && hash(Trim(newPassword)).Some?)
      ensures Contents()
           == AfterPasswordChange(old(Contents()), id, current, newPassword, compare, hash, token)
    {
      var userId, given, next := Trim(id), NormalizeOptional(current), Trim(newPassword);
      if userId == "" || next == "" || ByteLength(next) < 8 {
        return false;
      }
      if userId !in users || !users[userId].active {
        return false;
      }
      if users[userId].passwordHash.Some? {
        if given.None? || !compare(users[userId].passwordHash.value, given.value) {
          return false;
        }
      }
      var hashed := hash(next);
      if hashed.None? {
        return false;
      }
      users := users[userId := users[userId].(passwordHash := hashed)];
      cache.Delete(Trim(token));
      return true;
    }

    /** Every other write of a user row: the cache is not told. */
    method WriteUser(id: UserId, user: User)
      modifies this`users
      ensures Contents() == WithUser(old(Contents()), id, user)
    {
      users := users[id := user];
    }
  }
}
