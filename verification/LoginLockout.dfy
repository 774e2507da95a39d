/** The login lockout: a login is refused while too many failed ones lie in the window, counted by
    identifier, by IP address, or by either. Refused logins are recorded as failures too. */
module LoginLockout {
  import opened Basics
  import opened Text
  import opened SlidingWindow

  datatype Scope = ByIdentifier | ByIp | ByIdentifierOrIp

  datatype Config = Config(enabled: bool, maxAttempts: int, window: int, scope: Scope)

  datatype Row = Row(identifier: string, ip: Option<string>, succeeded: bool, at: int)

  function NormalizeScope(scope: string): Scope {
    var s := Lower(Trim(scope));
    if s == "identifier" then ByIdentifier else if s == "ip" then ByIp else ByIdentifierOrIp
  }

  predicate HasIp(ip: Option<string>) {
    ip.Some? && ip.value != ""
  }

  /** The rows the count looks at. Without an address the wider scope falls back to the identifier. */
  predicate Matches(scope: Scope, row: Row, identifier: string, ip: Option<string>) {
    match scope
    case ByIdentifier => row.identifier == identifier
    case ByIp => HasIp(ip) && row.ip == ip
    case ByIdentifierOrIp => row.identifier == identifier || (HasIp(ip) && row.ip == ip)
  }

  predicate Counts(scope: Scope, row: Row, identifier: string, ip: Option<string>, since: int) {
    !row.succeeded && row.at >= since && Matches(scope, row, identifier, ip)
  }

  function CountRecentFailed(rows: seq<Row>, scope: Scope, identifier: string, ip: Option<string>, since: int): nat {
    if rows == [] then 0
    else
      CountRecentFailed(rows[..|rows| - 1], scope, identifier, ip, since)
      + (if Counts(scope, rows[|rows| - 1], identifier, ip, since) then 1 else 0)
  }

  /** `ensureLoginAllowed`. */
  predicate Allowed(c: Config, rows: seq<Row>, identifier: string, ip: Option<string>, now: int) {
    || !c.enabled || c.maxAttempts <= 0 || c.window <= 0
    || CountRecentFailed(rows, c.scope, identifier, ip, now - c.window) < c.maxAttempts
  }

  /** An empty address is stored as none. */
  function StoredIp(ip: Option<string>): Option<string> {
    if HasIp(ip) then ip else None
  }

  /** `recordLoginAttempt`: every login that got past the field checks, allowed or not. */
  function Recorded(c: Config, rows: seq<Row>, identifier: string, ip: Option<string>, succeeded: bool,
                    at: int): seq<Row>
  {
    if c.enabled then rows + [Row(identifier, StoredIp(ip), succeeded, at)] else rows
  }

  // ---------- Histories of logins ----------

  /** One login: when the count was taken, when the row was written, and how it went. */
  datatype Login = Login(identifier: string, ip: Option<string>, checkedAt: int, recordedAt: int, allowed: bool,
                         succeeded: bool)

  function RowOf(l: Login): Row {
    Row(l.identifier, StoredIp(l.ip), l.succeeded, l.recordedAt)
  }

  function RowsOf(c: Config, logins: seq<Login>): seq<Row> {
    if logins == [] then []
    else
      var l := logins[|logins| - 1];
      Recorded(c, RowsOf(c, logins[..|logins| - 1]), l.identifier, l.ip, l.succeeded, l.recordedAt)
  }

  /** What the field checks let through: a trimmed identifier that is not blank, and no blank address. */
  predicate Cleaned(l: Login) {
    Trim(l.identifier) == l.identifier != "" && (l.ip.Some? ==> Trim(l.ip.value) == l.ip.value != "")
  }

  ghost predicate Consistent(c: Config, logins: seq<Login>, i: nat)
    requires i < |logins|
  {
    var l := logins[i];
    && Cleaned(l)
    && l.checkedAt <= l.recordedAt
    && (l.allowed <==> Allowed(c, RowsOf(c, logins[..i]), l.identifier, l.ip, l.checkedAt))
    && (l.succeeded ==> l.allowed)
  }

  /** Logins one after the other on a clock that never goes back; each is allowed exactly when the
      rows before it say so, and a refused one does not succeed. */
  ghost predicate Sequential(c: Config, logins: seq<Login>) {
    && (forall i :: 0 <= i < |logins| ==> Consistent(c, logins, i))
    && (forall i :: 0 < i < |logins| ==> logins[i - 1].recordedAt <= logins[i].checkedAt)
  }

  /** What a bound is stated for: one identifier as typed, one address, or the account that an
      identifier names, which the user lookup finds under any letter case. */
  datatype Key = Identifier(identifier: string) | Address(ip: string) | Account(name: string)

  predicate Concerns(key: Key, l: Login) {
    match key
    case Identifier(identifier) => l.identifier == identifier
    case Address(ip) => l.ip == Some(ip)
    case Account(name) => Lower(l.identifier) == Lower(name)
  }

  /** No other text names the same account. */
  ghost predicate OneSpelling(name: string) {
    forall other :: Lower(other) == Lower(name) ==> other == name
  }

  /** The scopes under which the failures of a key are counted against it. */
  ghost predicate CountedUnder(key: Key, scope: Scope) {
    match key
    case Identifier(_) => !scope.ByIp?
    case Address(ip) => ip != "" && !scope.ByIdentifier?
    case Account(name) => !scope.ByIp? && OneSpelling(name)
  }

  /** When the logins of a key that were let through and failed were recorded. */
  function FailureTimes(key: Key, logins: seq<Login>): seq<int> {
    if logins == [] then []
    else
      var l := logins[|logins| - 1];
      FailureTimes(key, logins[..|logins| - 1])
      + (if Concerns(key, l) && l.allowed && !l.succeeded then [l.recordedAt] else [])
  }

  lemma CountMore(rows: seq<Row>, row: Row, scope: Scope, identifier: string, ip: Option<string>, since: int)
    ensures CountRecentFailed(rows + [row], scope, identifier, ip, since)
         == CountRecentFailed(rows, scope, identifier, ip, since)
            + (if Counts(scope, row, identifier, ip, since) then 1 else 0)
  {
    assert (rows + [row])[..|rows|] == rows;
  }

  function TimesWith(key: Key, times: seq<int>, l: Login): seq<int> {
    if Concerns(key, l) && l.allowed && !l.succeeded then times + [l.recordedAt] else times
  }

  lemma FailureTimesMore(key: Key, logins: seq<Login>, l: Login)
    ensures FailureTimes(key, logins + [l]) == TimesWith(key, FailureTimes(key, logins), l)
  {
    assert (logins + [l])[..|logins|] == logins;
    assert FailureTimes(key, logins) + [] == FailureTimes(key, logins);
  }

  lemma RowsOfMore(c: Config, logins: seq<Login>, l: Login)
    requires c.enabled
    ensures RowsOf(c, logins + [l]) == RowsOf(c, logins) + [RowOf(l)]
  {
    assert (logins + [l])[..|logins|] == logins;
  }

  lemma OneMoreIsCounted(c: Config, key: Key, times: seq<int>, rows: seq<Row>, last: Login, l: Login, since: int)
    requires CountedUnder(key, c.scope) && Concerns(key, l)
    requires CountAfter(times, since - 1) <= CountRecentFailed(rows, c.scope, l.identifier, l.ip, since)
    ensures CountAfter(TimesWith(key, times, last), since - 1)
         <= CountRecentFailed(rows + [RowOf(last)], c.scope, l.identifier, l.ip, since)
  {
    CountAfterMore(times, last.recordedAt, since - 1);
    CountMore(rows, RowOf(last), c.scope, l.identifier, l.ip, since);
  }

  /** The count of a login of the key includes every failure of the key in the window. */
  lemma {:induction false} FailuresAreCounted(c: Config, key: Key, logins: seq<Login>, l: Login, since: int)
    requires c.enabled && CountedUnder(key, c.scope) && Concerns(key, l)
    ensures CountAfter(FailureTimes(key, logins), since - 1)
         <= CountRecentFailed(RowsOf(c, logins), c.scope, l.identifier, l.ip, since)
  {
    if logins != [] {
      var init, last := logins[..|logins| - 1], logins[|logins| - 1];
      FailuresAreCounted(c, key, init, l, since);
      assert logins == init + [last];
      FailureTimesMore(key, init, last);
      RowsOfMore(c, init, last);
      OneMoreIsCounted(c, key, FailureTimes(key, init), RowsOf(c, init), last, l, since);
    }
  }

  lemma SequentialInit(c: Config, logins: seq<Login>)
    requires logins != [] && Sequential(c, logins)
    ensures Sequential(c, logins[..|logins| - 1])
  {
    var init := logins[..|logins| - 1];
    forall i | 0 <= i < |init| ensures Consistent(c, init, i) {
      assert Consistent(c, logins, i) && init[..i] == logins[..i];
    }
  }

  lemma {:induction false} FailuresAdmitted(c: Config, key: Key, logins: seq<Login>)
    requires c.enabled && c.maxAttempts > 0 && c.window > 0 && CountedUnder(key, c.scope) && Sequential(c, logins)
    ensures Admitted(FailureTimes(key, logins), c.window + 1, c.maxAttempts)
  {
    if logins != [] {
      var init, l := logins[..|logins| - 1], logins[|logins| - 1];
      SequentialInit(c, logins);
      FailuresAdmitted(c, key, init);
      assert logins == init + [l];
      FailureTimesMore(key, init, l);
      if Concerns(key, l) && l.allowed && !l.succeeded {
        assert Consistent(c, logins, |init|);
        FailuresAreCounted(c, key, init, l, l.checkedAt - c.window);
        CountAfterMonotone(FailureTimes(key, init), l.recordedAt - (c.window + 1), l.checkedAt - c.window - 1);
        AdmittedAppend(FailureTimes(key, init), l.recordedAt, c.window + 1, c.maxAttempts);
      }
    }
  }

  /** The failures of the key recorded in the closed interval [t - window, t], which on the
      whole-second clock is (t - window - 1, t]. */
  function FailuresIn(c: Config, key: Key, logins: seq<Login>, t: int): nat {
    CountIn(FailureTimes(key, logins), t - c.window - 1, t)
  }

  lemma FailuresInMore(c: Config, key: Key, logins: seq<Login>, l: Login, t: int)
    ensures FailuresIn(c, key, logins + [l], t)
         == FailuresIn(c, key, logins, t)
            + (if Concerns(key, l) && l.allowed && !l.succeeded && t - c.window <= l.recordedAt <= t then 1 else 0)
  {
    FailureTimesMore(key, logins, l);
    if Concerns(key, l) && l.allowed && !l.succeeded {
      CountInMore(FailureTimes(key, logins), l.recordedAt, t - c.window - 1, t);
    }
  }

  /** With the lockout on, every interval [t - window, t] holds at most `maxAttempts` logins of one
      identifier that are let through and fail, and the same for one address, under the scopes that
      count them. */
  lemma LockoutBound(c: Config, key: Key, logins: seq<Login>, t: int)
    requires c.enabled && c.maxAttempts > 0 && c.window > 0 && CountedUnder(key, c.scope) && Sequential(c, logins)
    ensures FailuresIn(c, key, logins, t) <= c.maxAttempts
  {
    FailuresAdmitted(c, key, logins);
    WindowBound(FailureTimes(key, logins), c.window + 1, c.maxAttempts, t);
  }
}
