/** Whom the lockout protects: the bound on failed logins holds for exactly those keys whose
    failures the configured scope counts. */
module LockoutScopes {
  import opened Basics
  import opened Text
  import opened SlidingWindow
  import opened LoginLockout

  /** As for requests over a network. */
  predicate AllAddressed(logins: seq<Login>) {
    forall l :: l in logins ==> HasIp(l.ip)
  }

  /** The bound over all histories in which every login comes from an address. */
  ghost predicate BoundHolds(c: Config, key: Key) {
    forall logins, t :: Sequential(c, logins) && AllAddressed(logins) ==>
      FailuresIn(c, key, logins, t) <= c.maxAttempts
  }

  /** A key that a login past the field checks can have. */
  predicate Occurs(key: Key) {
    match key
    case Identifier(identifier) => Trim(identifier) == identifier != ""
    case Address(ip) => Trim(ip) == ip != ""
    case Account(name) => Trim(name) == name != ""
  }

  // ---------- One login too many ----------

  /** Two places to log in from. */
  const HERE := Some("10.0.0.1")

  const THERE := Some("10.0.0.2")

  /** A login at time 0 that is let through and fails. */
  function Failing(identifier: string, ip: Option<string>): Login {
    Login(identifier, ip, 0, 0, true, false)
  }

  function Repeated(l: Login, n: nat): (logins: seq<Login>)
    ensures |logins| == n && forall i :: 0 <= i < n ==> logins[i] == l
  {
    if n == 0 then [] else Repeated(l, n - 1) + [l]
  }

  lemma {:induction false} CountAtMostRows(rows: seq<Row>, scope: Scope, identifier: string, ip: Option<string>,
                                           since: int)
    ensures CountRecentFailed(rows, scope, identifier, ip, since) <= |rows|
  {
    if rows != [] {
      CountAtMostRows(rows[..|rows| - 1], scope, identifier, ip, since);
    }
  }

  lemma {:induction false} NoMatchNoCount(rows: seq<Row>, scope: Scope, identifier: string, ip: Option<string>,
                                          since: int)
    requires forall row :: row in rows ==> !Matches(scope, row, identifier, ip)
    ensures CountRecentFailed(rows, scope, identifier, ip, since) == 0
  {
    if rows != [] {
      assert rows[|rows| - 1] in rows;
      NoMatchNoCount(rows[..|rows| - 1], scope, identifier, ip, since);
    }
  }

  ghost predicate AllAre(rows: seq<Row>, n: nat, row: Row) {
    |rows| == n && forall other :: other in rows ==> other == row
  }

  lemma OneMoreRow(rows: seq<Row>, n: nat, row: Row)
    requires AllAre(rows, n, row)
    ensures AllAre(rows + [row], n + 1, row)
  {
  }

  lemma {:induction false} RowsOfRepeated(c: Config, l: Login, n: nat)
    requires c.enabled
    ensures AllAre(RowsOf(c, Repeated(l, n)), n, RowOf(l))
  {
    if n > 0 {
      RowsOfRepeated(c, l, n - 1);
      RowsOfMore(c, Repeated(l, n - 1), l);
      OneMoreRow(RowsOf(c, Repeated(l, n - 1)), n - 1, RowOf(l));
    }
  }

  lemma {:induction false} RepeatedFailures(key: Key, l: Login, n: nat)
    requires Concerns(key, l) && l.allowed && !l.succeeded && l.recordedAt == 0
    ensures FailureTimes(key, Repeated(l, n)) == Same(0, n)
  {
    if n > 0 {
      RepeatedFailures(key, l, n - 1);
      FailureTimesMore(key, Repeated(l, n - 1), l);
    }
  }

  /** As many failures as the limit allows, then one more that the scope does not hold against the
      others. */
  function Flood(c: Config, first: Login, last: Login): seq<Login>
    requires c.maxAttempts > 0
  {
    Repeated(first, c.maxAttempts) + [last]
  }

  lemma RepeatedPrefix(l: Login, n: nat, i: nat)
    requires i <= n
    ensures Repeated(l, n)[..i] == Repeated(l, i)
  {
  }

  /** Below the limit every login is let through. */
  lemma FirstAreLetThrough(c: Config, first: Login, last: Login, i: nat)
    requires c.enabled && c.maxAttempts > 0 && c.window > 0 && i < c.maxAttempts
    requires Cleaned(first) && first == Failing(first.identifier, first.ip)
    ensures Consistent(c, Flood(c, first, last), i)
  {
    var logins := Flood(c, first, last);
    RepeatedPrefix(first, c.maxAttempts, i);
    assert logins[..i] == Repeated(first, c.maxAttempts)[..i];
    RowsOfRepeated(c, first, i);
    CountAtMostRows(RowsOf(c, Repeated(first, i)), c.scope, first.identifier, first.ip, 0 - c.window);
  }

  lemma LastIsLetThrough(c: Config, first: Login, last: Login)
    requires c.enabled && c.maxAttempts > 0 && c.window > 0
    requires Cleaned(last) && last == Failing(last.identifier, last.ip)
    requires !Matches(c.scope, RowOf(first), last.identifier, last.ip)
    ensures Consistent(c, Flood(c, first, last), c.maxAttempts)
  {
    var logins := Flood(c, first, last);
    assert logins[..c.maxAttempts] == Repeated(first, c.maxAttempts);
    RowsOfRepeated(c, first, c.maxAttempts);
    NoMatchNoCount(RowsOf(c, Repeated(first, c.maxAttempts)), c.scope, last.identifier, last.ip, 0 - c.window);
  }

  lemma FloodIsSequential(c: Config, first: Login, last: Login)
    requires c.enabled && c.maxAttempts > 0 && c.window > 0
    requires Cleaned(first) && first == Failing(first.identifier, first.ip)
    requires Cleaned(last) && last == Failing(last.identifier, last.ip)
    requires !Matches(c.scope, RowOf(first), last.identifier, last.ip)
    ensures Sequential(c, Flood(c, first, last))
  {
    var logins := Flood(c, first, last);
    forall i | 0 <= i < |logins| ensures Consistent(c, logins, i) {
      if i < c.maxAttempts {
        FirstAreLetThrough(c, first, last, i);
      } else {
        LastIsLetThrough(c, first, last);
      }
    }
  }

  lemma FloodFailures(c: Config, key: Key, first: Login, last: Login)
    requires c.maxAttempts > 0 && c.window > 0
    requires first == Failing(first.identifier, first.ip) && Concerns(key, first)
    requires last == Failing(last.identifier, last.ip) && Concerns(key, last)
    ensures FailuresIn(c, key, Flood(c, first, last), 0) == c.maxAttempts + 1
  {
    RepeatedFailures(key, first, c.maxAttempts);
    FailureTimesMore(key, Repeated(first, c.maxAttempts), last);
    assert FailureTimes(key, Flood(c, first, last)) == Same(0, c.maxAttempts + 1);
    CountSame(0, c.maxAttempts + 1, 0 - c.window - 1, 0);
  }

  lemma FloodBreaksBound(c: Config, key: Key, first: Login, last: Login)
    requires c.enabled && c.maxAttempts > 0 && c.window > 0
    requires Cleaned(first) && first == Failing(first.identifier, first.ip) && Concerns(key, first)
    requires Cleaned(last) && last == Failing(last.identifier, last.ip) && Concerns(key, last)
    requires HasIp(first.ip) && HasIp(last.ip) && !Matches(c.scope, RowOf(first), last.identifier, last.ip)
    ensures !BoundHolds(c, key)
  {
    assert AllAddressed(Flood(c, first, last));
    FloodIsSequential(c, first, last);
    FloodFailures(c, key, first, last);
  }

  // ---------- Spellings of an account ----------

  lemma LowerKeepsSpace(c: char, d: char)
    requires LowerChar(c) == LowerChar(d)
    ensures IsSpace(c) <==> IsSpace(d)
  {
  }

  /** Another spelling of a trimmed identifier is trimmed too. */
  lemma SpellingIsCleaned(name: string, other: string)
    requires Trim(name) == name != "" && Lower(other) == Lower(name)
    ensures Trim(other) == other != ""
  {
    TrimIdempotent(name);
    assert |other| == |Lower(other)| == |Lower(name)| == |name|;
    assert Lower(other)[0] == Lower(name)[0] && Lower(other)[|name| - 1] == Lower(name)[|name| - 1];
    LowerKeepsSpace(other[0], name[0]);
    LowerKeepsSpace(other[|name| - 1], name[|name| - 1]);
    TrimOfTrimmed(other);
  }

  /** The scope decides: the bound holds for a key in all histories exactly when the scope counts the
      failures of that key. For an account that takes a scope with identifiers and a name that can be
      written in one way only. */
  lemma LockoutBoundExact(c: Config, key: Key)
    requires c.enabled && c.maxAttempts > 0 && c.window > 0 && Occurs(key)
    ensures BoundHolds(c, key) <==> CountedUnder(key, c.scope)
  {
    if CountedUnder(key, c.scope) {
      forall logins, t | Sequential(c, logins) ensures FailuresIn(c, key, logins, t) <= c.maxAttempts {
        LockoutBound(c, key, logins, t);
      }
    } else {
      TrimOfTrimmed(HERE.value);
      TrimOfTrimmed(THERE.value);
      match key {
        case Identifier(identifier) =>
          FloodBreaksBound(c, key, Failing(identifier, HERE), Failing(identifier, THERE));
        case Address(ip) =>
          TrimOfTrimmed("a");
          TrimOfTrimmed("b");
          FloodBreaksBound(c, key, Failing("a", Some(ip)), Failing("b", Some(ip)));
        case Account(name) =>
          if c.scope.ByIp? {
            FloodBreaksBound(c, key, Failing(name, HERE), Failing(name, THERE));
          } else {
            var other :| Lower(other) == Lower(name) && other != name;
            SpellingIsCleaned(name, other);
            FloodBreaksBound(c, key, Failing(name, HERE), Failing(other, THERE));
          }
      }
    }
  }

  /** An account whose name holds a Latin letter has several spellings, so under no scope are its
      failed logins bounded by the limit. */
  lemma LetteredAccountsAreNotBounded(c: Config, name: string, i: nat)
    requires c.enabled && c.maxAttempts > 0 && c.window > 0 && Occurs(Account(name))
    requires i < |name| && ('a' <= name[i] <= 'z' || 'A' <= name[i] <= 'Z')
    ensures !BoundHolds(c, Account(name))
  {
    var n := name[i] as int;
    var swapped := if 'a' <= name[i] <= 'z' then (n - 0x20) as char else (n + 0x20) as char;
    var other := name[i := swapped];
    assert LowerChar(swapped) == LowerChar(name[i]);
    assert other[i] != name[i];
    assert Lower(other) == Lower(name);
    assert !OneSpelling(name);
    LockoutBoundExact(c, Account(name));
  }

  // ---------- The configured scope ----------

  /** Of the texts a scope can be configured with, only "ip" leaves identifiers unbounded and only
      "identifier" leaves addresses unbounded, in any letter case and with any white space around;
      every unknown text bounds both. */
  lemma ConfiguredScopeBounds(maxAttempts: int, window: int, scope: string, identifier: string, ip: string)
    requires maxAttempts > 0 && window > 0 && Occurs(Identifier(identifier)) && Occurs(Address(ip))
    ensures var c := Config(true, maxAttempts, window, NormalizeScope(scope));
            && (BoundHolds(c, Identifier(identifier)) <==> Lower(Trim(scope)) != "ip")
            && (BoundHolds(c, Address(ip)) <==> Lower(Trim(scope)) != "identifier")
  {
    var c := Config(true, maxAttempts, window, NormalizeScope(scope));
    LockoutBoundExact(c, Identifier(identifier));
    LockoutBoundExact(c, Address(ip));
  }
}
