/** Logins that overlap: the failures are counted in one statement and the outcome is recorded in another
    when the login is over, with nothing held in between. */
module RacingLogins {
  import opened Basics
  import opened Text
  import opened SlidingWindow
  import opened LoginLockout
  import opened LockoutScopes

  type LoginId = nat

  /** A login between its count and its record. */
  datatype Flight = Flight(identifier: string, ip: Option<string>, checkedAt: int, allowed: bool)

  datatype State = State(now: int, logins: seq<Login>, flights: map<LoginId, Flight>)

  datatype Step =
    | Tick
    | Check(id: LoginId, identifier: string, ip: Option<string>)
    | Record(id: LoginId, succeeded: bool)

  datatype Run = Run(states: seq<State>, steps: seq<Step>)

  function Landed(f: Flight, at: int, succeeded: bool): Login {
    Login(f.identifier, f.ip, f.checkedAt, at, f.allowed, succeeded)
  }

  predicate Concerned(key: Key, f: Flight) {
    Concerns(key, Landed(f, f.checkedAt, false))
  }

  function InFlight(s: State, key: Key): set<LoginId> {
    set id | id in s.flights && Concerned(key, s.flights[id])
  }

  function Checked(c: Config, s: State, identifier: string, ip: Option<string>): Flight {
    Flight(identifier, ip, s.now, Allowed(c, RowsOf(c, s.logins), identifier, ip, s.now))
  }

  ghost predicate Next(c: Config, s: State, step: Step, s': State) {
    match step
    case Tick => s' == s.(now := s.now + 1)
    case Check(id, identifier, ip) =>
      var f := Checked(c, s, identifier, ip);
      && id !in s.flights && Cleaned(Landed(f, s.now, false))
      && s' == s.(flights := s.flights[id := f])
    case Record(id, succeeded) =>
      && id in s.flights && (succeeded ==> s.flights[id].allowed)
      && s' == s.(logins := s.logins + [Landed(s.flights[id], s.now, succeeded)], flights := s.flights - {id})
  }

  /** A run in which at most `k` logins of the key are ever in flight. */
  ghost predicate IsRun(c: Config, run: Run, key: Key, k: nat) {
    && |run.states| == |run.steps| + 1
    && run.states[0].logins == [] && run.states[0].flights == map[]
    && (forall i :: 0 <= i < |run.steps| ==> Next(c, run.states[i], run.steps[i], run.states[i + 1]))
    && (forall i :: 0 <= i < |run.states| ==> |InFlight(run.states[i], key)| <= k)
  }

  function Last(run: Run): State
    requires |run.states| > 0
  {
    run.states[|run.states| - 1]
  }

  predicate LockoutOn(c: Config) {
    c.enabled && c.maxAttempts > 0 && c.window > 0
  }

  // ---------- The bound ----------

  /** The logins that were let through and can still fail in an interval that ends at `t`. */
  function FlyingUntil(s: State, key: Key, t: int): set<LoginId> {
    set id | id in InFlight(s, key) && s.flights[id].allowed && s.now <= t
  }

  ghost predicate RaceInv(c: Config, s: State, key: Key, k: nat, t: int) {
    FailuresIn(c, key, s.logins, t) + |FlyingUntil(s, key, t)| <= c.maxAttempts + (if k == 0 then 0 else k - 1)
  }

  /** What the count saw bounds every interval in which the login can fail. */
  lemma CountBoundsInterval(c: Config, s: State, key: Key, f: Flight, t: int)
    requires LockoutOn(c) && CountedUnder(key, c.scope) && Concerned(key, f) && s.now <= t
    requires f == Checked(c, s, f.identifier, f.ip) && f.allowed
    ensures FailuresIn(c, key, s.logins, t) < c.maxAttempts
  {
    var times, since := FailureTimes(key, s.logins), s.now - c.window;
    FailuresAreCounted(c, key, s.logins, Landed(f, f.checkedAt, false), since);
    CountInAtMostAfter(times, t - c.window - 1, t, t - c.window - 1);
    CountAfterMonotone(times, t - c.window - 1, since - 1);
  }

  lemma CheckKeepsRace(c: Config, s: State, id: LoginId, f: Flight, s': State, key: Key, k: nat, t: int)
    requires LockoutOn(c) && CountedUnder(key, c.scope) && RaceInv(c, s, key, k, t) && |InFlight(s', key)| <= k
    requires id !in s.flights && f == Checked(c, s, f.identifier, f.ip) && s' == s.(flights := s.flights[id := f])
    ensures RaceInv(c, s', key, k, t)
  {
    if Concerned(key, f) && f.allowed && s.now <= t {
      CountBoundsInterval(c, s, key, f, t);
      assert id in InFlight(s', key);
      SubsetCardinality(FlyingUntil(s', key, t), InFlight(s', key));
    } else {
      assert FlyingUntil(s', key, t) == FlyingUntil(s, key, t);
    }
  }

  lemma OneLessFlying(s: State, id: LoginId, logins: seq<Login>, key: Key, t: int)
    requires id in s.flights
    ensures var s' := s.(logins := logins, flights := s.flights - {id});
            FlyingUntil(s', key, t) == FlyingUntil(s, key, t) - {id}
  {
  }

  lemma RecordKeepsRace(c: Config, s: State, id: LoginId, l: Login, key: Key, k: nat, t: int)
    requires RaceInv(c, s, key, k, t) && id in s.flights && l == Landed(s.flights[id], s.now, l.succeeded)
    ensures RaceInv(c, s.(logins := s.logins + [l], flights := s.flights - {id}), key, k, t)
  {
    FailuresInMore(c, key, s.logins, l, t);
    OneLessFlying(s, id, s.logins + [l], key, t);
    WithoutOne(FlyingUntil(s, key, t), id);
  }

  lemma StepKeepsRace(c: Config, s: State, step: Step, s': State, key: Key, k: nat, t: int)
    requires LockoutOn(c) && CountedUnder(key, c.scope) && RaceInv(c, s, key, k, t) && |InFlight(s', key)| <= k
    requires Next(c, s, step, s')
    ensures RaceInv(c, s', key, k, t)
  {
    match step {
      case Tick =>
        SubsetCardinality(FlyingUntil(s', key, t), FlyingUntil(s, key, t));
      case Check(id, identifier, ip) =>
        CheckKeepsRace(c, s, id, Checked(c, s, identifier, ip), s', key, k, t);
      case Record(id, succeeded) =>
        RecordKeepsRace(c, s, id, Landed(s.flights[id], s.now, succeeded), key, k, t);
    }
  }

  lemma {:induction false} RaceInvHolds(c: Config, run: Run, i: nat, key: Key, k: nat, t: int)
    requires LockoutOn(c) && CountedUnder(key, c.scope) && IsRun(c, run, key, k) && i < |run.states|
    ensures RaceInv(c, run.states[i], key, k, t)
  {
    if i > 0 {
      RaceInvHolds(c, run, i - 1, key, k, t);
      StepKeepsRace(c, run.states[i - 1], run.steps[i - 1], run.states[i], key, k, t);
    } else {
      assert FlyingUntil(run.states[0], key, t) == {};
    }
  }

  /** In any interleaving in which at most `k` logins of the key overlap, every interval [t - window, t] holds
      at most `maxAttempts + k - 1` of them that are let through and fail. */
  lemma RacingLoginsBound(c: Config, run: Run, i: nat, key: Key, k: nat, t: int)
    requires LockoutOn(c) && CountedUnder(key, c.scope) && IsRun(c, run, key, k) && i < |run.states| && k > 0
    ensures FailuresIn(c, key, run.states[i].logins, t) <= c.maxAttempts + k - 1
  {
    RaceInvHolds(c, run, i, key, k, t);
  }

  // ---------- The bound is reached ----------

  /** A login of the key, let through at second 0. */
  function FlightOf(key: Key): Flight {
    match key
    case Identifier(identifier) => Flight(identifier, HERE, 0, true)
    case Address(ip) => Flight("a", Some(ip), 0, true)
    case Account(name) => Flight(name, HERE, 0, true)
  }

  lemma FlightOfKey(key: Key)
    requires Occurs(key)
    ensures Concerned(key, FlightOf(key)) && Cleaned(Landed(FlightOf(key), 0, false))
  {
    TrimOfTrimmed("a");
    TrimOfTrimmed(HERE.value);
  }

  /** `n` failed logins at second 0, and some more in flight. */
  function Failed(key: Key, n: nat, flights: map<LoginId, Flight>): State {
    State(0, Repeated(Landed(FlightOf(key), 0, false), n), flights)
  }

  lemma FewRowsAllow(c: Config, rows: seq<Row>, identifier: string, ip: Option<string>, now: int)
    requires LockoutOn(c) && |rows| < c.maxAttempts
    ensures Allowed(c, rows, identifier, ip, now)
  {
    CountAtMostRows(rows, c.scope, identifier, ip, now - c.window);
  }

  lemma LetThrough(c: Config, key: Key, n: nat, flights: map<LoginId, Flight>)
    requires LockoutOn(c) && n < c.maxAttempts
    ensures Checked(c, Failed(key, n, flights), FlightOf(key).identifier, FlightOf(key).ip) == FlightOf(key)
  {
    var f := FlightOf(key);
    RowsOfRepeated(c, Landed(f, 0, false), n);
    FewRowsAllow(c, RowsOf(c, Repeated(Landed(f, 0, false), n)), f.identifier, f.ip, 0);
  }

  lemma Extended(c: Config, run: Run, key: Key, k: nat, step: Step, s': State) returns (longer: Run)
    requires IsRun(c, run, key, k) && Next(c, Last(run), step, s') && |InFlight(s', key)| <= k
    ensures IsRun(c, longer, key, k) && Last(longer) == s'
  {
    longer := Run(run.states + [s'], run.steps + [step]);
    forall i | 0 <= i < |longer.steps| ensures Next(c, longer.states[i], longer.steps[i], longer.states[i + 1]) {
      if i < |run.steps| {
        assert Next(c, run.states[i], run.steps[i], run.states[i + 1]);
      }
    }
  }

  /** The flights from `first` up to `end`. */
  function Wave(key: Key, first: nat, end: nat): (flights: map<LoginId, Flight>)
    ensures forall id :: id in flights <==> first <= id < end
    ensures forall id :: id in flights ==> flights[id] == FlightOf(key)
    decreases end
  {
    if first >= end then map[] else Wave(key, first, end - 1)[end - 1 := FlightOf(key)]
  }

  lemma {:induction false} WaveSize(s: State, key: Key, first: nat, end: nat)
    requires s.flights == Wave(key, first, end) && first <= end
    ensures |InFlight(s, key)| <= end - first
    decreases end
  {
    if first < end {
      var smaller := s.(flights := Wave(key, first, end - 1));
      WaveSize(smaller, key, first, end - 1);
      SubsetCardinality(InFlight(s, key), InFlight(smaller, key) + {end - 1});
    } else {
      assert InFlight(s, key) == {};
    }
  }

  lemma OneChecked(c: Config, run: Run, key: Key, k: nat, n: nat, j: nat) returns (longer: Run)
    requires LockoutOn(c) && Occurs(key) && n < c.maxAttempts && j < k
    requires IsRun(c, run, key, k) && Last(run) == Failed(key, n, Wave(key, 0, j))
    ensures IsRun(c, longer, key, k) && Last(longer) == Failed(key, n, Wave(key, 0, j + 1))
  {
    var f, s' := FlightOf(key), Failed(key, n, Wave(key, 0, j + 1));
    LetThrough(c, key, n, Wave(key, 0, j));
    FlightOfKey(key);
    assert Wave(key, 0, j)[j := f] == Wave(key, 0, j + 1);
    WaveSize(s', key, 0, j + 1);
    longer := Extended(c, run, key, k, Check(j, f.identifier, f.ip), s');
  }

  lemma OneRecorded(c: Config, run: Run, key: Key, k: nat, n: nat, first: nat, end: nat) returns (longer: Run)
    requires first < end && end - first <= k + 1
    requires IsRun(c, run, key, k) && Last(run) == Failed(key, n, Wave(key, first, end))
    ensures IsRun(c, longer, key, k) && Last(longer) == Failed(key, n + 1, Wave(key, first + 1, end))
  {
    var s' := Failed(key, n + 1, Wave(key, first + 1, end));
    assert Wave(key, first, end) - {first} == Wave(key, first + 1, end);
    WaveSize(s', key, first + 1, end);
    longer := Extended(c, run, key, k, Record(first, false), s');
  }

  /** Logins one after the other fail while the limit is not reached. */
  lemma {:induction false} OneByOne(c: Config, key: Key, k: nat, n: nat) returns (run: Run)
    requires LockoutOn(c) && Occurs(key) && k > 0 && n <= c.maxAttempts
    ensures IsRun(c, run, key, k) && Last(run) == Failed(key, n, Wave(key, 0, 0))
  {
    assert Wave(key, 0, 0) == map[] && Wave(key, 1, 1) == map[];
    if n == 0 {
      var s := Failed(key, 0, Wave(key, 0, 0));
      WaveSize(s, key, 0, 0);
      run := Run([s], []);
    } else {
      run := OneByOne(c, key, k, n - 1);
      run := OneChecked(c, run, key, k, n - 1, 0);
      run := OneRecorded(c, run, key, k, n - 1, 0, 1);
    }
  }

  lemma {:induction false} AllChecked(c: Config, key: Key, k: nat, n: nat, j: nat, start: Run) returns (run: Run)
    requires LockoutOn(c) && Occurs(key) && n < c.maxAttempts && j <= k
    requires IsRun(c, start, key, k) && Last(start) == Failed(key, n, Wave(key, 0, 0))
    ensures IsRun(c, run, key, k) && Last(run) == Failed(key, n, Wave(key, 0, j))
  {
    if j == 0 {
      run := start;
    } else {
      run := AllChecked(c, key, k, n, j - 1, start);
      run := OneChecked(c, run, key, k, n, j - 1);
    }
  }

  lemma {:induction false} AllRecorded(c: Config, key: Key, k: nat, n: nat, j: nat, start: Run) returns (run: Run)
    requires j <= k && IsRun(c, start, key, k) && Last(start) == Failed(key, n, Wave(key, 0, k))
    ensures IsRun(c, run, key, k) && Last(run) == Failed(key, n + j, Wave(key, j, k))
  {
    if j == 0 {
      run := start;
    } else {
      run := AllRecorded(c, key, k, n, j - 1, start);
      run := OneRecorded(c, run, key, k, n + j - 1, j - 1, k);
    }
  }

  lemma FailedCount(c: Config, key: Key, n: nat)
    requires Occurs(key) && LockoutOn(c)
    ensures FailuresIn(c, key, Repeated(Landed(FlightOf(key), 0, false), n), 0) == n
  {
    FlightOfKey(key);
    RepeatedFailures(key, Landed(FlightOf(key), 0, false), n);
    CountSame(0, n, 0 - c.window - 1, 0);
  }

  /** For every key, every limit and every number of overlapping logins some interleaving reaches the bound. */
  lemma RacingLoginsBoundIsReached(c: Config, key: Key, k: nat) returns (run: Run)
    requires LockoutOn(c) && Occurs(key) && k > 0
    ensures IsRun(c, run, key, k) && FailuresIn(c, key, Last(run).logins, 0) == c.maxAttempts + k - 1
  {
    var before := c.maxAttempts - 1;
    run := OneByOne(c, key, k, before);
    run := AllChecked(c, key, k, before, k, run);
    run := AllRecorded(c, key, k, before, k, run);
    FailedCount(c, key, before + k);
  }

  ghost predicate BoundAlwaysKept(c: Config, key: Key, k: nat) {
    forall run, t :: IsRun(c, run, key, k) ==> FailuresIn(c, key, Last(run).logins, t) <= c.maxAttempts
  }

  /** For a key whose failures are counted, the bound of one login after the other is kept in all interleavings
      exactly when logins of the key never overlap. */
  lemma LockoutKeptExactlyWithoutOverlap(c: Config, key: Key, k: nat)
    requires LockoutOn(c) && Occurs(key) && CountedUnder(key, c.scope)
    ensures BoundAlwaysKept(c, key, k) <==> k <= 1
  {
    if k <= 1 {
      forall run, t | IsRun(c, run, key, k) ensures FailuresIn(c, key, Last(run).logins, t) <= c.maxAttempts {
        RaceInvHolds(c, run, |run.states| - 1, key, k, t);
      }
    } else {
      var run := RacingLoginsBoundIsReached(c, key, k);
    }
  }
}
