/** Submits that overlap: the count is read in one statement and the attempt inserted in another, with
    nothing held in between. Starting times are left to the server. */
module RacingSubmits {
  import opened Basics
  import opened Lms
  import opened SlidingWindow

  type SubmitId = nat

  /** The attempt limit and the cooldown of every course, and how many submits of one user at one course
      may be in flight at once. */
  datatype Config = Config(maxAttempts: string -> int, cooldownDays: string -> int, inFlight: nat)

  /** A submit in flight; once its count was below the limit it is admitted, as started at the moment
      of the count. */
  datatype Flight = Flight(course: string, user: string, admittedAt: Option<int>)

  datatype State = State(now: int, attempts: seq<Attempt>, flights: map<SubmitId, Flight>)

  datatype Step =
    | Tick
    | Begin(id: SubmitId, course: string, user: string)
    | ReadCount(id: SubmitId)
    | Insert(id: SubmitId, attempt: Attempt)
    | GiveUp(id: SubmitId)

  datatype Run = Run(states: seq<State>, steps: seq<Step>)

  function Limit(c: Config, course: string): nat {
    EffectiveMaxAttempts(c.maxAttempts(course))
  }

  /** The count that the window query returns. */
  function Counted(c: Config, s: State, course: string, user: string): nat {
    CountSince(Times(s.attempts, course, user), WindowStart(s.now, c.cooldownDays(course)))
  }

  function InFlight(s: State, course: string, user: string): set<SubmitId> {
    set id | id in s.flights && s.flights[id].course == course && s.flights[id].user == user
  }

  ghost predicate Next(c: Config, s: State, step: Step, s': State) {
    match step
    case Tick => s' == s.(now := s.now + 1)
    case Begin(id, course, user) =>
      && id !in s.flights && |InFlight(s, course, user)| < c.inFlight
      && s' == s.(flights := s.flights[id := Flight(course, user, None)])
    case ReadCount(id) =>
      && id in s.flights && s.flights[id].admittedAt.None?
      && var f := s.flights[id];
      s' == if Counted(c, s, f.course, f.user) >= Limit(c, f.course) then s.(flights := s.flights - {id})
            else s.(flights := s.flights[id := f.(admittedAt := Some(s.now))])
    case Insert(id, attempt) =>
      && id in s.flights && s.flights[id].admittedAt == Some(attempt.startedAt)
      && attempt.course == s.flights[id].course && attempt.user == s.flights[id].user
      && s' == s.(attempts := s.attempts + [attempt], flights := s.flights - {id})
    case GiveUp(id) =>
      && id in s.flights
      && s' == s.(flights := s.flights - {id})
  }

  ghost predicate IsRun(c: Config, run: Run) {
    && |run.states| == |run.steps| + 1
    && run.states[0].attempts == [] && run.states[0].flights == map[]
    && forall i :: 0 <= i < |run.steps| ==> Next(c, run.states[i], run.steps[i], run.states[i + 1])
  }

  function Last(run: Run): State
    requires |run.states| > 0
  {
    run.states[|run.states| - 1]
  }

  // ---------- One window ----------

  /** The window that ends at `t`: the cooldown before it, or all time without a cooldown. */
  predicate Within(c: Config, course: string, time: int, t: int) {
    c.cooldownDays(course) > 0 ==> t - c.cooldownDays(course) * DAY < time <= t
  }

  /** The stored attempts of a user at a course in the window that ends at `t`. */
  function StoredIn(c: Config, s: State, course: string, user: string, t: int): nat {
    var times := Times(s.attempts, course, user);
    if c.cooldownDays(course) > 0 then CountIn(times, t - c.cooldownDays(course) * DAY, t) else |times|
  }

  /** The admitted submits whose attempts would be in it. */
  function FlyingIn(c: Config, s: State, course: string, user: string, t: int): set<SubmitId> {
    set id | id in InFlight(s, course, user) && s.flights[id].admittedAt.Some?
             && Within(c, course, s.flights[id].admittedAt.value, t)
  }

  // ---------- The bound ----------

  ghost predicate RaceInv(c: Config, s: State, course: string, user: string, t: int) {
    && |InFlight(s, course, user)| <= c.inFlight
    && StoredIn(c, s, course, user, t) + |FlyingIn(c, s, course, user, t)|
       <= Limit(c, course) + (if c.inFlight == 0 then 0 else c.inFlight - 1)
  }

  lemma BeginAdmitsNone(c: Config, s: State, id: SubmitId, f: Flight, course: string, user: string, t: int)
    requires id !in s.flights && f.admittedAt.None?
    ensures FlyingIn(c, s.(flights := s.flights[id := f]), course, user, t) == FlyingIn(c, s, course, user, t)
  {
  }

  lemma BeginAddsOne(s: State, id: SubmitId, f: Flight, course: string, user: string)
    requires id !in s.flights
    ensures InFlight(s.(flights := s.flights[id := f]), course, user)
         == if f.course == course && f.user == user then InFlight(s, course, user) + {id} else InFlight(s, course, user)
  {
  }

  lemma BeginKeepsRace(c: Config, s: State, id: SubmitId, f: Flight, s': State, course: string, user: string, t: int)
    requires RaceInv(c, s, course, user, t) && f.admittedAt.None?
    requires Next(c, s, Begin(id, f.course, f.user), s')
    ensures RaceInv(c, s', course, user, t)
  {
    assert s' == s.(flights := s.flights[id := f]);
    BeginAdmitsNone(c, s, id, f, course, user, t);
    BeginAddsOne(s, id, f, course, user);
  }

  /** A submit that leaves the air may leave one attempt behind, where it was flying. */
  lemma LandingKeepsRace(c: Config, s: State, id: SubmitId, s': State, course: string, user: string, t: int)
    requires RaceInv(c, s, course, user, t) && id in s.flights && s'.flights == s.flights - {id}
    requires StoredIn(c, s', course, user, t)
          <= StoredIn(c, s, course, user, t) + (if id in FlyingIn(c, s, course, user, t) then 1 else 0)
    ensures RaceInv(c, s', course, user, t)
  {
    assert InFlight(s', course, user) == InFlight(s, course, user) - {id};
    assert FlyingIn(c, s', course, user, t) == FlyingIn(c, s, course, user, t) - {id};
    WithoutOne(InFlight(s, course, user), id);
    WithoutOne(FlyingIn(c, s, course, user, t), id);
  }

  /** What the window query counted bounds every window that the new attempt can be in. */
  lemma CountBoundsWindow(c: Config, s: State, course: string, user: string, t: int)
    requires Counted(c, s, course, user) < Limit(c, course) && Within(c, course, s.now, t)
    ensures StoredIn(c, s, course, user, t) < Limit(c, course)
  {
    if c.cooldownDays(course) > 0 {
      var times, window := Times(s.attempts, course, user), c.cooldownDays(course) * DAY;
      CountInAtMostAfter(times, t - window, t, t - window);
      CountAfterMonotone(times, t - window, s.now - window);
    }
  }

  function Admitted(s: State, id: SubmitId): State
    requires id in s.flights
  {
    s.(flights := s.flights[id := s.flights[id].(admittedAt := Some(s.now))])
  }

  lemma AdmissionAddsOne(c: Config, s: State, id: SubmitId, course: string, user: string, t: int)
    requires id in s.flights && s.flights[id].admittedAt.None?
    ensures InFlight(Admitted(s, id), course, user) == InFlight(s, course, user)
    ensures FlyingIn(c, Admitted(s, id), course, user, t)
         == if id in InFlight(s, course, user) && Within(c, course, s.now, t)
            then FlyingIn(c, s, course, user, t) + {id}
            else FlyingIn(c, s, course, user, t)
  {
    assert InFlight(Admitted(s, id), course, user) == InFlight(s, course, user);
  }

  lemma AdmissionKeepsRace(c: Config, s: State, id: SubmitId, course: string, user: string, t: int)
    requires RaceInv(c, s, course, user, t) && id in s.flights && s.flights[id].admittedAt.None?
    requires Counted(c, s, s.flights[id].course, s.flights[id].user) < Limit(c, s.flights[id].course)
    ensures RaceInv(c, Admitted(s, id), course, user, t)
  {
    AdmissionAddsOne(c, s, id, course, user, t);
    if id in InFlight(s, course, user) && Within(c, course, s.now, t) {
      CountBoundsWindow(c, s, course, user, t);
      SubsetCardinality(FlyingIn(c, Admitted(s, id), course, user, t), InFlight(s, course, user));
    }
  }

  lemma OneMoreStored(c: Config, s: State, a: Attempt, course: string, user: string, t: int)
    ensures StoredIn(c, s.(attempts := s.attempts + [a]), course, user, t)
         == StoredIn(c, s, course, user, t)
            + (if a.course == course && a.user == user && Within(c, course, a.startedAt, t) then 1 else 0)
    ensures Times(s.attempts + [a], course, user)
         == if a.course == course && a.user == user then Times(s.attempts, course, user) + [a.startedAt]
            else Times(s.attempts, course, user)
  {
    var times := Times(s.attempts, course, user);
    assert (s.attempts + [a])[..|s.attempts|] == s.attempts;
    assert times + [] == times;
    CountInMore(times, a.startedAt, t - c.cooldownDays(course) * DAY, t);
  }

  lemma InsertKeepsRace(c: Config, s: State, id: SubmitId, attempt: Attempt, s': State, course: string, user: string,
                        t: int)
    requires RaceInv(c, s, course, user, t) && Next(c, s, Insert(id, attempt), s')
    ensures RaceInv(c, s', course, user, t)
  {
    OneMoreStored(c, s, attempt, course, user, t);
    assert StoredIn(c, s', course, user, t) == StoredIn(c, s.(attempts := s.attempts + [attempt]), course, user, t);
    LandingKeepsRace(c, s, id, s', course, user, t);
  }

  lemma StepKeepsRace(c: Config, s: State, step: Step, s': State, course: string, user: string, t: int)
    requires RaceInv(c, s, course, user, t) && Next(c, s, step, s')
    ensures RaceInv(c, s', course, user, t)
  {
    match step {
      case Tick =>
        assert InFlight(s', course, user) == InFlight(s, course, user);
        assert FlyingIn(c, s', course, user, t) == FlyingIn(c, s, course, user, t);
      case Begin(id, theirCourse, theirUser) =>
        BeginKeepsRace(c, s, id, Flight(theirCourse, theirUser, None), s', course, user, t);
      case ReadCount(id) =>
        if Counted(c, s, s.flights[id].course, s.flights[id].user) >= Limit(c, s.flights[id].course) {
          LandingKeepsRace(c, s, id, s', course, user, t);
        } else {
          AdmissionKeepsRace(c, s, id, course, user, t);
        }
      case Insert(id, attempt) => InsertKeepsRace(c, s, id, attempt, s', course, user, t);
      case GiveUp(id) => LandingKeepsRace(c, s, id, s', course, user, t);
    }
  }

  lemma {:induction false} RaceInvHolds(c: Config, run: Run, i: nat, course: string, user: string, t: int)
    requires IsRun(c, run) && i < |run.states|
    ensures RaceInv(c, run.states[i], course, user, t)
  {
    if i > 0 {
      RaceInvHolds(c, run, i - 1, course, user, t);
      StepKeepsRace(c, run.states[i - 1], run.steps[i - 1], run.states[i], course, user, t);
    } else {
      assert InFlight(run.states[0], course, user) == {} && FlyingIn(c, run.states[0], course, user, t) == {};
    }
  }

  /** In any interleaving, `k` submits in flight at once overrun the limit by at most `k - 1`, in every
      window of the length of the cooldown. */
  lemma RacingBound(c: Config, run: Run, i: nat, course: string, user: string, t: int)
    requires IsRun(c, run) && i < |run.states| && c.inFlight > 0
    ensures StoredIn(c, run.states[i], course, user, t) <= Limit(c, course) + c.inFlight - 1
  {
    RaceInvHolds(c, run, i, course, user, t);
  }

  // ---------- The bound is reached ----------

  lemma Extended(c: Config, run: Run, step: Step, s': State) returns (longer: Run)
    requires IsRun(c, run) && Next(c, Last(run), step, s')
    ensures IsRun(c, longer) && Last(longer) == s'
  {
    longer := Run(run.states + [s'], run.steps + [step]);
    forall i | 0 <= i < |longer.steps| ensures Next(c, longer.states[i], longer.steps[i], longer.states[i + 1]) {
      if i < |run.steps| {
        assert Next(c, run.states[i], run.steps[i], run.states[i + 1]);
      }
    }
  }

  function AnAttempt(course: string, user: string): Attempt {
    Attempt(course, user, 0, 0, 0.0, 0.0, 0.0, false)
  }

  /** Everything stored so far was started at second 0, which it still is. */
  ghost predicate AllAtOnce(s: State, course: string, user: string, n: nat) {
    s.now == 0 && Times(s.attempts, course, user) == Same(0, n)
  }

  lemma AllCounted(c: Config, s: State, course: string, user: string, n: nat)
    requires AllAtOnce(s, course, user, n)
    ensures Counted(c, s, course, user) == n && StoredIn(c, s, course, user, 0) == n
  {
    var window := c.cooldownDays(course) * DAY;
    CountSame(0, n, 0 - window, 0);
  }

  lemma StoredAtOnce(c: Config, s: State, course: string, user: string, n: nat)
    requires AllAtOnce(s, course, user, n)
    ensures AllAtOnce(s.(attempts := s.attempts + [AnAttempt(course, user)]), course, user, n + 1)
  {
    OneMoreStored(c, s, AnAttempt(course, user), course, user, 0);
  }

  /** `n` submits one after the other are all stored while the limit is not reached. */
  lemma {:induction false} OneByOne(c: Config, course: string, user: string, n: nat) returns (run: Run)
    requires c.inFlight > 0 && n <= Limit(c, course)
    ensures IsRun(c, run) && Last(run).flights == map[] && AllAtOnce(Last(run), course, user, n)
  {
    if n == 0 {
      run := Run([State(0, [], map[])], []);
    } else {
      run := OneByOne(c, course, user, n - 1);
      var s := Last(run);
      assert InFlight(s, course, user) == {};
      AllCounted(c, s, course, user, n - 1);
      run := Extended(c, run, Begin(0, course, user), s.(flights := map[0 := Flight(course, user, None)]));
      run := Extended(c, run, ReadCount(0), s.(flights := map[0 := Flight(course, user, Some(0))]));
      var a := AnAttempt(course, user);
      StoredAtOnce(c, s, course, user, n - 1);
      run := Extended(c, run, Insert(0, a), State(0, s.attempts + [a], map[]));
    }
  }

  function WaveFlight(course: string, user: string, id: nat, admitted: nat): Flight {
    Flight(course, user, if id < admitted then Some(0) else None)
  }

  /** The flights `from` to `to`, of which those below `admitted` have read the count. */
  function Wave(course: string, user: string, from: nat, to: nat, admitted: nat): map<SubmitId, Flight> {
    map id: nat | from <= id < to :: WaveFlight(course, user, id, admitted)
  }

  lemma WaveGrows(course: string, user: string, n: nat)
    requires n > 0
    ensures Wave(course, user, 0, n, 0) == Wave(course, user, 0, n - 1, 0)[n - 1 := Flight(course, user, None)]
  {
  }

  lemma {:induction false} WaveSize(s: State, course: string, user: string, n: nat)
    requires s.flights == Wave(course, user, 0, n, 0)
    ensures |InFlight(s, course, user)| == n
    decreases n
  {
    if n > 0 {
      var smaller := s.(flights := Wave(course, user, 0, n - 1, 0));
      WaveSize(smaller, course, user, n - 1);
      WaveGrows(course, user, n);
      BeginAddsOne(smaller, n - 1, Flight(course, user, None), course, user);
    } else {
      assert InFlight(s, course, user) == {};
    }
  }

  lemma {:induction false} AllBegin(c: Config, course: string, user: string, n: nat, start: Run) returns (run: Run)
    requires IsRun(c, start) && Last(start).flights == map[] && n <= c.inFlight
    ensures IsRun(c, run) && Last(run) == Last(start).(flights := Wave(course, user, 0, n, 0))
  {
    if n == 0 {
      run := start;
      assert Wave(course, user, 0, 0, 0) == map[];
    } else {
      run := AllBegin(c, course, user, n - 1, start);
      WaveSize(Last(run), course, user, n - 1);
      WaveGrows(course, user, n);
      run := Extended(c, run, Begin(n - 1, course, user), Last(start).(flights := Wave(course, user, 0, n, 0)));
    }
  }

  lemma {:induction false} AllRead(c: Config, course: string, user: string, k: nat, n: nat, start: Run)
    returns (run: Run)
    requires IsRun(c, start) && Last(start).flights == Wave(course, user, 0, k, 0) && n <= k
    requires Last(start).now == 0 && Counted(c, Last(start), course, user) < Limit(c, course)
    ensures IsRun(c, run) && Last(run) == Last(start).(flights := Wave(course, user, 0, k, n))
  {
    if n == 0 {
      run := start;
    } else {
      run := AllRead(c, course, user, k, n - 1, start);
      assert Wave(course, user, 0, k, n - 1)[n - 1 := Flight(course, user, Some(0))] == Wave(course, user, 0, k, n);
      run := Extended(c, run, ReadCount(n - 1), Last(start).(flights := Wave(course, user, 0, k, n)));
    }
  }

  lemma {:induction false} AllInsert(c: Config, course: string, user: string, k: nat, m: nat, n: nat, start: Run)
    returns (run: Run)
    requires IsRun(c, start) && Last(start).flights == Wave(course, user, 0, k, k) && n <= k
    requires AllAtOnce(Last(start), course, user, m)
    ensures IsRun(c, run) && Last(run).flights == Wave(course, user, n, k, k)
    ensures AllAtOnce(Last(run), course, user, m + n)
  {
    if n == 0 {
      run := start;
    } else {
      run := AllInsert(c, course, user, k, m, n - 1, start);
      var s, a := Last(run), AnAttempt(course, user);
      assert Wave(course, user, n - 1, k, k) - {n - 1} == Wave(course, user, n, k, k);
      StoredAtOnce(c, s, course, user, m + n - 1);
      run := Extended(c, run, Insert(n - 1, a), State(0, s.attempts + [a], Wave(course, user, n, k, k)));
    }
  }

  /** For every limit, every cooldown and every number of submits in flight, some interleaving reaches the
      bound. */
  lemma RacingBoundIsReached(c: Config, course: string, user: string) returns (run: Run)
    requires c.inFlight > 0
    ensures IsRun(c, run) && StoredIn(c, Last(run), course, user, 0) == Limit(c, course) + c.inFlight - 1
  {
    var before := Limit(c, course) - 1;
    run := OneByOne(c, course, user, before);
    AllCounted(c, Last(run), course, user, before);
    run := AllBegin(c, course, user, c.inFlight, run);
    run := AllRead(c, course, user, c.inFlight, c.inFlight, run);
    run := AllInsert(c, course, user, c.inFlight, before, c.inFlight, run);
    AllCounted(c, Last(run), course, user, before + c.inFlight);
  }

  ghost predicate LimitAlwaysKept(c: Config, course: string, user: string) {
    forall run, t :: IsRun(c, run) ==> StoredIn(c, Last(run), course, user, t) <= Limit(c, course)
  }

  /** The attempt limit is kept in all interleavings exactly when submits of one user at one course
      never overlap. */
  lemma LimitKeptExactlyWithoutOverlap(c: Config, course: string, user: string)
    ensures LimitAlwaysKept(c, course, user) <==> c.inFlight <= 1
  {
    if c.inFlight <= 1 {
      forall run, t | IsRun(c, run) ensures StoredIn(c, Last(run), course, user, t) <= Limit(c, course) {
        RaceInvHolds(c, run, |run.states| - 1, course, user, t);
      }
    } else {
      var run := RacingBoundIsReached(c, course, user);
    }
  }
}
