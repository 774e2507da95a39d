/** Runs that show where the properties of whole runs end: certificates issued by hand or by overlapping
    requests, starting times in the past, and a limit lowered between two submits. */
module LmsWitnesses {
  import opened Basics
  import opened Text
  import opened SlidingWindow
  import opened QuizValidation
  import opened Grading
  import opened PassableQuiz
  import opened Lms
  import opened Certificates
  import opened Submissions
  import opened LmsRuns
  import opened AttemptLimitRuns
  import RacingIssues

  // ---------- Building runs ----------

  function Last(run: Run): State
    requires |run.states| > 0
  {
    run.states[|run.states| - 1]
  }

  /** A run so far, with the hypotheses of the limit theorems. */
  ghost predicate Steady(run: Run, course: string, cooldownDays: int, max: nat, slack: nat) {
    IsRun(run) && FixedLimit(run, course, cooldownDays, max) && BackdatedAtMost(run, slack)
  }

  lemma Longer(run: Run, step: Step, s': State) returns (longer: Run)
    requires IsRun(run) && Next(Last(run), step, s')
    ensures longer == Run(run.states + [s'], run.steps + [step])
    ensures IsRun(longer) && Last(longer) == s'
  {
    longer := Run(run.states + [s'], run.steps + [step]);
    forall i | 0 <= i < |longer.steps| ensures Next(longer.states[i], longer.steps[i], longer.states[i + 1]) {
      if i < |run.steps| {
        assert Next(run.states[i], run.steps[i], run.states[i + 1]);
      }
    }
  }

  lemma LongerSteady(run: Run, step: Step, s': State, course: string, cooldownDays: int, max: nat, slack: nat)
    returns (longer: Run)
    requires Steady(run, course, cooldownDays, max, slack) && Next(Last(run), step, s')
    requires course in s'.db.courses ==> LimitIs(s'.db.courses[course], cooldownDays, max)
    requires StartWithin(Last(run), step, slack)
    ensures Steady(longer, course, cooldownDays, max, slack) && Last(longer) == s'
  {
    longer := Longer(run, step, s');
    forall i | 0 <= i < |longer.steps| ensures StartWithin(longer.states[i], longer.steps[i], slack) {
      if i < |run.steps| {
        assert StartWithin(run.states[i], run.steps[i], slack);
      }
    }
    forall i | 0 <= i < |longer.states| && course in longer.states[i].db.courses
      ensures LimitIs(longer.states[i].db.courses[course], cooldownDays, max)
    {
      if i < |run.states| {
        assert longer.states[i] == run.states[i];
      }
    }
  }

  const FIVE_FAILED_DRAWS: seq<Draw> := [NoRandom, NoRandom, NoRandom, NoRandom, NoRandom]

  const NO_CHOICES := Choices(None, None, FIVE_FAILED_DRAWS)

  // ---------- Submits that fail ----------

  /** A course without questions: whatever is handed in fails, and issues nothing. */
  function EmptyCourse(maxAttempts: int, cooldownDays: int): Course {
    Course([], 80, maxAttempts, cooldownDays, true)
  }

  function EmptySubmit(course: string, user: string, startedAt: Option<int>): Submission {
    Submission(course, user, startedAt, [Answer("q", [], None, None)])
  }

  function FailedAttempt(course: string, user: string, startedAt: int, now: int): Attempt {
    Attempt(course, user, startedAt, now, 0.0, 0.0, 0.0, false)
  }

  predicate Named(course: string, user: string) {
    Trim(course) == course != "" && Trim(user) == user != ""
  }

  lemma EmptySheetAccepted()
    ensures NormalizeSheet([Answer("q", [], None, None)]).Ok?
  {
    TrimOfTrimmed("q");
    DistinctSheetAccepted([Answer("q", [], None, None)]);
  }

  lemma NothingEarned(sheet: seq<Answer>, course: string, user: string, startedAt: int, now: int)
    ensures Graded([], 80, sheet, course, user, startedAt, now) == FailedAttempt(course, user, startedAt, now)
  {
    assert Round(0.0) == 0;
    assert RoundToTwo(0.0) == 0.0;
  }

  /** While the limit is open, such a submit records one failed attempt. */
  lemma EmptySubmitFails(s: State, course: string, user: string, startedAt: Option<int>, maxAttempts: int,
                         cooldownDays: int)
    requires Named(course, user) && course in s.db.courses
    requires s.db.courses[course] == EmptyCourse(maxAttempts, cooldownDays)
    requires s.db.certificates == [] && Counted(s.db, s.now, course, user) < EffectiveMaxAttempts(maxAttempts)
    ensures var a := FailedAttempt(course, user, if startedAt.Some? then startedAt.value else s.now, s.now);
            Next(s, Submit(EmptySubmit(course, user, startedAt), NO_CHOICES), s.(db := WithAttempt(s.db, a)))
  {
    EmptySheetAccepted();
    var sub := EmptySubmit(course, user, startedAt);
    assert Gate(s.db, s.now, sub).None?;
    var began := if startedAt.Some? then startedAt.value else s.now;
    NothingEarned(NormalizeSheet(sub.answers).value, course, user, began, s.now);
  }

  function Repeated(a: Attempt, n: nat): (attempts: seq<Attempt>)
    ensures |attempts| == n
  {
    if n == 0 then [] else Repeated(a, n - 1) + [a]
  }

  lemma {:induction false} RepeatedTimes(a: Attempt, n: nat)
    ensures Times(Repeated(a, n), a.course, a.user) == Same(a.startedAt, n)
  {
    if n > 0 {
      RepeatedTimes(a, n - 1);
      OneMoreAttempt(Repeated(a, n - 1), a, a.course, a.user);
    }
  }

  function After(course: string, settings: Course, attempts: seq<Attempt>, now: int): State {
    State(now, Db(map[course := settings], [], attempts, []))
  }

  lemma Opening(course: string, settings: Course, max: nat, slack: nat) returns (run: Run)
    requires max == EffectiveMaxAttempts(settings.maxAttempts)
    ensures Steady(run, course, settings.cooldownDays, max, slack) && Last(run) == After(course, settings, [], 0)
  {
    var first := Run([State(0, EMPTY_DB)], []);
    run := LongerSteady(first, CreateCourse(course, settings), After(course, settings, [], 0),
                        course, settings.cooldownDays, max, slack);
  }

  /** The first submits at time 0 are all recorded, up to the limit. */
  lemma {:induction false} SubmitsAtOnce(course: string, user: string, max: nat, cooldownDays: int, slack: nat, n: nat)
    returns (run: Run)
    requires Named(course, user) && 0 < max && n <= max && cooldownDays > 0
    ensures Steady(run, course, cooldownDays, max, slack)
    ensures Last(run)
         == After(course, EmptyCourse(max, cooldownDays), Repeated(FailedAttempt(course, user, 0, 0), n), 0)
  {
    var settings, a := EmptyCourse(max, cooldownDays), FailedAttempt(course, user, 0, 0);
    if n == 0 {
      run := Opening(course, settings, max, slack);
    } else {
      run := SubmitsAtOnce(course, user, max, cooldownDays, slack, n - 1);
      RepeatedTimes(a, n - 1);
      CountSame(0, n - 1, 0 - cooldownDays * DAY, 0);
      EmptySubmitFails(Last(run), course, user, None, max, cooldownDays);
      run := LongerSteady(run, Submit(EmptySubmit(course, user, None), NO_CHOICES),
                          After(course, settings, Repeated(a, n), 0),
                          course, cooldownDays, max, slack);
    }
  }

  /** Nothing happens for a while. */
  lemma {:induction false} Wait(start: Run, seconds: nat, course: string, cooldownDays: int, max: nat, slack: nat)
    returns (run: Run)
    requires Steady(start, course, cooldownDays, max, slack)
    ensures Steady(run, course, cooldownDays, max, slack) && Last(run) == Last(start).(now := Last(start).now + seconds)
  {
    if seconds == 0 {
      run := start;
    } else {
      run := Wait(start, seconds - 1, course, cooldownDays, max, slack);
      var s := Last(run);
      assert course in s.db.courses ==> LimitIs(s.db.courses[course], cooldownDays, max);
      run := LongerSteady(run, Tick, s.(now := s.now + 1), course, cooldownDays, max, slack);
    }
  }

  // ---------- Starting times in the past ----------

  lemma LateCount(n: nat, window: int)
    requires window > 0
    ensures CountAfter(Same(0, n), 0) == 0
    ensures CountIn(Same(0, n) + [window - 1], -1, window - 1) == n + 1
  {
    CountSame(0, n, 0, window);
    CountSame(0, n, -1, window - 1);
    assert (Same(0, n) + [window - 1])[..n] == Same(0, n);
  }

  /** The attempts of time 0 have left the window at its length. */
  lemma OpenAgain(course: string, user: string, max: nat, cooldownDays: int)
    requires 0 < max && cooldownDays > 0
    ensures var s := After(course, EmptyCourse(max, cooldownDays), Repeated(FailedAttempt(course, user, 0, 0), max),
                           cooldownDays * DAY);
            Counted(s.db, s.now, course, user) == 0
  {
    RepeatedTimes(FailedAttempt(course, user, 0, 0), max);
    LateCount(max, cooldownDays * DAY);
  }

  /** While the limit is open, an attempt is recorded as started when the client says. */
  lemma LateSubmit(course: string, user: string, max: nat, cooldownDays: int, slack: nat, start: Run, began: int)
    returns (run: Run)
    requires Named(course, user) && 0 < max && Steady(start, course, cooldownDays, max, slack)
    requires var s := Last(start);
             && course in s.db.courses && s.db.courses[course] == EmptyCourse(max, cooldownDays)
             && s.db.certificates == [] && Counted(s.db, s.now, course, user) < max && began >= s.now - slack
    ensures Steady(run, course, cooldownDays, max, slack)
    ensures Last(run).db.attempts == Last(start).db.attempts + [FailedAttempt(course, user, began, Last(start).now)]
  {
    var s := Last(start);
    EmptySubmitFails(s, course, user, Some(began), max, cooldownDays);
    run := LongerSteady(start, Submit(EmptySubmit(course, user, Some(began)), NO_CHOICES),
                        s.(db := WithAttempt(s.db, FailedAttempt(course, user, began, s.now))),
                        course, cooldownDays, max, slack);
  }

  lemma LateWindow(s: State, course: string, user: string, max: nat, window: int)
    requires window > 0
    requires s.db.attempts
          == Repeated(FailedAttempt(course, user, 0, 0), max) + [FailedAttempt(course, user, window - 1, window)]
    ensures InWindow(s, course, user, window, window - 1) == max + 1
  {
    var a := FailedAttempt(course, user, 0, 0);
    RepeatedTimes(a, max);
    OneMoreAttempt(Repeated(a, max), FailedAttempt(course, user, window - 1, window), course, user);
    LateCount(max, window);
  }

  /** With a starting time one second in the past, an interval of the cooldown can hold one attempt more
      than the limit. */
  lemma BackdatingEscapes(course: string, user: string, max: nat, cooldownDays: int, slack: nat) returns (run: Run)
    requires Named(course, user) && 0 < max && cooldownDays > 0 && slack > 0
    ensures Steady(run, course, cooldownDays, max, slack)
    ensures InWindow(Last(run), course, user, cooldownDays * DAY, cooldownDays * DAY - 1) == max + 1
  {
    run := SubmitsAtOnce(course, user, max, cooldownDays, slack, max);
    run := Wait(run, cooldownDays * DAY, course, cooldownDays, max, slack);
    OpenAgain(course, user, max, cooldownDays);
    run := LateSubmit(course, user, max, cooldownDays, slack, run, cooldownDays * DAY - 1);
    LateWindow(Last(run), course, user, max, cooldownDays * DAY);
  }

  /** The window bound over all runs in which clients backdate by at most `slack` seconds. */
  ghost predicate WindowAlwaysKept(course: string, user: string, max: nat, cooldownDays: int, slack: nat) {
    forall run, t :: Steady(run, course, cooldownDays, max, slack) ==>
      InWindow(Last(run), course, user, cooldownDays * DAY, t) <= max
  }

  lemma FixedIsStrict(run: Run, course: string, cooldownDays: int, max: nat)
    requires FixedLimit(run, course, cooldownDays, max)
    ensures StrictThroughout(run, course, cooldownDays * DAY, max)
  {
    forall i | 0 <= i < |run.states| && course in run.states[i].db.courses
      ensures Strict(run.states[i].db.courses[course], cooldownDays * DAY, max)
    {
      assert LimitIs(run.states[i].db.courses[course], cooldownDays, max);
    }
  }

  /** Under a cooldown the window bound holds in all runs exactly when no starting time lies in the past. */
  lemma WindowKeptExactlyWithoutBackdating(course: string, user: string, max: nat, cooldownDays: int, slack: nat)
    requires Named(course, user) && 0 < max && cooldownDays > 0
    ensures WindowAlwaysKept(course, user, max, cooldownDays, slack) <==> slack == 0
  {
    if slack == 0 {
      forall run, t | Steady(run, course, cooldownDays, max, slack)
        ensures InWindow(Last(run), course, user, cooldownDays * DAY, t) <= max
      {
        FixedIsStrict(run, course, cooldownDays, max);
        AttemptWindowBound(run, |run.states| - 1, course, user, cooldownDays * DAY, max, t);
      }
    } else {
      var run := BackdatingEscapes(course, user, max, cooldownDays, slack);
      assert InWindow(Last(run), course, user, cooldownDays * DAY, cooldownDays * DAY - 1) > max;
    }
  }

  // ---------- A lowered limit ----------

  lemma UsedUp(course: string, user: string) returns (run: Run)
    requires Named(course, user)
    ensures IsRun(run)
    ensures Last(run) == After(course, EmptyCourse(2, 1),
                               [FailedAttempt(course, user, 0, 0), FailedAttempt(course, user, 1, 1)], 1)
  {
    var first, second := FailedAttempt(course, user, 0, 0), FailedAttempt(course, user, 1, 1);
    var settings := EmptyCourse(2, 1);
    run := SubmitsAtOnce(course, user, 2, 1, 0, 1);
    assert Repeated(first, 1) == [first];
    run := Longer(run, Tick, After(course, settings, [first], 1));
    RepeatedTimes(first, 1);
    CountSame(0, 1, 1 - DAY, 1);
    EmptySubmitFails(Last(run), course, user, None, 2, 1);
    assert [first] + [second] == [first, second];
    run := Longer(run, Submit(EmptySubmit(course, user, None), NO_CHOICES),
                  After(course, settings, [first, second], 1));
  }

  lemma {:induction false} WaitFrom(start: Run, seconds: nat) returns (run: Run)
    requires IsRun(start)
    ensures IsRun(run) && Last(run) == Last(start).(now := Last(start).now + seconds)
    ensures start.states <= run.states
  {
    if seconds == 0 {
      run := start;
    } else {
      run := WaitFrom(start, seconds - 1);
      run := Longer(run, Tick, Last(run).(now := Last(run).now + 1));
    }
  }

  lemma TwoTimes(course: string, user: string)
    ensures Times([FailedAttempt(course, user, 0, 0), FailedAttempt(course, user, 1, 1)], course, user) == [0, 1]
  {
    var first, second := FailedAttempt(course, user, 0, 0), FailedAttempt(course, user, 1, 1);
    OneMoreAttempt([], first, course, user);
    OneMoreAttempt([first], second, course, user);
    assert [] + [first] == [first] && [first] + [second] == [first, second];
  }

  lemma CountTwo(cut: int)
    ensures CountAfter([0, 1], cut) == (if cut < 0 then 2 else if cut < 1 then 1 else 0)
    ensures cut < 0 ==> EarliestSince([0, 1], Some(cut)) == Some(0)
  {
    assert [0, 1][..1] == [0] && [0][..0] == [];
    assert CountAfter([0], cut) == (if cut < 0 then 1 else 0);
    assert cut < 0 ==> EarliestSince([0], Some(cut)) == Some(0);
  }

  lemma RefusedAt(course: string, user: string, now: int)
    requires Named(course, user) && 1 <= now <= DAY
    ensures var db := After(course, EmptyCourse(1, 1),
                            [FailedAttempt(course, user, 0, 0), FailedAttempt(course, user, 1, 1)], now).db;
            var gate := Gate(db, now, EmptySubmit(course, user, None));
            gate.Some? && (now < DAY ==> gate == Some(LimitReached(Some(DAY))))
  {
    EmptySheetAccepted();
    TwoTimes(course, user);
    CountTwo(now - DAY);
  }

  /** A limit of two is used up at seconds 0 and 1 and then lowered to one. The refusal at second 1
      reports the moment one day after the first attempt, and at that moment the second attempt still
      fills the window. So the reported moment can be too early. */
  lemma LoweredLimitUnlocksTooEarly(course: string, user: string) returns (run: Run, i: nat)
    requires Named(course, user)
    ensures IsRun(run) && i < |run.states| && Last(run).now == DAY
    ensures var sub := EmptySubmit(course, user, None);
            && NamesUnlock(run.states[i].db, run.states[i].now, sub)
            && Gate(run.states[i].db, run.states[i].now, sub).value.unlockAt == Some(DAY)
            && RecordsNone(run.states[i].db.attempts, Last(run).db.attempts, course, user)
            && Gate(Last(run).db, Last(run).now, sub).Some?
  {
    run := UsedUp(course, user);
    var two := [FailedAttempt(course, user, 0, 0), FailedAttempt(course, user, 1, 1)];
    i := |run.steps| + 1;
    run := Longer(run, UpdateCourse(course, EmptyCourse(1, 1)), After(course, EmptyCourse(1, 1), two, 1));
    var before := run;
    run := WaitFrom(run, DAY - 1);
    RefusedAt(course, user, 1);
    RefusedAt(course, user, DAY);
    assert run.states[i] == before.states[i];
  }

  // ---------- Certificates issued by hand ----------

  const FIRST_DRAWS: seq<Draw> := [Drawn("1", "1", true), NoRandom, NoRandom, NoRandom, NoRandom]

  const SECOND_DRAWS: seq<Draw> := [Drawn("2", "2", true), NoRandom, NoRandom, NoRandom, NoRandom]

  /** Before enrolling, a user passes twice, which issues nothing. */
  lemma PassesUnenrolled(s: State, course: string, user: string, settings: Course, sheet: seq<Answer>)
    requires Named(course, user) && course in s.db.courses && s.db.courses[course] == settings
    requires FullMarks(settings.questions, sheet, settings.passPercent)
    requires s.db.enrollments == [] && s.db.certificates == []
    requires Counted(s.db, s.now, course, user) < EffectiveMaxAttempts(settings.maxAttempts)
    ensures var sub := Submission(course, user, None, sheet);
            && Submitted(s.db, s.now, sub).Ok? && PassedBy(Submitted(s.db, s.now, sub).value, course, user)
            && Next(s, Submit(sub, NO_CHOICES), s.(db := WithAttempt(s.db, Submitted(s.db, s.now, sub).value)))
  {
    var sub := Submission(course, user, None, sheet);
    assert Gate(s.db, s.now, sub).None?;
    assert Submitted(s.db, s.now, sub) == Ok(AttemptOf(s.db, s.now, sub));
  }

  /** A passed attempt of an enrolled user, without a certificate for the pair and with a free draw, is
      certified on request. */
  lemma CertifiedByHand(s: State, attempt: nat, draws: seq<Draw>)
    requires |s.db.enrollments| == 1 && attempt < |s.db.attempts| && |draws| == DRAWS
    requires var e := s.db.enrollments[0];
             && e.status.Active? && e.course in s.db.courses && s.db.courses[e.course].certificateEnabled
             && PassedBy(s.db.attempts[attempt], e.course, e.user)
    requires !PairCertified(s.db, 0, attempt) && Fits(s.db, draws[0])
    ensures var e := s.db.enrollments[0];
            var c := Certificate(0, e.user, e.course, attempt, draws[0].serial, draws[0].verifyHash);
            Next(s, AdminCertify(0, attempt, draws), s.(db := s.db.(certificates := s.db.certificates + [c])))
  {
    assert DrawLoop(s.db, draws) == Ok(draws[0]);
  }

  lemma PassedTwice(course: string, user: string, settings: Course, sheet: seq<Answer>) returns (run: Run)
    requires Named(course, user) && EffectiveMaxAttempts(settings.maxAttempts) >= 2
    requires FullMarks(settings.questions, sheet, settings.passPercent)
    ensures IsRun(run)
    ensures var db := Last(run).db;
            && db.courses == map[course := settings] && db.enrollments == [] && db.certificates == []
            && |db.attempts| == 2 && PassedBy(db.attempts[0], course, user) && PassedBy(db.attempts[1], course, user)
  {
    run := Opening(course, settings, EffectiveMaxAttempts(settings.maxAttempts), 0);
    var sub := Submission(course, user, None, sheet);
    var empty := Last(run);
    PassesUnenrolled(empty, course, user, settings, sheet);
    var a := Submitted(empty.db, empty.now, sub).value;
    assert [] + [a] == [a];
    run := Longer(run, Submit(sub, NO_CHOICES), After(course, settings, [a], 0));
    var once := Last(run);
    OneMoreAttempt([], a, course, user);
    CountSinceMore([], a.startedAt, WindowStart(0, settings.cooldownDays));
    PassesUnenrolled(once, course, user, settings, sheet);
    var b := Submitted(once.db, once.now, sub).value;
    run := Longer(run, Submit(sub, NO_CHOICES), After(course, settings, [a] + [b], 0));
  }

  /** A user who passes twice before enrolling can be certified twice for one course by hand. */
  lemma TwoByHand(course: string, user: string, settings: Course, sheet: seq<Answer>) returns (run: Run)
    requires Named(course, user) && settings.certificateEnabled && EffectiveMaxAttempts(settings.maxAttempts) >= 2
    requires FullMarks(settings.questions, sheet, settings.passPercent)
    ensures IsRun(run) && !OneEach(Last(run).db)
  {
    run := PassedTwice(course, user, settings, sheet);
    var s := Last(run);
    var e := Enrollment(course, user, Active, s.now, None);
    run := Longer(run, Enroll(course, user), s.(db := s.db.(enrollments := [e])));
    CertifiedByHand(Last(run), 0, FIRST_DRAWS);
    var c := Certificate(0, user, course, 0, "1", "1");
    assert Last(run).db.certificates + [c] == [c];
    run := Longer(run, AdminCertify(0, 0, FIRST_DRAWS), Last(run).(db := Last(run).db.(certificates := [c])));
    CertifiedByHand(Last(run), 1, SECOND_DRAWS);
    var d := Certificate(0, user, course, 1, "2", "2");
    run := Longer(run, AdminCertify(0, 1, SECOND_DRAWS), Last(run).(db := Last(run).db.(certificates := [c] + [d])));
    assert SameHolder(([c] + [d])[0], ([c] + [d])[1]);
  }

  /** Some run certifies a user twice for one course. */
  lemma SecondCertificateIsReachable() returns (run: Run)
    ensures IsRun(run) && !OneEach(Last(run).db)
  {
    var given := Settings(80, 0, 2, 0);
    TrimOfTrimmed("a");
    var sheet := WholePointCanBePassed(given, "a");
    var questions := Stored([TrueFalseQuestion(1.0, TrueFalseConfig(true))], ["a"]);
    run := TwoByHand("a", "a", Course(questions, 80, 2, 0, true), sheet);
  }

  // ---------- Certificates issued by overlapping requests ----------

  /** A user who passes and then enrolls is due a certificate. */
  lemma DueAfterEnrolling(course: string, user: string, settings: Course, sheet: seq<Answer>) returns (run: Run)
    requires Named(course, user) && settings.certificateEnabled
    requires FullMarks(settings.questions, sheet, settings.passPercent)
    ensures IsRun(run) && RacingIssues.Issuable(Last(run).db, 0, 0) && Last(run).db.certificates == []
  {
    run := Opening(course, settings, EffectiveMaxAttempts(settings.maxAttempts), 0);
    var sub := Submission(course, user, None, sheet);
    var empty := Last(run);
    PassesUnenrolled(empty, course, user, settings, sheet);
    var a := Submitted(empty.db, empty.now, sub).value;
    assert [] + [a] == [a];
    run := Longer(run, Submit(sub, NO_CHOICES), After(course, settings, [a], 0));
    var e := Enrollment(course, user, Active, 0, None);
    run := Longer(run, Enroll(course, user), Last(run).(db := Last(run).db.(enrollments := [e])));
    assert Last(run).db.attempts == [a];
    assert IsBestPassed(Last(run).db, course, user, 0);
  }

  /** From a reachable database two overlapping automatic issuings certify one enrollment twice, for the same
      attempt. */
  lemma OverlapCertifiesTwice() returns (run: Run, race: RacingIssues.Run)
    ensures IsRun(run) && RacingIssues.IsRun(race, 0, 2) && race.states[0].db == Last(run).db
    ensures RacingIssues.CertificatesOf(RacingIssues.Last(race).db.certificates, 0) == 2
  {
    var given := Settings(80, 0, 1, 0);
    TrimOfTrimmed("a");
    var sheet := WholePointCanBePassed(given, "a");
    var questions := Stored([TrueFalseQuestion(1.0, TrueFalseConfig(true))], ["a"]);
    run := DueAfterEnrolling("a", "a", Course(questions, 80, 1, 0, true), sheet);
    race := RacingIssues.RacingIssuesBoundIsReached(Last(run).db, 0, 0, [FIRST_DRAWS[0], SECOND_DRAWS[0]]);
  }
}
