/** The attempt limit over whole runs: how many attempts a moving window can hold, and when a refused
    user can submit again. */
module AttemptLimitRuns {
  import opened Basics
  import opened Text
  import opened SlidingWindow
  import opened Lms
  import opened Submissions
  import opened LmsRuns

  // ---------- The sliding window ----------

  /** The settings are at least as strict as `max` attempts in `window` seconds. */
  predicate Strict(course: Course, window: int, max: nat) {
    EffectiveMaxAttempts(course.maxAttempts) <= max && (course.cooldownDays <= 0 || course.cooldownDays * DAY >= window)
  }

  ghost predicate StrictThroughout(run: Run, course: string, window: int, max: nat) {
    forall i :: 0 <= i < |run.states| && course in run.states[i].db.courses ==>
      Strict(run.states[i].db.courses[course], window, max)
  }

  predicate StartWithin(s: State, step: Step, slack: nat) {
    step.Submit? && step.submission.startedAt.Some? ==> step.submission.startedAt.value >= s.now - slack
  }

  /** No starting time sent by a client lies more than `slack` seconds before its submit. */
  ghost predicate BackdatedAtMost(run: Run, slack: nat)
    requires |run.steps| < |run.states|
  {
    forall i :: 0 <= i < |run.steps| ==> StartWithin(run.states[i], run.steps[i], slack)
  }

  ghost predicate WindowInv(s: State, course: string, user: string, window: int, max: nat) {
    Admitted(Times(s.db.attempts, course, user), window, max)
  }

  lemma {:induction false} CountAfterAtMostAll(times: seq<int>, cut: int)
    ensures CountAfter(times, cut) <= |times|
  {
    if times != [] {
      CountAfterAtMostAll(times[..|times| - 1], cut);
    }
  }

  lemma GateRespectsWindow(db: Db, now: int, s: Submission, window: int, max: nat)
    requires Gate(db, now, s).None? && Strict(db.courses[Trim(s.course)], window, max)
    ensures CountAfter(Times(db.attempts, Trim(s.course), Trim(s.user)), now - window) < max
  {
    var times := Times(db.attempts, Trim(s.course), Trim(s.user));
    var cooldown := db.courses[Trim(s.course)].cooldownDays;
    CountAfterAtMostAll(times, now - window);
    if cooldown > 0 {
      CountAfterMonotone(times, now - window, now - cooldown * DAY);
    }
  }

  lemma OneMoreAttempt(attempts: seq<Attempt>, a: Attempt, course: string, user: string)
    ensures Times(attempts + [a], course, user)
         == if a.course == course && a.user == user then Times(attempts, course, user) + [a.startedAt]
            else Times(attempts, course, user)
  {
    assert (attempts + [a])[..|attempts|] == attempts;
    assert Times(attempts, course, user) + [] == Times(attempts, course, user);
  }

  lemma OtherStepsRecordNothing(s: State, step: Step, s': State)
    requires Next(s, step, s') && (step.Submit? ==> Submitted(s.db, s.now, step.submission).Err?)
    ensures s'.db.attempts == s.db.attempts && s.now <= s'.now
  {
  }

  lemma SubmitRecordsOne(s: State, step: Step, s': State)
    requires Next(s, step, s') && step.Submit? && Submitted(s.db, s.now, step.submission).Ok?
    ensures s'.db.attempts == s.db.attempts + [Submitted(s.db, s.now, step.submission).value] && s.now == s'.now
  {
  }

  lemma RecordingKeepsWindow(s: State, s': State, a: Attempt, course: string, user: string, window: int, max: nat)
    requires WindowInv(s, course, user, window, max) && s'.now == s.now && s'.db.attempts == s.db.attempts + [a]
    requires a.course == course && a.user == user ==>
               a.startedAt >= s.now && CountAfter(Times(s.db.attempts, course, user), s.now - window) < max
    ensures WindowInv(s', course, user, window, max)
  {
    OneMoreAttempt(s.db.attempts, a, course, user);
    if a.course == course && a.user == user {
      CountAfterMonotone(Times(s.db.attempts, course, user), a.startedAt - window, s.now - window);
      AdmittedAppend(Times(s.db.attempts, course, user), a.startedAt, window, max);
    }
  }

  lemma StepKeepsWindow(s: State, step: Step, s': State, course: string, user: string, window: int, max: nat)
    requires WindowInv(s, course, user, window, max) && Next(s, step, s')
    requires course in s.db.courses ==> Strict(s.db.courses[course], window, max)
    requires StartWithin(s, step, 0)
    ensures WindowInv(s', course, user, window, max)
  {
    if step.Submit? && Submitted(s.db, s.now, step.submission).Ok? {
      SubmitRecordsOne(s, step, s');
      var a := Submitted(s.db, s.now, step.submission).value;
      if a.course == course && a.user == user {
        GateRespectsWindow(s.db, s.now, step.submission, window, max);
      }
      RecordingKeepsWindow(s, s', a, course, user, window, max);
    } else {
      OtherStepsRecordNothing(s, step, s');
    }
  }

  /** The two hypotheses about a run, at one step. */
  lemma StepObeys(run: Run, i: nat, course: string, window: int, max: nat)
    requires IsRun(run) && i < |run.steps|
    requires StrictThroughout(run, course, window, max) && BackdatedAtMost(run, 0)
    ensures Next(run.states[i], run.steps[i], run.states[i + 1]) && StartWithin(run.states[i], run.steps[i], 0)
    ensures course in run.states[i].db.courses ==> Strict(run.states[i].db.courses[course], window, max)
  {
  }

  lemma {:induction false} WindowInvHolds(run: Run, i: nat, course: string, user: string, window: int, max: nat)
    requires IsRun(run) && i < |run.states|
    requires StrictThroughout(run, course, window, max) && BackdatedAtMost(run, 0)
    ensures WindowInv(run.states[i], course, user, window, max)
  {
    if i > 0 {
      WindowInvHolds(run, i - 1, course, user, window, max);
      StepObeys(run, i - 1, course, window, max);
      StepKeepsWindow(run.states[i - 1], run.steps[i - 1], run.states[i], course, user, window, max);
    }
  }

  /** The attempts of a user at a course with a starting time in (t - cooldown, t]. */
  function InWindow(s: State, course: string, user: string, window: int, t: int): nat {
    CountIn(Times(s.db.attempts, course, user), t - window, t)
  }

  /** Over whole runs, every interval of the length of the cooldown holds at most the allowed number
      of attempts of one user at one course, even while the settings change, as long as they
      never become laxer than that and no client sends a starting time in the past. */
  lemma AttemptWindowBound(run: Run, i: nat, course: string, user: string, window: int, max: nat, t: int)
    requires IsRun(run) && i < |run.states|
    requires StrictThroughout(run, course, window, max) && BackdatedAtMost(run, 0)
    ensures InWindow(run.states[i], course, user, window, t) <= max
  {
    WindowInvHolds(run, i, course, user, window, max);
    WindowBound(Times(run.states[i].db.attempts, course, user), window, max, t);
  }

  // ---------- The unlock time ----------

  predicate LimitIs(course: Course, cooldownDays: int, max: nat) {
    course.cooldownDays == cooldownDays && EffectiveMaxAttempts(course.maxAttempts) == max
  }

  /** Cooldown and limit of the course stay as they are. */
  ghost predicate FixedLimit(run: Run, course: string, cooldownDays: int, max: nat) {
    forall i :: 0 <= i < |run.states| && course in run.states[i].db.courses ==>
      LimitIs(run.states[i].db.courses[course], cooldownDays, max)
  }

  /** The limit check never sees more attempts than the limit, whatever starting times clients send. */
  ghost predicate NeverOver(s: State, course: string, user: string, cooldownDays: int, max: nat) {
    CountSince(Times(s.db.attempts, course, user), WindowStart(s.now, cooldownDays)) <= max
  }

  lemma CountSinceMore(times: seq<int>, time: int, since: Option<int>)
    ensures CountSince(times + [time], since) <= CountSince(times, since) + 1
  {
    assert (times + [time])[..|times|] == times;
  }

  lemma SubmitNeverOver(s: State, step: Step, s': State, course: string, user: string, cooldownDays: int, max: nat)
    requires Next(s, step, s') && step.Submit? && Submitted(s.db, s.now, step.submission).Ok?
    requires NeverOver(s, course, user, cooldownDays, max)
    requires course in s.db.courses ==> LimitIs(s.db.courses[course], cooldownDays, max)
    ensures NeverOver(s', course, user, cooldownDays, max)
  {
    SubmitRecordsOne(s, step, s');
    var a := Submitted(s.db, s.now, step.submission).value;
    OneMoreAttempt(s.db.attempts, a, course, user);
    CountSinceMore(Times(s.db.attempts, course, user), a.startedAt, WindowStart(s.now, cooldownDays));
  }

  lemma WaitingNeverOver(s: State, s': State, course: string, user: string, cooldownDays: int, max: nat)
    requires NeverOver(s, course, user, cooldownDays, max) && s.now <= s'.now && s'.db.attempts == s.db.attempts
    ensures NeverOver(s', course, user, cooldownDays, max)
  {
    if cooldownDays > 0 {
      CountAfterMonotone(Times(s.db.attempts, course, user), s'.now - cooldownDays * DAY, s.now - cooldownDays * DAY);
    }
  }

  lemma {:induction false} NeverOverHolds(run: Run, i: nat, course: string, user: string, cooldownDays: int, max: nat)
    requires IsRun(run) && i < |run.states| && FixedLimit(run, course, cooldownDays, max)
    ensures NeverOver(run.states[i], course, user, cooldownDays, max)
  {
    if i > 0 {
      var s, step, s' := run.states[i - 1], run.steps[i - 1], run.states[i];
      NeverOverHolds(run, i - 1, course, user, cooldownDays, max);
      assert Next(s, step, s');
      if step.Submit? && Submitted(s.db, s.now, step.submission).Ok? {
        SubmitNeverOver(s, step, s', course, user, cooldownDays, max);
      } else {
        OtherStepsRecordNothing(s, step, s');
        WaitingNeverOver(s, s', course, user, cooldownDays, max);
      }
    }
  }

  lemma {:induction false} NothingRecorded(before: seq<Attempt>, after: seq<Attempt>, course: string, user: string)
    requires RecordsNone(before, after, course, user)
    ensures Times(after, course, user) == Times(before, course, user)
    decreases |after|
  {
    if |before| < |after| {
      NothingRecorded(before, after[..|after| - 1], course, user);
    } else {
      assert before == after;
    }
  }

  /** The reported moment is exact: every submit before it is refused, and from it on, with nothing
      recorded in between, the limit lets a submit through. This holds whatever starting times
      clients send. */
  lemma UnlockIsExact(run: Run, i: nat, j: nat, s: Submission, again: Submission, cooldownDays: int, max: nat)
    requires IsRun(run) && i <= j < |run.states|
    requires FixedLimit(run, Trim(s.course), cooldownDays, max)
    requires NamesUnlock(run.states[i].db, run.states[i].now, s)
    requires Trim(again.course) == Trim(s.course) && Trim(again.user) == Trim(s.user)
    ensures var before, after := run.states[i], run.states[j];
            var unlock := Gate(before.db, before.now, s).value.unlockAt.value;
            && (after.now < unlock ==> Gate(after.db, after.now, again).Some?)
            && (after.now >= unlock
                && RecordsNone(before.db.attempts, after.db.attempts, Trim(s.course), Trim(s.user)) ==>
                  !(Gate(after.db, after.now, again).Some? && Gate(after.db, after.now, again).value.LimitReached?))
  {
    var before, after := run.states[i], run.states[j];
    var course, user := Trim(s.course), Trim(s.user);
    var unlock := Gate(before.db, before.now, s).value.unlockAt.value;
    RunExtends(run, i, j);
    assert LimitIs(before.db.courses[course], cooldownDays, max);
    if after.now < unlock {
      assert LimitIs(after.db.courses[course], cooldownDays, max);
      RefusedUntilUnlock(before.db, before.now, s, after.db, after.now, again);
    } else if RecordsNone(before.db.attempts, after.db.attempts, course, user) {
      NeverOverHolds(run, i, course, user, cooldownDays, max);
      AdmittedFromUnlock(before.db, before.now, s, after.now);
      NothingRecorded(before.db.attempts, after.db.attempts, course, user);
    }
  }
}
