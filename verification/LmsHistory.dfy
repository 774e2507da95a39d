/** What every run records, row by row: attempts with their totals, enrollments with their completion, and
    certificates with what they were issued for. */
module LmsHistory {
  import opened Basics
  import opened Text
  import opened Grading
  import opened GradingTheorems
  import opened Lms
  import opened Certificates
  import opened Enrollments
  import opened Submissions
  import opened LmsRuns

  // ---------- Attempts ----------

  /** The attempt is what the submit should leave behind: who, where and when, the rounded sum of the points of the
      course, the rounded sum over the questions that the cleaned sheet answers rightly, the percentage, and
      whether it reaches the pass mark, which is 80 if the course has none. */
  ghost predicate Records(course: Course, now: int, s: Submission, a: Attempt) {
    && a.course == Trim(s.course) && a.user == Trim(s.user)
    && a.finishedAt == now && a.startedAt == (if s.startedAt.Some? then s.startedAt.value else now)
    && NormalizeSheet(s.answers).Ok?
    && var max := TotalMax(course.questions);
    var earned := TotalMax(RightOnes(course.questions, NormalizeSheet(s.answers).value));
    && a.totalMax == RoundToTwo(max) && a.totalEarned == RoundToTwo(earned)
    && a.score == (if max > 0.0 then RoundToTwo(earned / max * 100.0) else 0.0)
    && (a.passed <==> a.score >= (if course.passPercent > 0 then course.passPercent else 80) as real)
  }

  lemma CleanSheetIsDistinct(answers: seq<Answer>)
    requires NormalizeSheet(answers).Ok?
    ensures var sheet := NormalizeSheet(answers).value;
            forall i, j :: 0 <= i < j < |sheet| ==> sheet[i].questionId != sheet[j].questionId
  {
    NormalizedSheetMeaning(answers);
  }

  lemma EarnedBySheet(questions: seq<Question>, answers: seq<Answer>)
    requires NormalizeSheet(answers).Ok?
    ensures var sheet := NormalizeSheet(answers).value;
            TotalEarned(questions, AnswerMap(sheet)) == TotalMax(RightOnes(questions, sheet))
  {
    CleanSheetIsDistinct(answers);
    EarnedIsSumOfRight(questions, NormalizeSheet(answers).value);
  }

  lemma GradedRecords(course: Course, now: int, s: Submission)
    requires NormalizeSheet(s.answers).Ok?
    ensures var startedAt := if s.startedAt.Some? then s.startedAt.value else now;
            Records(course, now, s,
                    Graded(course.questions, course.passPercent, NormalizeSheet(s.answers).value, Trim(s.course),
                           Trim(s.user), startedAt, now))
  {
    EarnedBySheet(course.questions, s.answers);
  }

  lemma SubmittedRecords(db: Db, now: int, s: Submission)
    requires Submitted(db, now, s).Ok?
    ensures Submitted(db, now, s).value.course in db.courses
    ensures Records(db.courses[Submitted(db, now, s).value.course], now, s, Submitted(db, now, s).value)
  {
    GradedRecords(db.courses[Trim(s.course)], now, s);
  }

  lemma RoundedInBounds(earned: real, max: real)
    requires 0.0 <= earned <= max
    ensures 0.0 <= RoundToTwo(earned) <= RoundToTwo(max)
    ensures 0.0 <= (if max > 0.0 then RoundToTwo(earned / max * 100.0) else 0.0) <= 100.0
  {
    RoundMonotone(0.0, earned);
    RoundMonotone(earned, max);
    if max > 0.0 {
      PercentBounds(earned, max);
      RoundedThreshold(earned / max * 100.0, 0);
    }
  }

  lemma RightWithinMax(questions: seq<Question>, answers: seq<Answer>)
    requires NormalizeSheet(answers).Ok? && NonNegative(questions)
    ensures 0.0 <= TotalMax(RightOnes(questions, NormalizeSheet(answers).value)) <= TotalMax(questions)
  {
    EarnedBySheet(questions, answers);
    EarnedWithinMax(questions, AnswerMap(NormalizeSheet(answers).value));
  }

  lemma RecordedTotals(course: Course, now: int, s: Submission, a: Attempt)
    requires Records(course, now, s, a) && NonNegative(course.questions)
    ensures 0.0 <= a.totalEarned <= a.totalMax && 0.0 <= a.score <= 100.0
  {
    RightWithinMax(course.questions, s.answers);
    RoundedInBounds(TotalMax(RightOnes(course.questions, NormalizeSheet(s.answers).value)), TotalMax(course.questions));
  }

  /** What the submit of step `i` should leave behind; with non-negative points the earned total lies between zero and
      the maximum. */
  ghost predicate RecordedAt(run: Run, i: nat, a: Attempt)
    requires i < |run.steps| < |run.states|
  {
    var s := run.states[i];
    && run.steps[i].Submit? && a.course in s.db.courses
    && Records(s.db.courses[a.course], s.now, run.steps[i].submission, a)
    && (NonNegative(s.db.courses[a.course].questions) ==>
          0.0 <= a.totalEarned <= a.totalMax && 0.0 <= a.score <= 100.0)
  }

  lemma StepRecords(run: Run, i: nat, k: nat)
    requires IsRun(run) && i < |run.steps| && |run.states[i].db.attempts| <= k < |run.states[i + 1].db.attempts|
    ensures k == |run.states[i].db.attempts| && RecordedAt(run, i, run.states[i + 1].db.attempts[k])
  {
    var s, step := run.states[i], run.steps[i];
    assert Next(s, step, run.states[i + 1]);
    SubmittedRecords(s.db, s.now, step.submission);
    var a := Submitted(s.db, s.now, step.submission).value;
    if NonNegative(s.db.courses[a.course].questions) {
      RecordedTotals(s.db.courses[a.course], s.now, step.submission, a);
    }
  }

  /** Every attempt stored in a run was recorded by one submit and is what that submit should leave behind, for the
      course as it stood then. */
  lemma {:induction false} RecordedAttempt(run: Run, j: nat, k: nat) returns (i: nat)
    requires IsRun(run) && j < |run.states| && k < |run.states[j].db.attempts|
    ensures i < j && k == |run.states[i].db.attempts| && RecordedAt(run, i, run.states[j].db.attempts[k])
  {
    if k < |run.states[j - 1].db.attempts| {
      i := RecordedAttempt(run, j - 1, k);
      StepExtends(run.states[j - 1], run.steps[j - 1], run.states[j]);
    } else {
      i := j - 1;
      StepRecords(run, i, k);
    }
  }

  // ---------- Enrollments ----------

  /** Later versions of an enrollment: the same user, course and time, completed if it was, and with the first
      completion time if there is one. */
  predicate LaterRow(e: Enrollment, later: Enrollment) {
    && later.course == e.course && later.user == e.user && later.enrolledAt == e.enrolledAt
    && (e.status.Completed? ==> later.status.Completed?)
    && (e.completedAt.Some? ==> later.completedAt == e.completedAt)
  }

  lemma StepKeepsEnrollments(s: State, step: Step, s': State, k: nat)
    requires Next(s, step, s') && k < |s.db.enrollments|
    ensures k < |s'.db.enrollments| && LaterRow(s.db.enrollments[k], s'.db.enrollments[k])
  {
  }

  lemma {:induction false} EnrollmentStays(run: Run, i: nat, j: nat, k: nat)
    requires IsRun(run) && i <= j < |run.states| && k < |run.states[i].db.enrollments|
    ensures k < |run.states[j].db.enrollments|
    ensures LaterRow(run.states[i].db.enrollments[k], run.states[j].db.enrollments[k])
  {
    if i < j {
      EnrollmentStays(run, i, j - 1, k);
      StepKeepsEnrollments(run.states[j - 1], run.steps[j - 1], run.states[j], k);
    }
  }

  /** Completing a live enrollment marks it completed, now unless it was completed before, and no other; any other
      completing changes nothing at all. */
  lemma CompletingMarks(run: Run, i: nat)
    requires IsRun(run) && i < |run.steps| && run.steps[i].Complete?
    ensures var before, after := run.states[i].db.enrollments, run.states[i + 1].db.enrollments;
            var k := run.steps[i].enrollment;
            && |after| == |before|
            && (forall m :: 0 <= m < |before| && m != k ==> after[m] == before[m])
            && if k < |before| && !before[k].status.Dropped? then
                 && after[k].status.Completed?
                 && after[k].completedAt
                    == (if before[k].completedAt.Some? then before[k].completedAt else Some(run.states[i].now))
               else run.states[i + 1] == run.states[i]
  {
    assert Next(run.states[i], run.steps[i], run.states[i + 1]);
  }

  /** Enrolling appends one active enrollment from now on, if both ids are given, the course exists and the user has
      no live enrollment there; else it changes nothing. */
  lemma EnrollingAppends(run: Run, i: nat)
    requires IsRun(run) && i < |run.steps| && run.steps[i].Enroll?
    ensures var db, course, user := run.states[i].db, Trim(run.steps[i].course), Trim(run.steps[i].user);
            run.states[i + 1].db.enrollments
            == if course != "" && user != "" && course in db.courses
                  && (forall e :: e in db.enrollments && e.course == course && e.user == user ==> e.status.Dropped?)
               then db.enrollments + [Enrollment(course, user, Active, run.states[i].now, None)]
               else db.enrollments
  {
    assert Next(run.states[i], run.steps[i], run.states[i + 1]);
  }

  // ---------- Certificates ----------

  /** Attempt `k` is the best of the passed ones by score, then by the later finish, then by the later start. */
  ghost predicate Greatest(db: Db, course: string, user: string, k: nat) {
    && k < |db.attempts| && db.attempts[k].passed && db.attempts[k].course == course && db.attempts[k].user == user
    && forall m :: 0 <= m < |db.attempts| ==>
         var a, best := db.attempts[m], db.attempts[k];
         a.passed && a.course == course && a.user == user ==>
           && a.score <= best.score
           && (a.score == best.score ==> a.finishedAt <= best.finishedAt)
           && (a.score == best.score && a.finishedAt == best.finishedAt ==> a.startedAt <= best.startedAt)
  }

  lemma BestIsGreatest(db: Db, course: string, user: string, k: nat)
    ensures IsBestPassed(db, course, user, k) <==> Greatest(db, course, user, k)
  {
  }

  /** A certificate issued automatically from `db`: for a live enrollment that has none yet, at a course that issues
      certificates, on the greatest passed attempt. */
  ghost predicate IssuedFrom(db: Db, c: Certificate) {
    && c.enrollment < |db.enrollments| && !db.enrollments[c.enrollment].status.Dropped?
    && (forall d :: d in db.certificates ==> d.enrollment != c.enrollment)
    && db.enrollments[c.enrollment].course == c.course && db.enrollments[c.enrollment].user == c.user
    && c.course in db.courses && db.courses[c.course].certificateEnabled
    && Greatest(db, c.course, c.user, c.attempt)
  }

  lemma AutoIssuedFrom(db: Db, enrollment: nat, candidate: Option<nat>, draws: seq<Draw>)
    requires CandidateFits(db, enrollment, candidate)
    requires AutoIssued(db, enrollment, candidate, draws).Ok?
    requires AutoIssued(db, enrollment, candidate, draws).value.Some?
    ensures IssuedFrom(db, AutoIssued(db, enrollment, candidate, draws).value.value)
  {
    var c := AutoIssued(db, enrollment, candidate, draws).value.value;
    BestIsGreatest(db, c.course, c.user, c.attempt);
    assert !EnrollmentCertified(db, enrollment);
  }

  /** Only these three steps add a certificate, at most one: to the stored one that they find. */
  lemma StepIssues(s: State, step: Step, s': State)
    requires Next(s, step, s') && s'.db.certificates != s.db.certificates
    ensures |s'.db.certificates| == |s.db.certificates| + 1 && s.db.certificates <= s'.db.certificates
    ensures var c := s'.db.certificates[|s.db.certificates|];
            && (step.Submit? || step.Complete? ==> IssuedFrom(s'.db.(certificates := s.db.certificates), c))
            && (step.AdminCertify? ==> Created(s.db, step.enrollment, step.attempt, step.draws) == Ok(c))
            && (step.Submit? || step.Complete? || step.AdminCertify?)
  {
    match step {
      case Submit(submission, choices) =>
        var a := Submitted(s.db, s.now, submission).value;
        AutoIssuedFrom(WithAttempt(s.db, a), choices.latest.value, choices.candidate, choices.draws);
      case Complete(enrollment, candidate, draws) =>
        AutoIssuedFrom(MarkedComplete(s.db, s.now, enrollment), enrollment, candidate, draws);
      case AdminCertify(_, _, _) =>
      case _ =>
    }
  }

  /** Whichever way a certificate is added in a run, its course issues certificates in that state, its enrollment
      there is live and its attempt is a passed one; all three are of its user and course. */
  lemma CertificateIsDue(run: Run, i: nat, k: nat)
    requires IsRun(run) && i < |run.steps|
    requires |run.states[i].db.certificates| <= k < |run.states[i + 1].db.certificates|
    ensures k == |run.states[i].db.certificates|
    ensures var db, c := run.states[i].db, run.states[i + 1].db.certificates[k];
            && c.course in db.courses && db.courses[c.course].certificateEnabled
            && c.enrollment < |db.enrollments| && !db.enrollments[c.enrollment].status.Dropped?
            && db.enrollments[c.enrollment].course == c.course && db.enrollments[c.enrollment].user == c.user
            && var attempts := run.states[i + 1].db.attempts;
            && c.attempt < |attempts| && attempts[c.attempt].passed
            && attempts[c.attempt].course == c.course && attempts[c.attempt].user == c.user
  {
    var s, step, s' := run.states[i], run.steps[i], run.states[i + 1];
    assert Next(s, step, s');
    StepIssues(s, step, s');
    if step.AdminCertify? {
      CreateExact(s.db, step.enrollment, step.attempt, step.draws);
    }
  }

  /** A certificate that is not issued by hand is on the greatest passed attempt of its user at its course, and on
      the only live enrollment there, which had none before. */
  lemma AutomaticIsOnTheBest(run: Run, i: nat)
    requires IsRun(run) && i < |run.steps| && !run.steps[i].AdminCertify?
    requires run.states[i + 1].db.certificates != run.states[i].db.certificates
    ensures |run.states[i + 1].db.certificates| == |run.states[i].db.certificates| + 1
    ensures var db, db' := run.states[i].db, run.states[i + 1].db;
            var c := db'.certificates[|db.certificates|];
            && Greatest(db', c.course, c.user, c.attempt)
            && (forall d :: d in db.certificates ==> d.enrollment != c.enrollment)
            && (forall m :: 0 <= m < |db'.enrollments| && db'.enrollments[m].course == c.course
                            && db'.enrollments[m].user == c.user && !db'.enrollments[m].status.Dropped? ==>
                              m == c.enrollment)
  {
    var s, step, s' := run.states[i], run.steps[i], run.states[i + 1];
    assert Next(s, step, s');
    StepIssues(s, step, s');
    EnrolledOnceHolds(run, i + 1);
    var c := s'.db.certificates[|s.db.certificates|];
    forall m | 0 <= m < |s'.db.enrollments| && m != c.enrollment && s'.db.enrollments[m].course == c.course
               && s'.db.enrollments[m].user == c.user
      ensures s'.db.enrollments[m].status.Dropped?
    {
      var low, high := if m < c.enrollment then m else c.enrollment, if m < c.enrollment then c.enrollment else m;
      assert !SamePlace(s'.db.enrollments[low], s'.db.enrollments[high]);
    }
  }
}
