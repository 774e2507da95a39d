/** Whole runs of the platform: courses are created and changed, users enroll, complete and submit,
    administrators issue certificates by hand, and time passes. Operations do not overlap and
    nothing is deleted. */
module LmsRuns {
  import opened Basics
  import opened Lms
  import opened Certificates
  import opened Enrollments
  import opened Submissions

  datatype State = State(now: int, db: Db)

  datatype Step =
    | Tick
    | CreateCourse(id: string, settings: Course)
    | UpdateCourse(id: string, settings: Course)
    | Enroll(course: string, user: string)
    | Complete(enrollment: nat, candidate: Option<nat>, draws: seq<Draw>)
    | Submit(submission: Submission, choices: Choices)
    | AdminCertify(enrollment: nat, attempt: nat, draws: seq<Draw>)

  datatype Run = Run(states: seq<State>, steps: seq<Step>)

  ghost predicate SubmitChoicesFit(s: State, submission: Submission, choices: Choices) {
    var submitted := Submitted(s.db, s.now, submission);
    submitted.Ok? ==> ChoicesFit(WithAttempt(s.db, submitted.value), submitted.value, choices)
  }

  ghost predicate Next(s: State, step: Step, s': State) {
    match step
    case Tick => s' == s.(now := s.now + 1)
    case CreateCourse(id, settings) =>
      id !in s.db.courses && s' == s.(db := s.db.(courses := s.db.courses[id := settings]))
    case UpdateCourse(id, settings) =>
      id in s.db.courses && s' == s.(db := s.db.(courses := s.db.courses[id := settings.(certificateEnabled := true)]))
    case Enroll(course, user) =>
      s' == s.(db := AfterEnroll(s.db, s.now, course, user))
    case Complete(enrollment, candidate, draws) =>
      && |draws| == DRAWS
      && (CanComplete(s.db, enrollment) ==>
          CandidateFits(MarkedComplete(s.db, s.now, enrollment), enrollment, candidate))
      && s' == s.(db := AfterComplete(s.db, s.now, enrollment, candidate, draws))
    case Submit(submission, choices) =>
      && SubmitChoicesFit(s, submission, choices)
      && s' == s.(db := AfterSubmit(s.db, s.now, submission, choices))
    case AdminCertify(enrollment, attempt, draws) =>
      && |draws| == DRAWS
      && s' == s.(db := WithCertificate(s.db, Created(s.db, enrollment, attempt, draws)))
  }

  ghost predicate IsRun(run: Run) {
    && |run.states| == |run.steps| + 1
    && run.states[0].db == EMPTY_DB
    && forall i :: 0 <= i < |run.steps| ==> Next(run.states[i], run.steps[i], run.states[i + 1])
  }

  // ---------- Rows are only added ----------

  ghost predicate Extends(s: State, s': State) {
    && s.now <= s'.now
    && s.db.courses.Keys <= s'.db.courses.Keys
    && s.db.attempts <= s'.db.attempts
    && s.db.certificates <= s'.db.certificates
    && |s.db.enrollments| <= |s'.db.enrollments|
  }

  lemma StepExtends(s: State, step: Step, s': State)
    requires Next(s, step, s')
    ensures Extends(s, s')
  {
  }

  lemma {:induction false} RunExtends(run: Run, i: nat, j: nat)
    requires IsRun(run) && i <= j < |run.states|
    ensures Extends(run.states[i], run.states[j])
  {
    if i < j {
      RunExtends(run, i, j - 1);
      StepExtends(run.states[j - 1], run.steps[j - 1], run.states[j]);
    }
  }

  // ---------- The certificate invariant ----------

  lemma CoursesKeepInv(db: Db, db': Db)
    requires CertificateInv(db) && db' == db.(courses := db'.courses)
    ensures CertificateInv(db')
  {
    forall c | c in db'.certificates ensures Backed(db', c) {
      assert Backed(db, c);
    }
  }

  lemma StepKeepsInv(s: State, step: Step, s': State)
    requires CertificateInv(s.db) && Next(s, step, s')
    ensures CertificateInv(s'.db)
  {
    match step {
      case Tick =>
      case CreateCourse(_, _) => CoursesKeepInv(s.db, s'.db);
      case UpdateCourse(_, _) => CoursesKeepInv(s.db, s'.db);
      case Enroll(course, user) => EnrollKeepsInv(s.db, s.now, course, user);
      case Complete(enrollment, candidate, draws) => CompleteKeepsInv(s.db, s.now, enrollment, candidate, draws);
      case Submit(submission, choices) => SubmitKeepsInv(s.db, s.now, submission, choices);
      case AdminCertify(enrollment, attempt, draws) => CreatedKeepsInv(s.db, enrollment, attempt, draws);
    }
  }

  /** In every reachable state every certificate has a passed attempt and an enrollment of its own
      user and course, and no (enrollment, attempt) pair, serial or hash is used twice. */
  lemma {:induction false} CertificateInvHolds(run: Run, i: nat)
    requires IsRun(run) && i < |run.states|
    ensures CertificateInv(run.states[i].db)
  {
    if i > 0 {
      CertificateInvHolds(run, i - 1);
      StepKeepsInv(run.states[i - 1], run.steps[i - 1], run.states[i]);
    }
  }

  // ---------- A certificate closes the quiz ----------

  predicate RecordsNone(before: seq<Attempt>, after: seq<Attempt>, course: string, user: string) {
    && before <= after
    && forall k :: |before| <= k < |after| ==> !(after[k].course == course && after[k].user == user)
  }

  lemma CertificatesStay(s: State, s': State, course: string, user: string)
    requires Extends(s, s') && HasCertificate(s.db, course, user)
    ensures HasCertificate(s'.db, course, user)
  {
    var c :| c in s.db.certificates && c.course == course && c.user == user;
    assert c in s'.db.certificates;
  }

  lemma StillNone(before: seq<Attempt>, between: seq<Attempt>, after: seq<Attempt>, course: string, user: string)
    requires RecordsNone(before, between, course, user) && RecordsNone(between, after, course, user)
    ensures RecordsNone(before, after, course, user)
  {
    forall k | |before| <= k < |after| ensures !(after[k].course == course && after[k].user == user) {
      assert k < |between| ==> after[k] == between[k];
    }
  }

  lemma ClosedStep(s: State, step: Step, s': State, course: string, user: string)
    requires Next(s, step, s') && HasCertificate(s.db, course, user)
    ensures RecordsNone(s.db.attempts, s'.db.attempts, course, user)
  {
  }

  lemma StillClosed(first: State, s: State, step: Step, s': State, course: string, user: string)
    requires RecordsNone(first.db.attempts, s.db.attempts, course, user)
    requires HasCertificate(s.db, course, user) && Next(s, step, s')
    ensures RecordsNone(first.db.attempts, s'.db.attempts, course, user)
  {
    ClosedStep(s, step, s', course, user);
    StillNone(first.db.attempts, s.db.attempts, s'.db.attempts, course, user);
  }

  /** Once a user holds a certificate for a course, no attempt of that user at that course is ever
      recorded again, however the certificate came about. */
  lemma {:induction false} ClosedAfterCertificate(run: Run, i: nat, j: nat, course: string, user: string)
    requires IsRun(run) && i <= j < |run.states|
    requires HasCertificate(run.states[i].db, course, user)
    ensures RecordsNone(run.states[i].db.attempts, run.states[j].db.attempts, course, user)
  {
    if i < j {
      ClosedAfterCertificate(run, i, j - 1, course, user);
      RunExtends(run, i, j - 1);
      CertificatesStay(run.states[i], run.states[j - 1], course, user);
      StillClosed(run.states[i], run.states[j - 1], run.steps[j - 1], run.states[j], course, user);
    }
  }

  // ---------- A pass leaves a certificate ----------

  /** In every run, a passing submit of an enrolled user at a course that issues certificates
      leaves a certificate that stays, provided the draws were lucky; and then no attempt of the
      user at that course follows. Without enrollment, certificates or luck there is none
      right afterwards. */
  lemma PassIsCertifiedForGood(run: Run, i: nat, j: nat)
    requires IsRun(run) && i < |run.steps| && i < j < |run.states|
    requires run.steps[i].Submit?
    requires Submitted(run.states[i].db, run.states[i].now, run.steps[i].submission).Ok?
    requires Submitted(run.states[i].db, run.states[i].now, run.steps[i].submission).value.passed
    ensures var db := run.states[i].db;
            var a := Submitted(db, run.states[i].now, run.steps[i].submission).value;
            var certified :=
              HasEnrollment(db, a.course, a.user) && db.courses[a.course].certificateEnabled
              && LuckyDraw(db, run.steps[i].choices.draws);
            && (HasCertificate(run.states[i + 1].db, a.course, a.user) <==> certified)
            && (certified ==> HasCertificate(run.states[j].db, a.course, a.user))
            && (certified ==> RecordsNone(run.states[i + 1].db.attempts, run.states[j].db.attempts, a.course, a.user))
  {
    var s, step := run.states[i], run.steps[i];
    var a := Submitted(s.db, s.now, step.submission).value;
    assert Next(s, step, run.states[i + 1]);
    CertificateInvHolds(run, i);
    PassingSubmitCertifies(s.db, s.now, step.submission, step.choices);
    if HasCertificate(run.states[i + 1].db, a.course, a.user) {
      RunExtends(run, i + 1, j);
      CertificatesStay(run.states[i + 1], run.states[j], a.course, a.user);
      ClosedAfterCertificate(run, i + 1, j, a.course, a.user);
    }
  }

  // ---------- One certificate per user and course ----------

  predicate SameHolder(c: Certificate, d: Certificate) {
    c.course == d.course && c.user == d.user
  }

  ghost predicate OneEach(db: Db) {
    forall p, q :: 0 <= p < q < |db.certificates| ==> !SameHolder(db.certificates[p], db.certificates[q])
  }

  /** All enrollments are live, and no user has two for one course. */
  ghost predicate EnrolledOnce(db: Db) {
    OneLiveEnrollment(db) && forall e :: e in db.enrollments ==> !e.status.Dropped?
  }

  lemma CompletingKeepsEnrolledOnce(db: Db, now: int, enrollment: nat)
    requires EnrolledOnce(db) && CanComplete(db, enrollment)
    ensures EnrolledOnce(MarkedComplete(db, now, enrollment))
  {
    var db' := MarkedComplete(db, now, enrollment);
    forall i, j | 0 <= i < j < |db'.enrollments| ensures !SamePlace(db'.enrollments[i], db'.enrollments[j]) {
      assert !SamePlace(db.enrollments[i], db.enrollments[j]);
    }
  }

  lemma StepKeepsEnrolledOnce(s: State, step: Step, s': State)
    requires EnrolledOnce(s.db) && Next(s, step, s')
    ensures EnrolledOnce(s'.db)
  {
    if step.Enroll? {
      EnrollKeepsOneLive(s.db, s.now, step.course, step.user);
    } else if step.Complete? && CanComplete(s.db, step.enrollment) {
      CompletingKeepsEnrolledOnce(s.db, s.now, step.enrollment);
    } else {
      assert s'.db.enrollments == s.db.enrollments;
    }
  }

  lemma {:induction false} EnrolledOnceHolds(run: Run, i: nat)
    requires IsRun(run) && i < |run.states|
    ensures EnrolledOnce(run.states[i].db)
  {
    if i > 0 {
      EnrolledOnceHolds(run, i - 1);
      StepKeepsEnrolledOnce(run.states[i - 1], run.steps[i - 1], run.states[i]);
    }
  }

  /** A holder of a certificate holds it through the only enrollment there is. */
  lemma HolderIsCertified(db: Db, enrollment: nat)
    requires CertificateInv(db) && EnrolledOnce(db) && enrollment < |db.enrollments|
    requires HasCertificate(db, db.enrollments[enrollment].course, db.enrollments[enrollment].user)
    ensures EnrollmentCertified(db, enrollment)
  {
    var e := db.enrollments[enrollment];
    var c :| c in db.certificates && c.course == e.course && c.user == e.user;
    assert Backed(db, c);
    var other := db.enrollments[c.enrollment];
    assert e in db.enrollments && other in db.enrollments;
    assert SamePlace(e, other) && SamePlace(other, e);
  }

  lemma OneMoreHolder(db: Db, c: Certificate)
    requires OneEach(db)
    ensures OneEach(db.(certificates := db.certificates + [c])) <==> !HasCertificate(db, c.course, c.user)
  {
    var all := db.certificates + [c];
    var n := |db.certificates|;
    if HasCertificate(db, c.course, c.user) {
      var d :| d in db.certificates && d.course == c.course && d.user == c.user;
      var p :| 0 <= p < n && db.certificates[p] == d;
      assert SameHolder(all[p], all[n]);
    } else {
      forall p | 0 <= p < n ensures !SameHolder(all[p], all[n]) {
        assert db.certificates[p] in db.certificates;
      }
    }
  }

  lemma AutoIssueKeepsOneEach(db: Db, enrollment: nat, candidate: Option<nat>, draws: seq<Draw>)
    requires CertificateInv(db) && EnrolledOnce(db) && OneEach(db)
    ensures OneEach(AfterAutoIssue(db, enrollment, candidate, draws))
  {
    var issued := AutoIssued(db, enrollment, candidate, draws);
    if issued.Ok? && issued.value.Some? {
      var e := db.enrollments[enrollment];
      if HasCertificate(db, e.course, e.user) {
        HolderIsCertified(db, enrollment);
      }
      OneMoreHolder(db, issued.value.value);
    }
  }

  /** A certificate issued by hand goes to a user who has none for the course. Otherwise the request runs
      into one of the checks of `Create`, or no draw is free. */
  ghost predicate Careful(s: State, step: Step) {
    step.AdminCertify? ==>
      || Obstacle(s.db, step.enrollment, step.attempt).Some?
      || !LuckyDraw(s.db, step.draws)
      || !HasCertificate(s.db, s.db.enrollments[step.enrollment].course, s.db.enrollments[step.enrollment].user)
  }

  lemma StepKeepsOneEach(s: State, step: Step, s': State)
    requires CertificateInv(s.db) && EnrolledOnce(s.db) && OneEach(s.db) && Next(s, step, s')
    ensures OneEach(s'.db) <==> Careful(s, step)
  {
    match step {
      case Complete(enrollment, candidate, draws) =>
        if CanComplete(s.db, enrollment) {
          CompletingKeepsEnrolledOnce(s.db, s.now, enrollment);
          MarkingKeepsInv(s.db, s.now, enrollment);
          AutoIssueKeepsOneEach(MarkedComplete(s.db, s.now, enrollment), enrollment, candidate, draws);
        }
      case Submit(submission, c) =>
        var submitted := Submitted(s.db, s.now, submission);
        if submitted.Ok? && c.latest.Some? {
          AttemptKeepsInv(s.db, submitted.value);
          AutoIssueKeepsOneEach(WithAttempt(s.db, submitted.value), c.latest.value, c.candidate, c.draws);
        }
      case AdminCertify(enrollment, attempt, draws) =>
        DrawLoopMeaning(s.db, draws);
        var created := Created(s.db, enrollment, attempt, draws);
        if created.Ok? {
          OneMoreHolder(s.db, created.value);
        }
      case _ =>
        assert s'.db.certificates == s.db.certificates;
    }
  }

  ghost predicate AlwaysCareful(run: Run, n: nat)
    requires n <= |run.steps| < |run.states|
  {
    forall i :: 0 <= i < n ==> Careful(run.states[i], run.steps[i])
  }

  lemma {:induction false} CarefulHoldsOne(run: Run, n: nat)
    requires IsRun(run) && n <= |run.steps| && AlwaysCareful(run, n)
    ensures OneEach(run.states[n].db)
  {
    if n > 0 {
      CarefulHoldsOne(run, n - 1);
      CertificateInvHolds(run, n - 1);
      EnrolledOnceHolds(run, n - 1);
      StepKeepsOneEach(run.states[n - 1], run.steps[n - 1], run.states[n]);
    }
  }

  /** Automatic issuing alone never certifies a user twice for one course, not even through
      different enrollments or attempts; issuing by hand can. No user ever holds two certificates
      for one course exactly in those runs in which every certificate issued by hand goes to a user
      who has none. */
  lemma OneCertificateExact(run: Run)
    requires IsRun(run)
    ensures (forall i :: 0 <= i < |run.states| ==> OneEach(run.states[i].db)) <==> AlwaysCareful(run, |run.steps|)
  {
    if AlwaysCareful(run, |run.steps|) {
      forall i | 0 <= i < |run.states| ensures OneEach(run.states[i].db) {
        CarefulHoldsOne(run, i);
      }
    }
    if forall i :: 0 <= i < |run.states| ==> OneEach(run.states[i].db) {
      forall i | 0 <= i < |run.steps| ensures Careful(run.states[i], run.steps[i]) {
        CertificateInvHolds(run, i);
        EnrolledOnceHolds(run, i);
        assert OneEach(run.states[i].db) && OneEach(run.states[i + 1].db);
        StepKeepsOneEach(run.states[i], run.steps[i], run.states[i + 1]);
      }
    }
  }
}
