/** Enrolling in a course and completing an enrollment, the second trigger of automatic issuing. */
module Enrollments {
  import opened Basics
  import opened Text
  import opened Lms
  import opened Certificates

  datatype EnrollError = BlankId | AlreadyEnrolled | InsertFailed

  /** `Create`: at most one live enrollment per user and course; the row refers to a stored course. */
  function Admission(db: Db, now: int, course: string, user: string): Result<Enrollment, EnrollError> {
    if Trim(course) == "" || Trim(user) == "" then Err(BlankId)
    else if HasEnrollment(db, Trim(course), Trim(user)) then Err(AlreadyEnrolled)
    else if Trim(course) !in db.courses then Err(InsertFailed)
    else Ok(Enrollment(Trim(course), Trim(user), Active, now, None))
  }

  function AfterEnroll(db: Db, now: int, course: string, user: string): Db {
    var admission := Admission(db, now, course, user);
    if admission.Ok? then db.(enrollments := db.enrollments + [admission.value]) else db
  }

  /** The row update of `Complete`; a first completion time is kept. */
  function CompletedRow(e: Enrollment, now: int): Enrollment {
    e.(status := Completed, completedAt := if e.completedAt.Some? then e.completedAt else Some(now))
  }

  predicate CanComplete(db: Db, enrollment: nat) {
    enrollment < |db.enrollments| && !db.enrollments[enrollment].status.Dropped?
  }

  function MarkedComplete(db: Db, now: int, enrollment: nat): Db
    requires CanComplete(db, enrollment)
  {
    db.(enrollments := db.enrollments[enrollment := CompletedRow(db.enrollments[enrollment], now)])
  }

  /** `Complete` and the automatic issuing it triggers, whose errors it only logs. */
  function AfterComplete(db: Db, now: int, enrollment: nat, candidate: Option<nat>, draws: seq<Draw>): Db {
    if CanComplete(db, enrollment)
    then AfterAutoIssue(MarkedComplete(db, now, enrollment), enrollment, candidate, draws)
    else db
  }

  // ---------- One live enrollment per user and course ----------

  predicate SamePlace(a: Enrollment, b: Enrollment) {
    a.course == b.course && a.user == b.user && !a.status.Dropped? && !b.status.Dropped?
  }

  ghost predicate OneLiveEnrollment(db: Db) {
    forall i, j :: 0 <= i < j < |db.enrollments| ==> !SamePlace(db.enrollments[i], db.enrollments[j])
  }

  lemma EnrollKeepsOneLive(db: Db, now: int, course: string, user: string)
    requires OneLiveEnrollment(db)
    ensures OneLiveEnrollment(AfterEnroll(db, now, course, user))
  {
    var db' := AfterEnroll(db, now, course, user);
    forall i, j | 0 <= i < j < |db'.enrollments| ensures !SamePlace(db'.enrollments[i], db'.enrollments[j]) {
      assert db'.enrollments[i] in db.enrollments;
    }
  }

  lemma EnrollKeepsInv(db: Db, now: int, course: string, user: string)
    requires CertificateInv(db)
    ensures CertificateInv(AfterEnroll(db, now, course, user))
  {
    var db' := AfterEnroll(db, now, course, user);
    forall c | c in db'.certificates ensures Backed(db', c) {
      assert Backed(db, c);
    }
  }

  lemma MarkingKeepsInv(db: Db, now: int, enrollment: nat)
    requires CertificateInv(db) && CanComplete(db, enrollment)
    ensures CertificateInv(MarkedComplete(db, now, enrollment))
  {
    var mid := MarkedComplete(db, now, enrollment);
    forall c | c in mid.certificates ensures Backed(mid, c) {
      assert Backed(db, c);
    }
  }

  lemma CompleteKeepsInv(db: Db, now: int, enrollment: nat, candidate: Option<nat>, draws: seq<Draw>)
    requires CertificateInv(db)
    ensures CertificateInv(AfterComplete(db, now, enrollment, candidate, draws))
  {
    if CanComplete(db, enrollment) {
      MarkingKeepsInv(db, now, enrollment);
      AutoIssueKeepsInv(MarkedComplete(db, now, enrollment), enrollment, candidate, draws);
    }
  }

  lemma LuckIgnoresEnrollments(db: Db, mid: Db, draws: seq<Draw>)
    requires db.certificates == mid.certificates
    ensures LuckyDraw(db, draws) <==> LuckyDraw(mid, draws)
  {
    assert forall d: Draw :: Clashes(mid, d) <==> Clashes(db, d);
    assert forall d: Draw :: Fits(mid, d) <==> Fits(db, d);
  }

  /** Completing an enrollment leaves it certified exactly when it was, or when its course issues
      certificates, its user has passed and the draws are lucky. */
  lemma CompletingCertifies(db: Db, now: int, enrollment: nat, candidate: Option<nat>, draws: seq<Draw>)
    requires CertificateInv(db) && CanComplete(db, enrollment) && db.enrollments[enrollment].course in db.courses
    requires CandidateFits(MarkedComplete(db, now, enrollment), enrollment, candidate)
    ensures var e := db.enrollments[enrollment];
            EnrollmentCertified(AfterComplete(db, now, enrollment, candidate, draws), enrollment) <==>
              || EnrollmentCertified(db, enrollment)
              || (db.courses[e.course].certificateEnabled && HasPassed(db, e.course, e.user) && LuckyDraw(db, draws))
  {
    var mid := MarkedComplete(db, now, enrollment);
    MarkingKeepsInv(db, now, enrollment);
    LuckIgnoresEnrollments(db, mid, draws);
    AutoIssueExact(mid, enrollment, candidate, draws);
    var db' := AfterComplete(db, now, enrollment, candidate, draws);
    if |db'.certificates| > |db.certificates| {
      assert db'.certificates[|db.certificates|] in db'.certificates;
    }
  }
}
