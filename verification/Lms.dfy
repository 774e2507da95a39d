/** The stored state of courses, enrollments, attempts and certificates, and the queries over it.
    Rows are only ever added, so a row is named by its position. Times are whole seconds. */
module Lms {
  import opened Basics
  import opened Grading
  import opened SlidingWindow

  const DAY := 86400

  datatype Course = Course(
    questions: seq<Question>,
    passPercent: int,
    maxAttempts: int,
    cooldownDays: int,
    certificateEnabled: bool
  )

  datatype EnrollmentStatus = Active | Completed | Dropped

  datatype Enrollment = Enrollment(course: string, user: string, status: EnrollmentStatus, enrolledAt: int,
                                   completedAt: Option<int>)

  datatype Attempt = Attempt(
    course: string,
    user: string,
    startedAt: int,
    finishedAt: int,
    totalEarned: real,
    totalMax: real,
    score: real,
    passed: bool
  )

  datatype Certificate = Certificate(enrollment: nat, user: string, course: string, attempt: nat, serial: string,
                                     verifyHash: string)

  datatype Db = Db(
    courses: map<string, Course>,
    enrollments: seq<Enrollment>,
    attempts: seq<Attempt>,
    certificates: seq<Certificate>
  )

  const EMPTY_DB := Db(map[], [], [], [])

  // ---------- Certificates ----------

  predicate HasCertificate(db: Db, course: string, user: string) {
    exists c :: c in db.certificates && c.course == course && c.user == user
  }

  predicate EnrollmentCertified(db: Db, enrollment: nat) {
    exists c :: c in db.certificates && c.enrollment == enrollment
  }

  predicate PairCertified(db: Db, enrollment: nat, attempt: nat) {
    exists c :: c in db.certificates && c.enrollment == enrollment && c.attempt == attempt
  }

  // ---------- Enrollments ----------

  predicate Enrolled(e: Enrollment, course: string, user: string) {
    e.course == course && e.user == user && !e.status.Dropped?
  }

  predicate HasEnrollment(db: Db, course: string, user: string) {
    exists e :: e in db.enrollments && Enrolled(e, course, user)
  }

  /** `GetLatestByCourseAndUser`: a live enrollment with the greatest time; ties are the database's choice. */
  ghost predicate IsLatest(db: Db, course: string, user: string, latest: Option<nat>) {
    match latest
    case None => !HasEnrollment(db, course, user)
    case Some(e) =>
      && e < |db.enrollments| && Enrolled(db.enrollments[e], course, user)
      && forall k :: 0 <= k < |db.enrollments| && Enrolled(db.enrollments[k], course, user) ==>
           db.enrollments[k].enrolledAt <= db.enrollments[e].enrolledAt
  }

  // ---------- The best passed attempt ----------

  /** The candidate order: score, then finishing time, then starting time. */
  predicate Better(a: Attempt, b: Attempt) {
    || a.score > b.score
    || (a.score == b.score && a.finishedAt > b.finishedAt)
    || (a.score == b.score && a.finishedAt == b.finishedAt && a.startedAt > b.startedAt)
  }

  predicate PassedBy(a: Attempt, course: string, user: string) {
    a.course == course && a.user == user && a.passed
  }

  ghost predicate IsBestPassed(db: Db, course: string, user: string, best: nat) {
    && best < |db.attempts| && PassedBy(db.attempts[best], course, user)
    && forall k :: 0 <= k < |db.attempts| && PassedBy(db.attempts[k], course, user) ==>
      !Better(db.attempts[k], db.attempts[best])
  }

  predicate HasPassed(db: Db, course: string, user: string) {
    exists a :: a in db.attempts && PassedBy(a, course, user)
  }

  /** `FindAutoIssueCandidate` for an enrollment; ties are the database's choice. */
  ghost predicate IsCandidate(db: Db, enrollment: nat, candidate: Option<nat>) {
    if enrollment < |db.enrollments| && db.enrollments[enrollment].course in db.courses then
      var e := db.enrollments[enrollment];
      match candidate
      case None => !HasPassed(db, e.course, e.user)
      case Some(a) => IsBestPassed(db, e.course, e.user, a)
    else candidate.None?
  }

  /** The numbers of an attempt fit their columns; otherwise the insert fails. */
  predicate FitsRow(a: Attempt) {
    ResultFits(a.totalEarned, a.totalMax, a.score)
  }

  // ---------- The attempt window ----------

  /** The starting times of one user's attempts at one course, in order of recording. */
  function Times(attempts: seq<Attempt>, course: string, user: string): seq<int> {
    if attempts == [] then []
    else
      var last := attempts[|attempts| - 1];
      Times(attempts[..|attempts| - 1], course, user)
      + (if last.course == course && last.user == user then [last.startedAt] else [])
  }

  function CountSince(times: seq<int>, since: Option<int>): nat {
    if since.None? then |times| else CountAfter(times, since.value)
  }

  /** The least of the times after `since`, or none. */
  function EarliestSince(times: seq<int>, since: Option<int>): Option<int> {
    if times == [] then None
    else
      var before, last := EarliestSince(times[..|times| - 1], since), times[|times| - 1];
      if since.Some? && last <= since.value then before
      else if before.None? then Some(last)
      else Some(Min(before.value, last))
  }

  /** `attemptWindowStart`: no window without a cooldown. */
  function WindowStart(now: int, cooldownDays: int): Option<int> {
    if cooldownDays <= 0 then None else Some(now - cooldownDays * DAY)
  }

  function EffectiveMaxAttempts(maxAttempts: int): (n: nat)
    ensures n >= 1
  {
    if maxAttempts <= 0 then 3 else maxAttempts
  }

  /** The minimum is one of the times after the cut, and no such time is smaller. */
  lemma {:induction false} EarliestIsLeast(times: seq<int>, since: int)
    ensures EarliestSince(times, Some(since)).None? <==> CountAfter(times, since) == 0
    ensures forall i :: 0 <= i < |times| && times[i] > since ==>
              EarliestSince(times, Some(since)).Some? && EarliestSince(times, Some(since)).value <= times[i]
    ensures EarliestSince(times, Some(since)).Some? ==>
              exists i :: 0 <= i < |times| && times[i] > since && times[i] == EarliestSince(times, Some(since)).value
  {
    if times != [] {
      var init := times[..|times| - 1];
      EarliestIsLeast(init, since);
      if EarliestSince(init, Some(since)).Some? {
        var i :| 0 <= i < |init| && init[i] > since && init[i] == EarliestSince(init, Some(since)).value;
        assert times[i] == init[i];
      }
      if times[|times| - 1] > since {
        assert times[|init|] > since;
      }
    }
  }

  lemma {:induction false} TimesSplit(attempts: seq<Attempt>, more: seq<Attempt>, course: string, user: string)
    ensures Times(attempts + more, course, user) == Times(attempts, course, user) + Times(more, course, user)
  {
    if more == [] {
      assert attempts + more == attempts;
    } else {
      var init, last := more[..|more| - 1], more[|more| - 1];
      TimesSplit(attempts, init, course, user);
      assert (attempts + more)[..|attempts + more| - 1] == attempts + init;
    }
  }
}
