/** The stored tables as fields, and the operations that change them step by step. Each is tied
    to its specification function; the random draws are a parameter. */
module Platform {
  import opened Basics
  import opened Text
  import opened Grading
  import opened Lms
  import opened Certificates
  import opened Enrollments
  import opened Submissions

  lemma OneMoreTime(attempts: seq<Attempt>, i: nat, course: string, user: string, since: Option<int>)
    requires i < |attempts|
    ensures var before, after := Times(attempts[..i], course, user), Times(attempts[..i + 1], course, user);
            var a := attempts[i];
            if a.course == course && a.user == user && (since.None? || a.startedAt > since.value) then
              && CountSince(after, since) == CountSince(before, since) + 1
              && EarliestSince(after, since)
                 == Some(if EarliestSince(before, since).None? then a.startedAt
                         else Min(EarliestSince(before, since).value, a.startedAt))
            else
              CountSince(after, since) == CountSince(before, since)
                && EarliestSince(after, since) == EarliestSince(before, since)
  {
    assert attempts[..i + 1][..i] == attempts[..i];
    var before, after := Times(attempts[..i], course, user), Times(attempts[..i + 1], course, user);
    if attempts[i].course == course && attempts[i].user == user {
      assert after == before + [attempts[i].startedAt];
      assert after[..|after| - 1] == before;
    } else {
      assert after == before;
    }
  }

  class Platform {
    var courses: map<string, Course>
    var enrollments: seq<Enrollment>
    var attempts: seq<Attempt>
    var certificates: seq<Certificate>

    function Contents(): Db
      reads this
    {
      Db(courses, enrollments, attempts, certificates)
    }

    constructor ()
      ensures Contents() == EMPTY_DB
    {
      courses, enrollments, attempts, certificates := map[], [], [], [];
    }

    // ---------- Queries ----------

    /** `GetUserCourseAttemptWindow`: the count and the minimum in one pass over the rows. */
    method GetUserCourseAttemptWindow(course: string, user: string, since: Option<int>)
      returns (count: nat, earliest: Option<int>)
      ensures count == CountSince(Times(attempts, course, user), since)
      ensures earliest == EarliestSince(Times(attempts, course, user), since)
    {
      count, earliest := 0, None;
      assert attempts[..0] == [];
      for i := 0 to |attempts|
        invariant count == CountSince(Times(attempts[..i], course, user), since)
        invariant earliest == EarliestSince(Times(attempts[..i], course, user), since)
      {
        OneMoreTime(attempts, i, course, user, since);
        var a := attempts[i];
        if a.course == course && a.user == user && (since.None? || a.startedAt > since.value) {
          count := count + 1;
          earliest := Some(if earliest.None? then a.startedAt else Min(earliest.value, a.startedAt));
        }
      }
      assert attempts[..|attempts|] == attempts;
    }

    method GetLatestByCourseAndUser(course: string, user: string) returns (latest: Option<nat>)
      ensures IsLatest(Contents(), course, user, latest)
    {
      latest := None;
      for i := 0 to |enrollments|
        invariant latest.None? ==> forall k :: 0 <= k < i ==> !Enrolled(enrollments[k], course, user)
        invariant latest.Some? ==>
                    && latest.value < i && Enrolled(enrollments[latest.value], course, user)
                    && forall k :: 0 <= k < i && Enrolled(enrollments[k], course, user) ==>
                         enrollments[k].enrolledAt <= enrollments[latest.value].enrolledAt
      {
        if Enrolled(enrollments[i], course, user)
           && (latest.None? || enrollments[i].enrolledAt > enrollments[latest.value].enrolledAt)
        {
          latest := Some(i);
        }
      }
    }

    method FindAutoIssueCandidate(enrollment: nat) returns (candidate: Option<nat>)
      ensures IsCandidate(Contents(), enrollment, candidate)
    {
      candidate := None;
      if enrollment >= |enrollments| || enrollments[enrollment].course !in courses {
        return;
      }
      var e := enrollments[enrollment];
      for i := 0 to |attempts|
        invariant candidate.None? ==> forall k :: 0 <= k < i ==> !PassedBy(attempts[k], e.course, e.user)
        invariant candidate.Some? ==>
                    && candidate.value < i && PassedBy(attempts[candidate.value], e.course, e.user)
                    && forall k :: 0 <= k < i && PassedBy(attempts[k], e.course, e.user) ==>
                      !Better(attempts[k], attempts[candidate.value])
      {
        if PassedBy(attempts[i], e.course, e.user)
           && (candidate.None? || Better(attempts[i], attempts[candidate.value]))
        {
          candidate := Some(i);
        }
      }
    }

    // ---------- Certificates ----------

    /** The insert, which the database refuses when the serial or the hash is taken. */
    method InsertCertificate(certificate: Certificate, draw: Draw) returns (refused: Option<Certificates.Error>)
      requires draw.Drawn? && certificate.serial == draw.serial && certificate.verifyHash == draw.verifyHash
      modifies this`certificates
      ensures refused == (if Fits(old(Contents()), draw) then None
                          else if Clashes(old(Contents()), draw) then Some(Conflict) else Some(Internal))
      ensures certificates == if refused.None? then old(certificates) + [certificate] else old(certificates)
    {
      if !draw.insertWorks {
        return Some(Internal);
      }
      for i := 0 to |certificates|
        invariant forall c :: c in certificates[..i] ==> c.serial != draw.serial && c.verifyHash != draw.verifyHash
      {
        if certificates[i].serial == draw.serial || certificates[i].verifyHash == draw.verifyHash {
          assert certificates[i] in certificates;
          return Some(Conflict);
        }
      }
      assert certificates[..|certificates|] == certificates;
      certificates := certificates + [certificate];
      return None;
    }

    /** `Create`: the checks in order, then up to five draws; only a clash is worth another one. */
    method CreateCertificate(enrollment: nat, attempt: nat, draws: seq<Draw>)
      returns (r: Result<Certificate, Certificates.Error>)
      requires |draws| == DRAWS
      modifies this`certificates
      ensures r == Created(old(Contents()), enrollment, attempt, draws)
      ensures Contents() == WithCertificate(old(Contents()), r)
    {
      var obstacle := Obstacle(Contents(), enrollment, attempt);
      if obstacle.Some? {
        return Err(obstacle.value);
      }
      var e := enrollments[enrollment];
      var lastErr: Certificates.Error := Conflict;
      assert draws[0..] == draws;
      for i := 0 to DRAWS
        invariant Contents() == old(Contents()) && lastErr == Conflict
        invariant DrawLoop(old(Contents()), draws) == DrawLoop(old(Contents()), draws[i..])
      {
        assert draws[i..][0] == draws[i] && draws[i..][1..] == draws[i + 1..];
        if draws[i].NoRandom? {
          return Err(Internal);
        }
        var certificate := Certificate(enrollment, e.user, e.course, attempt, draws[i].serial, draws[i].verifyHash);
        var refused := InsertCertificate(certificate, draws[i]);
        if refused.None? {
          return Ok(certificate);
        }
        lastErr := refused.value;
        if !lastErr.Conflict? {
          return Err(lastErr);
        }
      }
      return Err(lastErr);
    }

    method TryAutoIssueForEnrollment(enrollment: nat, draws: seq<Draw>)
      returns (r: Result<Option<Certificate>, Certificates.Error>, ghost candidate: Option<nat>)
      requires |draws| == DRAWS
      modifies this`certificates
      ensures CandidateFits(old(Contents()), enrollment, candidate)
      ensures r == AutoIssued(old(Contents()), enrollment, candidate, draws)
      ensures Contents() == AfterAutoIssue(old(Contents()), enrollment, candidate, draws)
    {
      if EnrollmentCertified(Contents(), enrollment) {
        return Ok(None), None;
      }
      var found := FindAutoIssueCandidate(enrollment);
      candidate := found;
      if found.None? || !courses[enrollments[enrollment].course].certificateEnabled {
        return Ok(None), candidate;
      }
      var created := CreateCertificate(enrollment, found.value, draws);
      if created.Err? {
        return if created.error.Conflict? then Ok(None) else Err(created.error), candidate;
      }
      return Ok(Some(created.value)), candidate;
    }

    // ---------- Enrollments ----------

    method Enroll(now: int, course: string, user: string) returns (r: Result<Enrollment, EnrollError>)
      modifies this`enrollments
      ensures r == Admission(old(Contents()), now, course, user)
      ensures Contents() == AfterEnroll(old(Contents()), now, course, user)
    {
      var courseId, userId := Trim(course), Trim(user);
      if courseId == "" || userId == "" {
        return Err(BlankId);
      }
      if HasEnrollment(Contents(), courseId, userId) {
        return Err(AlreadyEnrolled);
      }
      if courseId !in courses {
        return Err(InsertFailed);
      }
      var e := Enrollment(courseId, userId, Active, now, None);
      enrollments := enrollments + [e];
      return Ok(e);
    }

    method Complete(now: int, enrollment: nat, draws: seq<Draw>) returns (found: bool, ghost candidate: Option<nat>)
      requires |draws| == DRAWS
      modifies this`enrollments, this`certificates
      ensures found == CanComplete(old(Contents()), enrollment)
      ensures found ==> CandidateFits(MarkedComplete(old(Contents()), now, enrollment), enrollment, candidate)
      ensures Contents() == AfterComplete(old(Contents()), now, enrollment, candidate, draws)
    {
      if enrollment >= |enrollments| || enrollments[enrollment].status.Dropped? {
        return false, None;
      }
      var e := enrollments[enrollment];
      var completedAt := if e.completedAt.Some? then e.completedAt else Some(now);
      enrollments := enrollments[enrollment := e.(status := Completed, completedAt := completedAt)];
      var _, c := TryAutoIssueForEnrollment(enrollment, draws);
      return true, c;
    }

    // ---------- Attempts ----------

    /** The grading part of `Submit`. */
    method GradeSheet(questions: seq<Question>, passPercent: int, sheet: seq<Answer>, course: string, user: string,
                      startedAt: int, finishedAt: int)
      returns (attempt: Attempt)
      ensures attempt == Graded(questions, passPercent, sheet, course, user, startedAt, finishedAt)
    {
      var totalEarned, totalMax := EvaluateAttempt(questions, sheet);
      var scorePercent := 0.0;
      if totalMax > 0.0 {
        scorePercent := RoundToTwo(totalEarned / totalMax * 100.0);
      }
      var passed := scorePercent >= EffectivePassPercent(passPercent) as real;
      return Attempt(course, user, startedAt, finishedAt, RoundToTwo(totalEarned), RoundToTwo(totalMax), scorePercent,
                     passed);
    }

    /** `Submit`. On success it returns the recorded attempt. */
    method Submit(now: int, s: Submission, draws: seq<Draw>)
      returns (r: Result<Attempt, SubmitError>, ghost choices: Choices)
      requires |draws| == DRAWS
      modifies this`attempts, this`certificates
      ensures r == Submitted(old(Contents()), now, s)
      ensures choices.draws == draws
      ensures r.Ok? ==> ChoicesFit(WithAttempt(old(Contents()), r.value), r.value, choices)
      ensures Contents() == AfterSubmit(old(Contents()), now, s, choices)
    {
      choices := Choices(None, None, draws);
      var course, user := Trim(s.course), Trim(s.user);
      var normalized := NormalizeSubmittedAnswers(s.answers);
      if course == "" || user == "" || normalized.Err? {
        return Err(Rejected), choices;
      }
      if course !in courses {
        return Err(UnknownCourse), choices;
      }
      if HasCertificate(Contents(), course, user) {
        return Err(AlreadyCertified), choices;
      }
      var settings := courses[course];
      var count, earliest := GetUserCourseAttemptWindow(course, user, WindowStart(now, settings.cooldownDays));
      if count >= EffectiveMaxAttempts(settings.maxAttempts) {
        return Err(LimitReached(UnlockAt(earliest, settings.cooldownDays))), choices;
      }
      var startedAt := if s.startedAt.Some? then s.startedAt.value else now;
      var attempt := GradeSheet(settings.questions, settings.passPercent, normalized.value, course, user, startedAt,
                                now);
      assert attempt == AttemptOf(Contents(), now, s);
      if !FitsRow(attempt) {
        return Err(NotStored), choices;
      }
      attempts := attempts + [attempt];
      choices := TryAutoIssueCertificate(attempt, draws);
      return Ok(attempt), choices;
    }

    /** `tryAutoIssueCertificate`: only after a pass and only for an enrolled user. */
    method TryAutoIssueCertificate(attempt: Attempt, draws: seq<Draw>) returns (ghost choices: Choices)
      requires |draws| == DRAWS
      modifies this`certificates
      ensures choices.draws == draws
      ensures ChoicesFit(old(Contents()), attempt, choices)
      ensures Contents() == if attempt.passed && choices.latest.Some?
                            then AfterAutoIssue(old(Contents()), choices.latest.value, choices.candidate, draws)
                            else old(Contents())
    {
      choices := Choices(None, None, draws);
      if !attempt.passed {
        return;
      }
      var latest := GetLatestByCourseAndUser(attempt.course, attempt.user);
      if latest.None? {
        return;
      }
      var _, candidate := TryAutoIssueForEnrollment(latest.value, draws);
      choices := Choices(latest, candidate, draws);
    }
  }
}
