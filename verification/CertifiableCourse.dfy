/** The four parts together: validation, grading, the submit checks and automatic issuing. */
module CertifiableCourse {
  import opened Basics
  import opened Text
  import opened Grading
  import opened QuizValidation
  import opened PassableQuiz
  import opened Lms
  import opened Certificates
  import opened Submissions

  /** A course as stored from accepted settings and questions, under the ids the database gave. */
  function StoredCourse(given: Settings, payloads: seq<Payload>, ids: seq<string>, certificateEnabled: bool): Course
    requires NormalizeQuestions(payloads).Ok? && |NormalizeQuestions(payloads).value| == |ids|
  {
    var s := SettingsWithDefaults(given);
    Course(Stored(NormalizeQuestions(payloads).value, ids), s.passPercent, s.maxAttempts, s.cooldownDays,
           certificateEnabled)
  }

  ghost predicate OpenTo(db: Db, now: int, course: string, user: string) {
    && Trim(course) == course != "" && Trim(user) == user != "" && course in db.courses
    && !HasCertificate(db, course, user)
    && Counted(db, now, course, user) < EffectiveMaxAttempts(db.courses[course].maxAttempts)
  }

  /** Handing in `sheet` now is accepted and passes; and whatever the database chooses,
      an enrolled user with lucky draws ends up certified if the course issues certificates. */
  ghost predicate SheetCertifies(db: Db, now: int, course: string, user: string, sheet: seq<Answer>) {
    var s := Submission(course, user, None, sheet);
    && Submitted(db, now, s).Ok? && Submitted(db, now, s).value.passed
    && forall c :: ChoicesFit(WithAttempt(db, Submitted(db, now, s).value), Submitted(db, now, s).value, c) ==>
         (HasCertificate(AfterSubmit(db, now, s, c), course, user) <==>
            HasEnrollment(db, course, user) && LuckyDraw(db, c.draws) && course in db.courses
              && db.courses[course].certificateEnabled)
  }

  lemma PassingSheetCertifies(db: Db, now: int, course: string, user: string, sheet: seq<Answer>)
    requires CertificateInv(db) && OpenTo(db, now, course, user)
    requires PassingSheet(db.courses[course].questions, sheet, db.courses[course].passPercent)
    ensures SheetCertifies(db, now, course, user, sheet)
  {
    var s := Submission(course, user, None, sheet);
    assert Gate(db, now, s).None?;
    var a := Submitted(db, now, s).value;
    assert a.course == course && a.user == user && a.passed;
    forall c | ChoicesFit(WithAttempt(db, a), a, c)
      ensures HasCertificate(AfterSubmit(db, now, s, c), course, user) <==>
                HasEnrollment(db, course, user) && LuckyDraw(db, c.draws) && db.courses[course].certificateEnabled
    {
      PassingSubmitCertifies(db, now, s, c);
    }
  }

  /** A sheet that certifies is a passing sheet of the course. */
  lemma CertifyingSheetPasses(db: Db, now: int, course: string, user: string, sheet: seq<Answer>)
    requires course in db.courses && Trim(course) == course && SheetCertifies(db, now, course, user, sheet)
    ensures PassingSheet(db.courses[course].questions, sheet, db.courses[course].passPercent)
  {
    var s := Submission(course, user, None, sheet);
    assert Submitted(db, now, s) == Ok(AttemptOf(db, now, s));
  }

  ghost predicate ScoresFull(db: Db, now: int, course: string, user: string, sheet: seq<Answer>) {
    var r := Submitted(db, now, Submission(course, user, None, sheet));
    r.Ok? && r.value.score == 100.0
  }

  lemma FullMarksScoreFull(db: Db, now: int, course: string, user: string, sheet: seq<Answer>)
    requires OpenTo(db, now, course, user)
    requires FullMarks(db.courses[course].questions, sheet, db.courses[course].passPercent)
    ensures ScoresFull(db, now, course, user, sheet)
  {
    var s := Submission(course, user, None, sheet);
    assert Gate(db, now, s).None?;
    assert Submitted(db, now, s) == Ok(AttemptOf(db, now, s));
  }

  /** An accepted and stored course has a sheet that certifies every user the checks let through if and only if
      its quiz is winnable as stored. If no configuration spells a tag twice, that means that the quiz is
      worthwhile, and then such a sheet scores 100. */
  lemma AcceptedCourseCertifiableExactly(db: Db, now: int, course: string, user: string, given: Settings,
                                         payloads: seq<Payload>, ids: seq<string>, certificateEnabled: bool)
    requires CertificateInv(db) && OpenTo(db, now, course, user)
    requires AcceptedSettings(SettingsWithDefaults(given))
    requires NormalizeQuestions(payloads).Ok? && |NormalizeQuestions(payloads).value| == |ids|
    requires CanBeStored(NormalizeQuestions(payloads).value) && UsableQuestionIds(ids)
    requires db.courses[course] == StoredCourse(given, payloads, ids, certificateEnabled)
    ensures var accepted, c := NormalizeQuestions(payloads).value, db.courses[course];
            && ((exists sheet :: SheetCertifies(db, now, course, user, sheet)) <==>
                Winnable(c.questions, c.passPercent))
            && (AllSpeltOnce(accepted) ==>
                  && (Winnable(c.questions, c.passPercent) <==> Worthwhile(accepted, ids))
                  && (Worthwhile(accepted, ids) ==>
                        exists sheet :: SheetCertifies(db, now, course, user, sheet)
                                     && ScoresFull(db, now, course, user, sheet)))
  {
    AcceptedQuizPassableExactly(given, payloads, ids);
    var accepted := NormalizeQuestions(payloads).value;
    var questions, passPercent := Stored(accepted, ids), SettingsWithDefaults(given).passPercent;
    if Winnable(questions, passPercent) {
      var sheet :| PassingSheet(questions, sheet, passPercent);
      PassingSheetCertifies(db, now, course, user, sheet);
    }
    if sheet :| SheetCertifies(db, now, course, user, sheet) {
      CertifyingSheetPasses(db, now, course, user, sheet);
      assert PassingSheet(questions, sheet, passPercent);
    }
    if AllSpeltOnce(accepted) && Worthwhile(accepted, ids) {
      var sheet :| FullMarks(questions, sheet, passPercent);
      PassingSheetCertifies(db, now, course, user, sheet);
      FullMarksScoreFull(db, now, course, user, sheet);
    }
  }
}
