/** `Submit`: the checks before grading, the recorded attempt, and the certificate that a pass
    leaves behind. The choices a database may make freely are a parameter. */
module Submissions {
  import opened Basics
  import opened Text
  import opened Grading
  import opened SlidingWindow
  import opened Lms
  import opened Certificates

  datatype SubmitError = Rejected | UnknownCourse | AlreadyCertified | LimitReached(unlockAt: Option<int>) | NotStored

  datatype Submission = Submission(course: string, user: string, startedAt: Option<int>, answers: seq<Answer>)

  /** What the database and the random source decide during one submit. */
  datatype Choices = Choices(latest: Option<nat>, candidate: Option<nat>, draws: seq<Draw>)

  // ---------- The checks ----------

  function UnlockAt(earliest: Option<int>, cooldownDays: int): Option<int> {
    if cooldownDays > 0 && earliest.Some? then Some(earliest.value + cooldownDays * DAY) else None
  }

  function Counted(db: Db, now: int, course: string, user: string): nat
    requires course in db.courses
  {
    CountSince(Times(db.attempts, course, user), WindowStart(now, db.courses[course].cooldownDays))
  }

  /** Everything `Submit` checks before it grades, in its order. */
  function Gate(db: Db, now: int, s: Submission): Option<SubmitError> {
    var course, user := Trim(s.course), Trim(s.user);
    if course == "" || user == "" || NormalizeSheet(s.answers).Err? then Some(Rejected)
    else if course !in db.courses then Some(UnknownCourse)
    else if HasCertificate(db, course, user) then Some(AlreadyCertified)
    else if Counted(db, now, course, user) >= EffectiveMaxAttempts(db.courses[course].maxAttempts) then
      var cooldown := db.courses[course].cooldownDays;
      Some(LimitReached(UnlockAt(EarliestSince(Times(db.attempts, course, user), WindowStart(now, cooldown)),
                                 cooldown)))
    else None
  }

  // ---------- The attempt and its certificate ----------

  function Graded(questions: seq<Question>, passPercent: int, sheet: seq<Answer>, course: string, user: string,
                  startedAt: int, finishedAt: int): Attempt
  {
    var earned, max := TotalEarned(questions, AnswerMap(sheet)), TotalMax(questions);
    Attempt(course, user, startedAt, finishedAt, RoundToTwo(earned), RoundToTwo(max),
            ScorePercent(earned, max), Passes(earned, max, passPercent))
  }

  /** The attempt that a submit past the checks would record. */
  function AttemptOf(db: Db, now: int, s: Submission): Attempt
    requires Gate(db, now, s).None?
  {
    var course := db.courses[Trim(s.course)];
    Graded(course.questions, course.passPercent, NormalizeSheet(s.answers).value, Trim(s.course), Trim(s.user),
           if s.startedAt.Some? then s.startedAt.value else now, now)
  }

  function Submitted(db: Db, now: int, s: Submission): Result<Attempt, SubmitError> {
    if Gate(db, now, s).Some? then Err(Gate(db, now, s).value)
    else if !FitsRow(AttemptOf(db, now, s)) then Err(NotStored)
    else Ok(AttemptOf(db, now, s))
  }

  function WithAttempt(db: Db, a: Attempt): Db {
    db.(attempts := db.attempts + [a])
  }

  /** The choices are ones the queries allow, on the database that already holds the attempt.
      After a failed attempt nothing is looked up. */
  ghost predicate ChoicesFit(db: Db, a: Attempt, c: Choices) {
    && |c.draws| == DRAWS
    && (a.passed ==> IsLatest(db, a.course, a.user, c.latest))
    && (a.passed && c.latest.Some? ==> CandidateFits(db, c.latest.value, c.candidate))
  }

  function AfterAttempt(db: Db, a: Attempt, c: Choices): Db {
    if a.passed && c.latest.Some? then AfterAutoIssue(WithAttempt(db, a), c.latest.value, c.candidate, c.draws)
    else WithAttempt(db, a)
  }

  function AfterSubmit(db: Db, now: int, s: Submission, c: Choices): Db {
    var submitted := Submitted(db, now, s);
    if submitted.Ok? then AfterAttempt(db, submitted.value, c) else db
  }

  // ---------- When a submit goes through ----------

  /** The attempts of the user at the course that started after `since`, if it is given. */
  function AttemptsSince(attempts: seq<Attempt>, course: string, user: string, since: Option<int>): set<nat> {
    set k: nat | k < |attempts| && attempts[k].course == course && attempts[k].user == user
                 && (since.Some? ==> attempts[k].startedAt > since.value)
  }

  lemma OneMoreSince(init: seq<Attempt>, last: Attempt, course: string, user: string, since: Option<int>)
    ensures |AttemptsSince(init + [last], course, user, since)|
         == |AttemptsSince(init, course, user, since)|
            + (if last.course == course && last.user == user && (since.Some? ==> last.startedAt > since.value) then 1
               else 0)
  {
    var all := init + [last];
    assert AttemptsSince(all, course, user, since) - {|init|} == AttemptsSince(init, course, user, since);
    WithoutOne(AttemptsSince(all, course, user, since), |init|);
  }

  lemma {:induction false} CountIsNumber(attempts: seq<Attempt>, course: string, user: string, since: Option<int>)
    ensures CountSince(Times(attempts, course, user), since) == |AttemptsSince(attempts, course, user, since)|
  {
    if attempts != [] {
      var init, last := attempts[..|attempts| - 1], attempts[|attempts| - 1];
      assert attempts == init + [last];
      CountIsNumber(init, course, user, since);
      OneMoreSince(init, last, course, user, since);
      var times := Times(init, course, user);
      assert times + [] == times && (times + [last.startedAt])[..|times|] == times;
    } else {
      assert AttemptsSince(attempts, course, user, since) == {};
    }
  }

  /** The attempts that count against a submit now: all, or those of the cooldown, in days of 86400 seconds. */
  function CountedNow(db: Db, now: int, course: string, user: string): set<nat>
    requires course in db.courses
  {
    var days := db.courses[course].cooldownDays;
    AttemptsSince(db.attempts, course, user, if days > 0 then Some(now - days * 86400) else None)
  }

  predicate ReadableSheet(answers: seq<Answer>) {
    && answers != []
    && (forall i :: 0 <= i < |answers| ==> Trim(answers[i].questionId) != "")
    && (forall i, j :: 0 <= i < j < |answers| ==> Trim(answers[i].questionId) != Trim(answers[j].questionId))
  }

  /** A submit is graded exactly when it names a course and a user, its sheet answers something and names each
      question once, the course exists, the user has no certificate for it, and fewer attempts count than it
      allows, or than three if it allows none. Each refusal says which of these failed first. */
  lemma GateExact(db: Db, now: int, s: Submission)
    ensures var course, user, gate := Trim(s.course), Trim(s.user), Gate(db, now, s);
            var readable := course != "" && user != "" && ReadableSheet(s.answers);
            var certified := exists c :: c in db.certificates && c.course == course && c.user == user;
            var max := if course !in db.courses || db.courses[course].maxAttempts <= 0 then 3
                       else db.courses[course].maxAttempts;
            && (gate == Some(Rejected) <==> !readable)
            && (gate == Some(UnknownCourse) <==> readable && course !in db.courses)
            && (gate == Some(AlreadyCertified) <==> readable && course in db.courses && certified)
            && (gate.None? <==>
                  readable && course in db.courses && !certified && |CountedNow(db, now, course, user)| < max)
            && (gate.Some? && gate.value.LimitReached? <==>
                  readable && course in db.courses && !certified && |CountedNow(db, now, course, user)| >= max)
  {
    var course, user := Trim(s.course), Trim(s.user);
    SheetAcceptedExactly(s.answers);
    if course in db.courses {
      CountIsNumber(db.attempts, course, user, WindowStart(now, db.courses[course].cooldownDays));
    }
  }

  // ---------- A passing submit certifies ----------

  lemma AttemptKeepsInv(db: Db, a: Attempt)
    requires CertificateInv(db)
    ensures CertificateInv(WithAttempt(db, a))
  {
    var db' := WithAttempt(db, a);
    forall c | c in db'.certificates ensures Backed(db', c) {
      assert Backed(db, c);
      assert db'.attempts[c.attempt] == db.attempts[c.attempt];
    }
  }

  lemma SubmitKeepsInv(db: Db, now: int, s: Submission, c: Choices)
    requires CertificateInv(db)
    ensures CertificateInv(AfterSubmit(db, now, s, c))
  {
    var submitted := Submitted(db, now, s);
    if submitted.Ok? {
      AttemptKeepsInv(db, submitted.value);
      if c.latest.Some? {
        AutoIssueKeepsInv(WithAttempt(db, submitted.value), c.latest.value, c.candidate, c.draws);
      }
    }
  }

  /** A certificate of an enrollment is a certificate of its user and course. */
  lemma EnrollmentCertificateIsTheUsers(db: Db, enrollment: nat)
    requires CertificateInv(db) && enrollment < |db.enrollments| && EnrollmentCertified(db, enrollment)
    ensures HasCertificate(db, db.enrollments[enrollment].course, db.enrollments[enrollment].user)
  {
    var c :| c in db.certificates && c.enrollment == enrollment;
    assert Backed(db, c);
  }

  lemma LuckIgnoresAttempts(db: Db, a: Attempt, draws: seq<Draw>)
    ensures LuckyDraw(WithAttempt(db, a), draws) <==> LuckyDraw(db, draws)
  {
    var db' := WithAttempt(db, a);
    forall d: Draw ensures Clashes(db', d) <==> Clashes(db, d) {
    }
    forall d: Draw ensures Fits(db', d) <==> Fits(db, d) {
    }
  }

  lemma NewCertificateIsTheUsers(db: Db, enrollment: nat, c: Choices)
    requires enrollment < |db.enrollments| && db.enrollments[enrollment].course in db.courses
    requires !HasCertificate(db, db.enrollments[enrollment].course, db.enrollments[enrollment].user)
    ensures var e, db' := db.enrollments[enrollment], AfterAutoIssue(db, enrollment, c.candidate, c.draws);
            var issued := AutoIssued(db, enrollment, c.candidate, c.draws);
            && (HasCertificate(db', e.course, e.user) <==> issued.Ok? && issued.value.Some?)
            && (issued.Ok? && issued.value.Some? ==>
                  db'.certificates[|db.certificates|] == issued.value.value
                  && issued.value.value.course == e.course && issued.value.value.user == e.user)
  {
    var e, db' := db.enrollments[enrollment], AfterAutoIssue(db, enrollment, c.candidate, c.draws);
    var issued := AutoIssued(db, enrollment, c.candidate, c.draws);
    if issued.Ok? && issued.value.Some? {
      assert db'.certificates[|db.certificates|] == issued.value.value;
    } else {
      assert db' == db;
    }
  }

  /** After a passing submit the user holds a certificate for the course exactly when the user is
      enrolled, the course issues certificates and one of the draws was free before anything but
      a clash happened. It is then the only new one, on the latest live enrollment and on the best
      passed attempt. None of the early exits of the issuing path can fire. */
  lemma PassingSubmitCertifies(db: Db, now: int, s: Submission, c: Choices)
    requires CertificateInv(db) && Submitted(db, now, s).Ok? && Submitted(db, now, s).value.passed
    requires ChoicesFit(WithAttempt(db, Submitted(db, now, s).value), Submitted(db, now, s).value, c)
    ensures var a, db' := Submitted(db, now, s).value, AfterSubmit(db, now, s, c);
            HasCertificate(db', a.course, a.user) <==>
              HasEnrollment(db, a.course, a.user) && db.courses[a.course].certificateEnabled && LuckyDraw(db, c.draws)
    ensures var a, db' := Submitted(db, now, s).value, AfterSubmit(db, now, s, c);
            HasCertificate(db', a.course, a.user) ==>
              && |db'.certificates| == |db.certificates| + 1 && db.certificates <= db'.certificates
              && var added := db'.certificates[|db.certificates|];
              && added.course == a.course && added.user == a.user
              && added.enrollment < |db.enrollments|
              && var e := db.enrollments[added.enrollment];
              && e.course == a.course && e.user == a.user && !e.status.Dropped?
              && (forall other :: other in db.enrollments && Enrolled(other, a.course, a.user) ==>
                    other.enrolledAt <= e.enrolledAt)
              && IsBestPassed(db', a.course, a.user, added.attempt)
  {
    var a := Submitted(db, now, s).value;
    var mid := WithAttempt(db, a);
    AttemptKeepsInv(db, a);
    LuckIgnoresAttempts(db, a, c.draws);
    assert HasEnrollment(mid, a.course, a.user) <==> HasEnrollment(db, a.course, a.user);
    assert !HasCertificate(mid, a.course, a.user);
    if c.latest.Some? {
      var e := c.latest.value;
      assert HasEnrollment(db, a.course, a.user) by { assert mid.enrollments[e] in mid.enrollments; }
      if EnrollmentCertified(mid, e) {
        EnrollmentCertificateIsTheUsers(mid, e);
      }
      assert HasPassed(mid, a.course, a.user) by { assert mid.attempts[|db.attempts|] == a && a in mid.attempts; }
      AutoIssueExact(mid, e, c.candidate, c.draws);
      NewCertificateIsTheUsers(mid, e, c);
    }
  }

  // ---------- The reported unlock time ----------

  /** Cuts between which nothing was recorded count the same. */
  lemma {:induction false} CountAfterAgrees(times: seq<int>, cut: int, later: int)
    requires forall i :: 0 <= i < |times| && times[i] > cut ==> times[i] > later
    ensures CountAfter(times, cut) <= CountAfter(times, later)
  {
    if times != [] {
      CountAfterAgrees(times[..|times| - 1], cut, later);
    }
  }

  lemma {:induction false} CountAfterGrows(times: seq<int>, more: seq<int>, cut: int)
    ensures CountAfter(times, cut) <= CountAfter(times + more, cut)
  {
    if more == [] {
      assert times + more == times;
    } else {
      CountAfterGrows(times, more[..|more| - 1], cut);
      assert (times + more)[..|times + more| - 1] == times + more[..|more| - 1];
    }
  }

  /** The limit refuses the submit and reports a moment. */
  predicate NamesUnlock(db: Db, now: int, s: Submission) {
    && Gate(db, now, s).Some? && Gate(db, now, s).value.LimitReached? && Gate(db, now, s).value.unlockAt.Some?
  }

  /** What a refusal that names a moment says about the recorded times. */
  lemma RefusalMeaning(db: Db, now: int, s: Submission)
    requires NamesUnlock(db, now, s)
    ensures var course := db.courses[Trim(s.course)];
            var times := Times(db.attempts, Trim(s.course), Trim(s.user));
            var cooldown := course.cooldownDays * DAY;
            && course.cooldownDays > 0
            && EarliestSince(times, Some(now - cooldown)) == Some(Gate(db, now, s).value.unlockAt.value - cooldown)
            && CountAfter(times, now - cooldown) >= EffectiveMaxAttempts(course.maxAttempts)
  {
  }

  lemma LimitRefuses(db: Db, now: int, s: Submission)
    requires Trim(s.course) in db.courses
    requires Counted(db, now, Trim(s.course), Trim(s.user))
          >= EffectiveMaxAttempts(db.courses[Trim(s.course)].maxAttempts)
    ensures Gate(db, now, s).Some?
  {
  }

  lemma StillCounted(times: seq<int>, more: seq<int>, window: int, now: int, t: int, earliest: int)
    requires EarliestSince(times, Some(now - window)) == Some(earliest) && t < earliest + window
    ensures CountAfter(times, now - window) <= CountAfter(times + more, t - window)
  {
    EarliestIsLeast(times, now - window);
    CountAfterAgrees(times, now - window, t - window);
    CountAfterGrows(times, more, t - window);
  }

  lemma OneDropsOut(times: seq<int>, window: int, max: nat, now: int, t: int, earliest: int)
    requires EarliestSince(times, Some(now - window)) == Some(earliest) && t >= earliest + window
    requires CountAfter(times, now - window) <= max
    ensures CountAfter(times, t - window) < max
  {
    EarliestIsLeast(times, now - window);
    var i :| 0 <= i < |times| && times[i] > now - window && times[i] == earliest;
    CountAfterDrops(times, now - window, t - window, i);
  }

  /** Until the earliest counted attempt leaves the window, later rows count at least as many. */
  lemma LaterRowsStillCounted(earlier: seq<Attempt>, later: seq<Attempt>, course: string, user: string,
                              window: int, now: int, t: int, earliest: int)
    requires earlier <= later
    requires EarliestSince(Times(earlier, course, user), Some(now - window)) == Some(earliest) && t < earliest + window
    ensures CountAfter(Times(earlier, course, user), now - window) <= CountAfter(Times(later, course, user), t - window)
  {
    var more := later[|earlier|..];
    assert later == earlier + more;
    TimesSplit(earlier, more, course, user);
    StillCounted(Times(earlier, course, user), Times(more, course, user), window, now, t, earliest);
  }

  /** The same limit is in force for the same user. */
  predicate SameLimit(db: Db, later: Db, course: string) {
    && course in db.courses && course in later.courses
    && db.courses[course].cooldownDays == later.courses[course].cooldownDays
    && EffectiveMaxAttempts(db.courses[course].maxAttempts) == EffectiveMaxAttempts(later.courses[course].maxAttempts)
  }

  /** A submit refused by the limit under a cooldown stays refused until the reported moment,
      whatever is recorded in between. */
  lemma RefusedUntilUnlock(db: Db, now: int, s: Submission, later: Db, t: int, again: Submission)
    requires NamesUnlock(db, now, s)
    requires Trim(again.course) == Trim(s.course) && Trim(again.user) == Trim(s.user)
    requires SameLimit(db, later, Trim(s.course)) && db.attempts <= later.attempts
    requires now <= t < Gate(db, now, s).value.unlockAt.value
    ensures Gate(later, t, again).Some?
  {
    var course, user := Trim(s.course), Trim(s.user);
    var cooldown := db.courses[course].cooldownDays * DAY;
    RefusalMeaning(db, now, s);
    LaterRowsStillCounted(db.attempts, later.attempts, course, user, cooldown, now, t,
                          Gate(db, now, s).value.unlockAt.value - cooldown);
    assert Counted(later, t, course, user) == CountAfter(Times(later.attempts, course, user), t - cooldown);
    LimitRefuses(later, t, again);
  }

  /** With at most `max` attempts in the window, the limit opens at the reported moment and, with
      nothing recorded in between, stays open. */
  lemma AdmittedFromUnlock(db: Db, now: int, s: Submission, t: int)
    requires NamesUnlock(db, now, s)
    requires Counted(db, now, Trim(s.course), Trim(s.user))
          <= EffectiveMaxAttempts(db.courses[Trim(s.course)].maxAttempts)
    requires t >= Gate(db, now, s).value.unlockAt.value
    ensures Counted(db, t, Trim(s.course), Trim(s.user)) < EffectiveMaxAttempts(db.courses[Trim(s.course)].maxAttempts)
  {
    var course := db.courses[Trim(s.course)];
    var cooldown := course.cooldownDays * DAY;
    RefusalMeaning(db, now, s);
    var times := Times(db.attempts, Trim(s.course), Trim(s.user));
    var earliest := Gate(db, now, s).value.unlockAt.value - cooldown;
    OneDropsOut(times, cooldown, EffectiveMaxAttempts(course.maxAttempts), now, t, earliest);
  }

  /** In general, with nothing recorded in between, the limit is open at every moment from the
      reported one on exactly when fewer than the allowed attempts lie after the earliest one. */
  lemma OpensAtUnlockExactly(db: Db, now: int, s: Submission)
    requires NamesUnlock(db, now, s)
    ensures var course := db.courses[Trim(s.course)];
            var times := Times(db.attempts, Trim(s.course), Trim(s.user));
            var max, unlock := EffectiveMaxAttempts(course.maxAttempts), Gate(db, now, s).value.unlockAt.value;
            (forall t :: t >= unlock ==> Counted(db, t, Trim(s.course), Trim(s.user)) < max) <==>
              CountAfter(times, EarliestSince(times, WindowStart(now, course.cooldownDays)).value) < max
  {
    RefusalMeaning(db, now, s);
    var course := db.courses[Trim(s.course)];
    var cooldown, max := course.cooldownDays * DAY, EffectiveMaxAttempts(course.maxAttempts);
    var times := Times(db.attempts, Trim(s.course), Trim(s.user));
    var unlock := Gate(db, now, s).value.unlockAt.value;
    assert Counted(db, unlock, Trim(s.course), Trim(s.user)) == CountAfter(times, unlock - cooldown);
    if CountAfter(times, unlock - cooldown) < max {
      forall t | t >= unlock ensures Counted(db, t, Trim(s.course), Trim(s.user)) < max {
        CountAfterMonotone(times, t - cooldown, unlock - cooldown);
      }
    }
  }
}
