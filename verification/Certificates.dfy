/** Issuing certificates: the guards of `Create`, the five serial draws, and the automatic path
    `TryAutoIssueForEnrollment`. */
module Certificates {
  import opened Basics
  import opened Lms

  datatype Error = Validation | NotFound | Conflict | Internal

  // ---------- Serial numbers ----------

  function Digit(n: nat): char
    requires n < 10
  {
    "0123456789"[n]
  }

  /** `%03d` of a number below one thousand. */
  function ThreeDigits(n: nat): string
    requires n < 1000
  {
    [Digit(n / 100), Digit(n / 10 % 10), Digit(n % 10)]
  }

  function FormatSerial(number: nat): string
    requires number < 1000000000
  {
    ThreeDigits(number / 1000000) + "-" + ThreeDigits(number / 1000 % 1000) + "-" + ThreeDigits(number % 1000)
  }

  function NumberOf(b0: nat, b1: nat, b2: nat): nat {
    (b0 * 65536 + b1 * 256 + b2) % 1000000000
  }

  /** The serial made from the first three random bytes. */
  function SerialOf(b0: nat, b1: nat, b2: nat): string {
    FormatSerial(NumberOf(b0, b1, b2))
  }

  function DigitValue(c: char): int {
    c as int - '0' as int
  }

  function GroupValue(s: string): int
    requires |s| == 3
  {
    DigitValue(s[0]) * 100 + DigitValue(s[1]) * 10 + DigitValue(s[2])
  }

  lemma DigitRoundTrip(n: nat)
    requires n < 10
    ensures DigitValue(Digit(n)) == n
  {
  }

  lemma ThreeDigitsRoundTrip(n: nat)
    requires n < 1000
    ensures GroupValue(ThreeDigits(n)) == n
  {
    DigitRoundTrip(n / 100);
    DigitRoundTrip(n / 10 % 10);
    DigitRoundTrip(n % 10);
  }

  /** The number written in a serial. */
  function ParseSerial(s: string): int
    requires |s| == 11
  {
    GroupValue(s[..3]) * 1000000 + GroupValue(s[4..7]) * 1000 + GroupValue(s[8..])
  }

  lemma GroupsAddUp(number: nat)
    ensures number / 1000000 * 1000000 + number / 1000 % 1000 * 1000 + number % 1000 == number
  {
    var q := number / 1000;
    assert number == q * 1000 + number % 1000;
    assert q == q / 1000 * 1000 + q % 1000;
    assert number / 1000000 == q / 1000;
  }

  /** A serial reads "ddd-ddd-ddd" and gives its number back. */
  lemma SerialRoundTrip(number: nat)
    requires number < 1000000000
    ensures var s := FormatSerial(number); |s| == 11 && s[3] == '-' && s[7] == '-' && ParseSerial(s) == number
  {
    var s := FormatSerial(number);
    assert s[..3] == ThreeDigits(number / 1000000);
    assert s[4..7] == ThreeDigits(number / 1000 % 1000);
    assert s[8..] == ThreeDigits(number % 1000);
    ThreeDigitsRoundTrip(number / 1000000);
    ThreeDigitsRoundTrip(number / 1000 % 1000);
    ThreeDigitsRoundTrip(number % 1000);
    GroupsAddUp(number);
  }

  lemma BytesFillTheNumber(b0: nat, b1: nat, b2: nat)
    requires b0 < 256 && b1 < 256 && b2 < 256
    ensures NumberOf(b0, b1, b2) == b0 * 65536 + b1 * 256 + b2 < 16777216
  {
  }

  lemma SameNumberSameBytes(a0: nat, a1: nat, a2: nat, b0: nat, b1: nat, b2: nat)
    requires a0 < 256 && a1 < 256 && a2 < 256 && b0 < 256 && b1 < 256 && b2 < 256
    requires a0 * 65536 + a1 * 256 + a2 == b0 * 65536 + b1 * 256 + b2
    ensures a0 == b0 && a1 == b1 && a2 == b2
  {
  }

  lemma SameSerialSameNumber(x: nat, y: nat)
    requires x < 1000000000 && y < 1000000000 && FormatSerial(x) == FormatSerial(y)
    ensures x == y
  {
    SerialRoundTrip(x);
    SerialRoundTrip(y);
  }

  /** Two draws have the same serial exactly when their first three bytes agree: of the five bytes
      drawn only three matter, and there are 2^24 serials. */
  lemma SerialsClashOnThreeBytes(a0: nat, a1: nat, a2: nat, b0: nat, b1: nat, b2: nat)
    requires a0 < 256 && a1 < 256 && a2 < 256 && b0 < 256 && b1 < 256 && b2 < 256
    ensures SerialOf(a0, a1, a2) == SerialOf(b0, b1, b2) <==> a0 == b0 && a1 == b1 && a2 == b2
  {
    if SerialOf(a0, a1, a2) == SerialOf(b0, b1, b2) {
      SameSerialSameNumber(NumberOf(a0, a1, a2), NumberOf(b0, b1, b2));
      BytesFillTheNumber(a0, a1, a2);
      BytesFillTheNumber(b0, b1, b2);
      SameNumberSameBytes(a0, a1, a2, b0, b1, b2);
    }
  }

  // ---------- Drawing and inserting ----------

  const DRAWS := 5

  /** One turn of the insert loop: no random bytes, or a serial and a hash, and whether the
      database takes the row apart from the uniqueness of the two. */
  datatype Draw = NoRandom | Drawn(serial: string, verifyHash: string, insertWorks: bool)

  predicate Clashes(db: Db, draw: Draw) {
    && draw.Drawn? && draw.insertWorks
    && exists c :: c in db.certificates && (c.serial == draw.serial || c.verifyHash == draw.verifyHash)
  }

  predicate Fits(db: Db, draw: Draw) {
    draw.Drawn? && draw.insertWorks && !Clashes(db, draw)
  }

  /** The insert loop: only a clash is worth another draw; running out of draws is a conflict. */
  function DrawLoop(db: Db, draws: seq<Draw>): (r: Result<Draw, Error>)
    ensures r.Ok? ==> Fits(db, r.value)
    ensures r.Err? ==> r.error.Conflict? || r.error.Internal?
  {
    if draws == [] then Err(Conflict)
    else if Fits(db, draws[0]) then Ok(draws[0])
    else if Clashes(db, draws[0]) then DrawLoop(db, draws[1..])
    else Err(Internal)
  }

  /** Some draw fits and every draw before it clashed. */
  ghost predicate LuckyDraw(db: Db, draws: seq<Draw>) {
    exists i :: 0 <= i < |draws| && Fits(db, draws[i]) && forall j :: 0 <= j < i ==> Clashes(db, draws[j])
  }

  lemma {:induction false} DrawLoopMeaning(db: Db, draws: seq<Draw>)
    ensures DrawLoop(db, draws).Ok? <==> LuckyDraw(db, draws)
    ensures DrawLoop(db, draws) == Err(Conflict) <==> forall j :: 0 <= j < |draws| ==> Clashes(db, draws[j])
  {
    if draws != [] {
      DrawLoopMeaning(db, draws[1..]);
      assert forall j :: 0 <= j < |draws| - 1 ==> draws[1..][j] == draws[j + 1];
      if LuckyDraw(db, draws[1..]) && Clashes(db, draws[0]) {
        var i :| 0 <= i < |draws| - 1 && Fits(db, draws[1..][i])
                 && forall j :: 0 <= j < i ==> Clashes(db, draws[1..][j]);
        assert Fits(db, draws[i + 1]);
        forall j | 0 <= j < i + 1 ensures Clashes(db, draws[j]) {
          assert j > 0 ==> draws[j] == draws[1..][j - 1];
        }
      }
      if LuckyDraw(db, draws) && !Fits(db, draws[0]) {
        var i :| 0 <= i < |draws| && Fits(db, draws[i]) && forall j :: 0 <= j < i ==> Clashes(db, draws[j]);
        assert Fits(db, draws[1..][i - 1]);
        assert LuckyDraw(db, draws[1..]);
      }
      assert (forall j :: 0 <= j < |draws| ==> Clashes(db, draws[j])) ==>
        forall j :: 0 <= j < |draws| - 1 ==> Clashes(db, draws[1..][j]);
      if Clashes(db, draws[0]) && forall j :: 0 <= j < |draws| - 1 ==> Clashes(db, draws[1..][j]) {
        forall j | 0 <= j < |draws| ensures Clashes(db, draws[j]) {
          assert j > 0 ==> draws[j] == draws[1..][j - 1];
        }
      }
    }
  }

  // ---------- Create ----------

  /** The checks of `Create` before anything is drawn, in their order. */
  function Obstacle(db: Db, enrollment: nat, attempt: nat): Option<Error> {
    if PairCertified(db, enrollment, attempt) then Some(Conflict)
    else if enrollment >= |db.enrollments| || attempt >= |db.attempts| then Some(NotFound)
    else
      var e, a := db.enrollments[enrollment], db.attempts[attempt];
      if e.course !in db.courses || a.course != e.course then Some(NotFound)
      else if e.status.Dropped? then Some(Validation)
      else if !db.courses[e.course].certificateEnabled then Some(Conflict)
      else if !a.passed then Some(Validation)
      else if e.user != a.user then Some(Conflict)
      else None
  }

  function Created(db: Db, enrollment: nat, attempt: nat, draws: seq<Draw>): Result<Certificate, Error> {
    if Obstacle(db, enrollment, attempt).Some? then Err(Obstacle(db, enrollment, attempt).value)
    else
      match DrawLoop(db, draws)
      case Err(error) => Err(error)
      case Ok(draw) =>
        var e := db.enrollments[enrollment];
        Ok(Certificate(enrollment, e.user, e.course, attempt, draw.serial, draw.verifyHash))
  }

  function WithCertificate(db: Db, created: Result<Certificate, Error>): Db {
    if created.Ok? then db.(certificates := db.certificates + [created.value]) else db
  }

  predicate TakesDraw(db: Db, draws: seq<Draw>, i: nat) {
    i < |draws| && Fits(db, draws[i]) && forall j :: 0 <= j < i ==> Clashes(db, draws[j])
  }

  /** The loop stops at the first draw that does not clash. */
  lemma {:induction false} LoopTakesFirst(db: Db, draws: seq<Draw>) returns (i: nat)
    requires DrawLoop(db, draws).Ok?
    ensures TakesDraw(db, draws, i) && DrawLoop(db, draws) == Ok(draws[i])
  {
    if Fits(db, draws[0]) {
      i := 0;
    } else {
      var k := LoopTakesFirst(db, draws[1..]);
      i := k + 1;
      forall j | 0 <= j < i ensures Clashes(db, draws[j]) {
        assert j > 0 ==> draws[j] == draws[1..][j - 1];
      }
    }
  }

  /** A request for a certificate succeeds exactly when the pair has none yet, enrollment, attempt and course
      exist, the enrollment is live, the course issues certificates, the attempt was passed, by the enrolled user
      and at that course, and the draws are lucky. The certificate is for that user, course and attempt, under
      the first draw that does not clash. */
  lemma CreateExact(db: Db, enrollment: nat, attempt: nat, draws: seq<Draw>)
    ensures Created(db, enrollment, attempt, draws).Ok? <==>
              && (forall c :: c in db.certificates ==> !(c.enrollment == enrollment && c.attempt == attempt))
              && enrollment < |db.enrollments| && attempt < |db.attempts|
              && var e, a := db.enrollments[enrollment], db.attempts[attempt];
              && !e.status.Dropped? && e.course in db.courses && db.courses[e.course].certificateEnabled
              && a.passed && a.user == e.user && a.course == e.course && LuckyDraw(db, draws)
    ensures var r := Created(db, enrollment, attempt, draws);
            r.Ok? ==>
              && var e, c := db.enrollments[enrollment], r.value;
              && c.enrollment == enrollment && c.attempt == attempt && c.user == e.user && c.course == e.course
              && exists i: nat ::
                   TakesDraw(db, draws, i) && draws[i].serial == c.serial && draws[i].verifyHash == c.verifyHash
  {
    DrawLoopMeaning(db, draws);
    if DrawLoop(db, draws).Ok? {
      var i := LoopTakesFirst(db, draws);
    }
  }

  /** What a refused request is told. */
  lemma CreateRefusals(db: Db, enrollment: nat, attempt: nat, draws: seq<Draw>)
    ensures var r := Created(db, enrollment, attempt, draws);
            var known := enrollment < |db.enrollments| && attempt < |db.attempts|
                         && db.enrollments[enrollment].course in db.courses
                         && db.attempts[attempt].course == db.enrollments[enrollment].course;
            && (PairCertified(db, enrollment, attempt) ==> r == Err(Conflict))
            && (r == Err(NotFound) <==> !PairCertified(db, enrollment, attempt) && !known)
            && (known && !PairCertified(db, enrollment, attempt) ==>
                  var e, a := db.enrollments[enrollment], db.attempts[attempt];
                  && (e.status.Dropped? ==> r == Err(Validation))
                  && (!e.status.Dropped? && !db.courses[e.course].certificateEnabled ==> r == Err(Conflict))
                  && (!e.status.Dropped? && db.courses[e.course].certificateEnabled && !a.passed ==>
                        r == Err(Validation)))
  {
  }

  // ---------- Automatic issuing ----------

  /** `TryAutoIssueForEnrollment` for the candidate the database found; conflicts are swallowed. */
  function AutoIssued(db: Db, enrollment: nat, candidate: Option<nat>, draws: seq<Draw>)
    : Result<Option<Certificate>, Error>
  {
    if EnrollmentCertified(db, enrollment) || candidate.None? then Ok(None)
    else if enrollment >= |db.enrollments| || db.enrollments[enrollment].course !in db.courses then Ok(None)
    else if !db.courses[db.enrollments[enrollment].course].certificateEnabled then Ok(None)
    else
      match Created(db, enrollment, candidate.value, draws)
      case Ok(certificate) => Ok(Some(certificate))
      case Err(error) => if error.Conflict? then Ok(None) else Err(error)
  }

  /** The candidate is looked up only for an enrollment that has no certificate yet. */
  ghost predicate CandidateFits(db: Db, enrollment: nat, candidate: Option<nat>) {
    EnrollmentCertified(db, enrollment) || IsCandidate(db, enrollment, candidate)
  }

  function AfterAutoIssue(db: Db, enrollment: nat, candidate: Option<nat>, draws: seq<Draw>): Db {
    var issued := AutoIssued(db, enrollment, candidate, draws);
    if issued.Ok? && issued.value.Some? then db.(certificates := db.certificates + [issued.value.value]) else db
  }

  // ---------- The invariant of stored certificates ----------

  /** A certificate is backed by a passed attempt and an enrollment of the same user and course. */
  predicate Backed(db: Db, c: Certificate) {
    && c.enrollment < |db.enrollments| && c.attempt < |db.attempts|
    && db.attempts[c.attempt].passed
    && db.attempts[c.attempt].course == c.course == db.enrollments[c.enrollment].course
    && db.attempts[c.attempt].user == c.user == db.enrollments[c.enrollment].user
  }

  ghost predicate CertificateInv(db: Db) {
    && (forall c :: c in db.certificates ==> Backed(db, c))
    && (forall i, j :: 0 <= i < j < |db.certificates| ==>
          && (db.certificates[i].enrollment != db.certificates[j].enrollment
              || db.certificates[i].attempt != db.certificates[j].attempt)
          && db.certificates[i].serial != db.certificates[j].serial
          && db.certificates[i].verifyHash != db.certificates[j].verifyHash)
  }

  /** The guards of `Create` keep the invariant, whoever asks for the certificate. */
  lemma CreatedKeepsInv(db: Db, enrollment: nat, attempt: nat, draws: seq<Draw>)
    requires CertificateInv(db)
    ensures CertificateInv(WithCertificate(db, Created(db, enrollment, attempt, draws)))
  {
    DrawLoopMeaning(db, draws);
    var created := Created(db, enrollment, attempt, draws);
    if created.Ok? {
      var all := db.certificates + [created.value];
      forall i | 0 <= i < |db.certificates|
        ensures db.certificates[i].enrollment != enrollment || db.certificates[i].attempt != attempt
        ensures db.certificates[i].serial != created.value.serial
                && db.certificates[i].verifyHash != created.value.verifyHash
      {
        assert db.certificates[i] in db.certificates;
      }
    }
  }

  lemma AutoIssueKeepsInv(db: Db, enrollment: nat, candidate: Option<nat>, draws: seq<Draw>)
    requires CertificateInv(db)
    ensures CertificateInv(AfterAutoIssue(db, enrollment, candidate, draws))
    ensures EnrollmentCertified(db, enrollment) ==> AfterAutoIssue(db, enrollment, candidate, draws) == db
  {
    if candidate.Some? {
      CreatedKeepsInv(db, enrollment, candidate.value, draws);
    }
  }

  /** Automatic issuing succeeds exactly when the enrollment has no certificate yet, is live, its
      course issues certificates, its user has passed, and the draws are lucky; and then it is on
      the best passed attempt. */
  lemma AutoIssueExact(db: Db, enrollment: nat, candidate: Option<nat>, draws: seq<Draw>)
    requires CertificateInv(db) && CandidateFits(db, enrollment, candidate)
    requires enrollment < |db.enrollments| && db.enrollments[enrollment].course in db.courses
    ensures var e := db.enrollments[enrollment];
            var issued := AutoIssued(db, enrollment, candidate, draws);
            (issued.Ok? && issued.value.Some?) <==>
              && !EnrollmentCertified(db, enrollment) && !e.status.Dropped?
              && db.courses[e.course].certificateEnabled && HasPassed(db, e.course, e.user) && LuckyDraw(db, draws)
    ensures var issued := AutoIssued(db, enrollment, candidate, draws);
            issued.Ok? && issued.value.Some? ==>
              && issued.value.value.enrollment == enrollment
              && IsBestPassed(db, db.enrollments[enrollment].course, db.enrollments[enrollment].user,
                              issued.value.value.attempt)
  {
    DrawLoopMeaning(db, draws);
    var e := db.enrollments[enrollment];
    if IsCandidate(db, enrollment, candidate) && candidate.Some? {
      assert db.attempts[candidate.value] in db.attempts;
    }
  }

  /** Otherwise it fails only where `Create` fails with something else than a conflict: on a dropped enrollment, or
      when the draws break off before one fits. In all other cases it quietly issues nothing. */
  lemma AutoIssueFailures(db: Db, enrollment: nat, candidate: Option<nat>, draws: seq<Draw>)
    requires CertificateInv(db) && CandidateFits(db, enrollment, candidate)
    requires enrollment < |db.enrollments| && db.enrollments[enrollment].course in db.courses
    ensures var e := db.enrollments[enrollment];
            var due := !EnrollmentCertified(db, enrollment) && db.courses[e.course].certificateEnabled
                       && HasPassed(db, e.course, e.user);
            var issued := AutoIssued(db, enrollment, candidate, draws);
            && (issued == Err(Validation) <==> due && e.status.Dropped?)
            && (issued == Err(Internal) <==>
                  && due && !e.status.Dropped? && !LuckyDraw(db, draws)
                  && !(forall j :: 0 <= j < |draws| ==> Clashes(db, draws[j])))
            && (issued.Err? ==> issued.error.Validation? || issued.error.Internal?)
  {
    DrawLoopMeaning(db, draws);
    var e := db.enrollments[enrollment];
    if IsCandidate(db, enrollment, candidate) && candidate.Some? {
      assert db.attempts[candidate.value] in db.attempts;
    }
  }
}
