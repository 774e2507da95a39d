/** Automatic issuing that overlaps: the look for a certificate, the candidate, the checks of `Create` and the
    insert are separate statements, with nothing held in between. */
module RacingIssues {
  import opened Basics
  import opened Lms
  import opened Certificates

  type IssueId = nat

  /** How far one issuing has come: no certificate was found; an attempt was chosen; the checks of `Create`
      were passed, and draws are tried. */
  datatype Stage = Looked | Chosen(attempt: nat) | Ready(attempt: nat)

  datatype Flight = Flight(enrollment: nat, stage: Stage)

  datatype State = State(db: Db, flights: map<IssueId, Flight>)

  datatype Step =
    | Look(id: IssueId, enrollment: nat)
    | Choose(id: IssueId, candidate: Option<nat>)
    | Check(id: IssueId)
    | Insert(id: IssueId, draw: Draw)
    | GiveUp(id: IssueId)
    | OtherWrite

  datatype Run = Run(states: seq<State>, steps: seq<Step>)

  function Advanced(s: State, id: IssueId, stage: Stage): State
    requires id in s.flights
  {
    s.(flights := s.flights[id := s.flights[id].(stage := stage)])
  }

  function Ended(s: State, id: IssueId): State {
    s.(flights := s.flights - {id})
  }

  /** The certificate that `Create` inserts for a draw. */
  function CertificateFor(db: Db, enrollment: nat, attempt: nat, draw: Draw): Certificate
    requires enrollment < |db.enrollments| && draw.Drawn?
  {
    var e := db.enrollments[enrollment];
    Certificate(enrollment, e.user, e.course, attempt, draw.serial, draw.verifyHash)
  }

  predicate Offered(db: Db, enrollment: nat) {
    && enrollment < |db.enrollments| && db.enrollments[enrollment].course in db.courses
    && db.courses[db.enrollments[enrollment].course].certificateEnabled
  }

  ghost predicate ChooseStep(s: State, id: IssueId, candidate: Option<nat>, s': State) {
    && id in s.flights && s.flights[id].stage.Looked?
    && IsCandidate(s.db, s.flights[id].enrollment, candidate)
    && s' == if candidate.Some? && Offered(s.db, s.flights[id].enrollment) then
               Advanced(s, id, Chosen(candidate.value))
             else Ended(s, id)
  }

  ghost predicate CheckStep(s: State, id: IssueId, s': State) {
    && id in s.flights && s.flights[id].stage.Chosen?
    && var f := s.flights[id];
    s' == if Obstacle(s.db, f.enrollment, f.stage.attempt).None? then Advanced(s, id, Ready(f.stage.attempt))
          else Ended(s, id)
  }

  /** A draw that fits is inserted, one that clashes is tried again, any other failure ends the issuing. */
  ghost predicate InsertStep(s: State, id: IssueId, draw: Draw, s': State) {
    && id in s.flights && s.flights[id].stage.Ready? && s.flights[id].enrollment < |s.db.enrollments|
    && var f := s.flights[id];
    s' == if Fits(s.db, draw) then
            var c := CertificateFor(s.db, f.enrollment, f.stage.attempt, draw);
            Ended(s.(db := s.db.(certificates := s.db.certificates + [c])), id)
          else if Clashes(s.db, draw) then s
          else Ended(s, id)
  }

  ghost predicate Next(s: State, step: Step, s': State) {
    match step
    case Look(id, enrollment) =>
      && id !in s.flights
      && s' == if EnrollmentCertified(s.db, enrollment) then s
               else s.(flights := s.flights[id := Flight(enrollment, Looked)])
    case Choose(id, candidate) => ChooseStep(s, id, candidate, s')
    case Check(id) => CheckStep(s, id, s')
    case Insert(id, draw) => InsertStep(s, id, draw, s')
    case GiveUp(id) => id in s.flights && s' == Ended(s, id)
    case OtherWrite => s'.flights == s.flights && s'.db.certificates == s.db.certificates
  }

  function InFlight(s: State, enrollment: nat): set<IssueId> {
    set id | id in s.flights && s.flights[id].enrollment == enrollment
  }

  /** How many certificates an enrollment has. */
  function CertificatesOf(certificates: seq<Certificate>, enrollment: nat): nat {
    if certificates == [] then 0
    else
      CertificatesOf(certificates[..|certificates| - 1], enrollment)
      + (if certificates[|certificates| - 1].enrollment == enrollment then 1 else 0)
  }

  /** A run in which the enrollment starts without a certificate and at most `k` issuings for it overlap. */
  ghost predicate IsRun(run: Run, enrollment: nat, k: nat) {
    && |run.states| == |run.steps| + 1
    && !EnrollmentCertified(run.states[0].db, enrollment) && run.states[0].flights == map[]
    && (forall i :: 0 <= i < |run.steps| ==> Next(run.states[i], run.steps[i], run.states[i + 1]))
    && (forall i :: 0 <= i < |run.states| ==> |InFlight(run.states[i], enrollment)| <= k)
  }

  function Last(run: Run): State
    requires |run.states| > 0
  {
    run.states[|run.states| - 1]
  }

  // ---------- The bound ----------

  ghost predicate IssueInv(s: State, enrollment: nat, k: nat) {
    CertificatesOf(s.db.certificates, enrollment) + |InFlight(s, enrollment)| <= k
  }

  lemma {:induction false} NoneCertified(certificates: seq<Certificate>, enrollment: nat)
    requires forall c :: c in certificates ==> c.enrollment != enrollment
    ensures CertificatesOf(certificates, enrollment) == 0
  {
    if certificates != [] {
      assert certificates[|certificates| - 1] in certificates;
      NoneCertified(certificates[..|certificates| - 1], enrollment);
    }
  }

  lemma OneMoreCertificate(certificates: seq<Certificate>, c: Certificate, enrollment: nat)
    ensures CertificatesOf(certificates + [c], enrollment)
         == CertificatesOf(certificates, enrollment) + (if c.enrollment == enrollment then 1 else 0)
  {
    assert (certificates + [c])[..|certificates|] == certificates;
  }

  lemma EndedLeaves(s: State, id: IssueId, enrollment: nat)
    requires id in s.flights
    ensures |InFlight(Ended(s, id), enrollment)|
         == |InFlight(s, enrollment)| - (if s.flights[id].enrollment == enrollment then 1 else 0)
  {
    assert InFlight(Ended(s, id), enrollment) == InFlight(s, enrollment) - {id};
  }

  lemma AdvancedStays(s: State, id: IssueId, stage: Stage, enrollment: nat)
    requires id in s.flights
    ensures InFlight(Advanced(s, id, stage), enrollment) == InFlight(s, enrollment)
  {
  }

  lemma InsertKeepsInv(s: State, id: IssueId, draw: Draw, s': State, enrollment: nat, k: nat)
    requires IssueInv(s, enrollment, k) && InsertStep(s, id, draw, s')
    ensures IssueInv(s', enrollment, k)
  {
    if Fits(s.db, draw) {
      var c := CertificateFor(s.db, s.flights[id].enrollment, s.flights[id].stage.attempt, draw);
      OneMoreCertificate(s.db.certificates, c, enrollment);
    }
    EndedLeaves(s, id, enrollment);
    assert s' != s ==> InFlight(s', enrollment) == InFlight(Ended(s, id), enrollment);
  }

  lemma StepKeepsInv(s: State, step: Step, s': State, enrollment: nat, k: nat)
    requires IssueInv(s, enrollment, k) && Next(s, step, s') && |InFlight(s', enrollment)| <= k
    ensures IssueInv(s', enrollment, k)
  {
    match step {
      case Look(id, theirs) =>
        if theirs == enrollment && !EnrollmentCertified(s.db, enrollment) {
          NoneCertified(s.db.certificates, enrollment);
        } else {
          assert InFlight(s', enrollment) == InFlight(s, enrollment);
        }
      case Choose(id, candidate) =>
        EndedLeaves(s, id, enrollment);
        if candidate.Some? {
          AdvancedStays(s, id, Chosen(candidate.value), enrollment);
        }
      case Check(id) =>
        EndedLeaves(s, id, enrollment);
        AdvancedStays(s, id, Ready(s.flights[id].stage.attempt), enrollment);
      case Insert(id, draw) =>
        InsertKeepsInv(s, id, draw, s', enrollment, k);
      case GiveUp(id) =>
        EndedLeaves(s, id, enrollment);
      case OtherWrite =>
        assert InFlight(s', enrollment) == InFlight(s, enrollment);
    }
  }

  lemma {:induction false} IssueInvHolds(run: Run, i: nat, enrollment: nat, k: nat)
    requires IsRun(run, enrollment, k) && i < |run.states|
    ensures IssueInv(run.states[i], enrollment, k)
  {
    if i > 0 {
      IssueInvHolds(run, i - 1, enrollment, k);
      StepKeepsInv(run.states[i - 1], run.steps[i - 1], run.states[i], enrollment, k);
    } else {
      NoneCertified(run.states[0].db.certificates, enrollment);
    }
  }

  /** In any interleaving, `k` overlapping issuings give an enrollment at most `k` certificates. */
  lemma RacingIssuesBound(run: Run, i: nat, enrollment: nat, k: nat)
    requires IsRun(run, enrollment, k) && i < |run.states|
    ensures CertificatesOf(run.states[i].db.certificates, enrollment) <= k
  {
    IssueInvHolds(run, i, enrollment, k);
  }

  // ---------- The bound is reached ----------

  /** Automatic issuing would succeed on this attempt. */
  ghost predicate Issuable(db: Db, enrollment: nat, attempt: nat) {
    && !EnrollmentCertified(db, enrollment) && Offered(db, enrollment)
    && IsCandidate(db, enrollment, Some(attempt)) && Obstacle(db, enrollment, attempt).None?
  }

  /** Draws that fit the database and do not clash with one another. */
  ghost predicate DistinctDraws(db: Db, draws: seq<Draw>) {
    && (forall i :: 0 <= i < |draws| ==> Fits(db, draws[i]))
    && (forall i, j :: 0 <= i < j < |draws| ==>
          draws[i].serial != draws[j].serial && draws[i].verifyHash != draws[j].verifyHash)
  }

  /** The flights from `first` up to `end`, all past their checks. */
  function Wave(enrollment: nat, attempt: nat, first: nat, end: nat): (flights: map<IssueId, Flight>)
    ensures forall id :: id in flights <==> first <= id < end
    ensures forall id :: id in flights ==> flights[id] == Flight(enrollment, Ready(attempt))
    decreases end
  {
    if first >= end then map[]
    else Wave(enrollment, attempt, first, end - 1)[end - 1 := Flight(enrollment, Ready(attempt))]
  }

  lemma {:induction false} FewInFlight(s: State, enrollment: nat, first: nat, end: nat)
    requires first <= end && forall id :: id in s.flights ==> first <= id < end
    ensures |InFlight(s, enrollment)| <= end - first
    decreases end
  {
    if first < end {
      var fewer := Ended(s, end - 1);
      FewInFlight(fewer, enrollment, first, end - 1);
      assert InFlight(fewer, enrollment) == InFlight(s, enrollment) - {end - 1};
    } else {
      assert InFlight(s, enrollment) == {};
    }
  }

  lemma Extended(run: Run, enrollment: nat, k: nat, step: Step, s': State) returns (longer: Run)
    requires IsRun(run, enrollment, k) && Next(Last(run), step, s') && |InFlight(s', enrollment)| <= k
    ensures IsRun(longer, enrollment, k) && Last(longer) == s' && longer.states[0] == run.states[0]
  {
    longer := Run(run.states + [s'], run.steps + [step]);
    forall i | 0 <= i < |longer.steps| ensures Next(longer.states[i], longer.steps[i], longer.states[i + 1]) {
      if i < |run.steps| {
        assert Next(run.states[i], run.steps[i], run.states[i + 1]);
      }
    }
  }

  /** One more issuing gets through the checks while none has inserted yet. */
  lemma OneReady(run: Run, db: Db, enrollment: nat, attempt: nat, k: nat, j: nat) returns (longer: Run)
    requires Issuable(db, enrollment, attempt) && j < k
    requires IsRun(run, enrollment, k) && Last(run) == State(db, Wave(enrollment, attempt, 0, j))
    ensures IsRun(longer, enrollment, k) && Last(longer) == State(db, Wave(enrollment, attempt, 0, j + 1))
    ensures longer.states[0] == run.states[0]
  {
    var s := Last(run);
    var looked := s.(flights := s.flights[j := Flight(enrollment, Looked)]);
    FewInFlight(looked, enrollment, 0, j + 1);
    longer := Extended(run, enrollment, k, Look(j, enrollment), looked);
    var chosen := Advanced(looked, j, Chosen(attempt));
    FewInFlight(chosen, enrollment, 0, j + 1);
    longer := Extended(longer, enrollment, k, Choose(j, Some(attempt)), chosen);
    var ready := Advanced(chosen, j, Ready(attempt));
    assert ready.flights == Wave(enrollment, attempt, 0, j + 1);
    FewInFlight(ready, enrollment, 0, j + 1);
    longer := Extended(longer, enrollment, k, Check(j), ready);
  }

  lemma {:induction false} AllReady(db: Db, enrollment: nat, attempt: nat, k: nat, j: nat) returns (run: Run)
    requires Issuable(db, enrollment, attempt) && j <= k
    ensures IsRun(run, enrollment, k) && Last(run) == State(db, Wave(enrollment, attempt, 0, j))
    ensures run.states[0] == State(db, map[])
  {
    if j == 0 {
      run := Run([State(db, map[])], []);
      FewInFlight(State(db, map[]), enrollment, 0, 0);
    } else {
      run := AllReady(db, enrollment, attempt, k, j - 1);
      run := OneReady(run, db, enrollment, attempt, k, j - 1);
    }
  }

  /** The certificates that the first `n` draws make. */
  function Issued(db: Db, enrollment: nat, attempt: nat, draws: seq<Draw>, n: nat): (certificates: seq<Certificate>)
    requires enrollment < |db.enrollments| && n <= |draws| && forall i :: 0 <= i < |draws| ==> draws[i].Drawn?
    ensures |certificates| == n
    ensures forall i :: 0 <= i < n ==> certificates[i] == CertificateFor(db, enrollment, attempt, draws[i])
  {
    seq(n, i requires 0 <= i < n => CertificateFor(db, enrollment, attempt, draws[i]))
  }

  lemma StillFits(db: Db, enrollment: nat, attempt: nat, draws: seq<Draw>, n: nat)
    requires DistinctDraws(db, draws) && enrollment < |db.enrollments| && n < |draws|
    ensures Fits(db.(certificates := db.certificates + Issued(db, enrollment, attempt, draws, n)), draws[n])
  {
    var all := db.certificates + Issued(db, enrollment, attempt, draws, n);
    forall c | c in all ensures c.serial != draws[n].serial && c.verifyHash != draws[n].verifyHash {
      if c !in db.certificates {
        var i :| 0 <= i < n && Issued(db, enrollment, attempt, draws, n)[i] == c;
      }
    }
  }

  lemma {:induction false} CountIssued(db: Db, enrollment: nat, attempt: nat, draws: seq<Draw>, n: nat)
    requires !EnrollmentCertified(db, enrollment) && enrollment < |db.enrollments| && n <= |draws|
    requires forall i :: 0 <= i < |draws| ==> draws[i].Drawn?
    ensures CertificatesOf(db.certificates + Issued(db, enrollment, attempt, draws, n), enrollment) == n
  {
    if n == 0 {
      NoneCertified(db.certificates, enrollment);
      assert db.certificates + Issued(db, enrollment, attempt, draws, 0) == db.certificates;
    } else {
      CountIssued(db, enrollment, attempt, draws, n - 1);
      var before := db.certificates + Issued(db, enrollment, attempt, draws, n - 1);
      var c := CertificateFor(db, enrollment, attempt, draws[n - 1]);
      assert db.certificates + Issued(db, enrollment, attempt, draws, n) == before + [c];
      OneMoreCertificate(before, c, enrollment);
    }
  }

  function AfterInserts(db: Db, enrollment: nat, attempt: nat, draws: seq<Draw>, n: nat): State
    requires enrollment < |db.enrollments| && n <= |draws| && forall i :: 0 <= i < |draws| ==> draws[i].Drawn?
  {
    State(db.(certificates := db.certificates + Issued(db, enrollment, attempt, draws, n)),
          Wave(enrollment, attempt, n, |draws|))
  }

  lemma OneInserted(run: Run, db: Db, enrollment: nat, attempt: nat, draws: seq<Draw>, n: nat) returns (longer: Run)
    requires DistinctDraws(db, draws) && enrollment < |db.enrollments| && n < |draws|
    requires IsRun(run, enrollment, |draws|) && Last(run) == AfterInserts(db, enrollment, attempt, draws, n)
    ensures IsRun(longer, enrollment, |draws|) && Last(longer) == AfterInserts(db, enrollment, attempt, draws, n + 1)
    ensures longer.states[0] == run.states[0]
  {
    var s, s' := Last(run), AfterInserts(db, enrollment, attempt, draws, n + 1);
    StillFits(db, enrollment, attempt, draws, n);
    assert s'.flights == s.flights - {n};
    assert s'.db.certificates == s.db.certificates + [CertificateFor(s.db, enrollment, attempt, draws[n])];
    FewInFlight(s', enrollment, n + 1, |draws|);
    longer := Extended(run, enrollment, |draws|, Insert(n, draws[n]), s');
  }

  lemma {:induction false} AllInserted(start: Run, db: Db, enrollment: nat, attempt: nat, draws: seq<Draw>, n: nat)
    returns (run: Run)
    requires DistinctDraws(db, draws) && enrollment < |db.enrollments| && n <= |draws|
    requires IsRun(start, enrollment, |draws|) && Last(start) == AfterInserts(db, enrollment, attempt, draws, 0)
    ensures IsRun(run, enrollment, |draws|) && Last(run) == AfterInserts(db, enrollment, attempt, draws, n)
    ensures run.states[0] == start.states[0]
  {
    if n == 0 {
      run := start;
    } else {
      run := AllInserted(start, db, enrollment, attempt, draws, n - 1);
      run := OneInserted(run, db, enrollment, attempt, draws, n - 1);
    }
  }

  /** From every database in which an enrollment is due a certificate, overlapping issuings reach the bound: as
      many certificates as issuings, all for the same enrollment and attempt. */
  lemma RacingIssuesBoundIsReached(db: Db, enrollment: nat, attempt: nat, draws: seq<Draw>) returns (run: Run)
    requires Issuable(db, enrollment, attempt) && DistinctDraws(db, draws)
    ensures IsRun(run, enrollment, |draws|) && run.states[0] == State(db, map[])
    ensures CertificatesOf(Last(run).db.certificates, enrollment) == |draws|
    ensures forall c :: c in Last(run).db.certificates && c !in db.certificates ==>
              c.enrollment == enrollment && c.attempt == attempt
  {
    run := AllReady(db, enrollment, attempt, |draws|, |draws|);
    assert db.certificates + Issued(db, enrollment, attempt, draws, 0) == db.certificates;
    run := AllInserted(run, db, enrollment, attempt, draws, |draws|);
    CountIssued(db, enrollment, attempt, draws, |draws|);
  }

  /** The enrollment never gets a second certificate. */
  ghost predicate OneAtMost(db: Db, enrollment: nat, k: nat) {
    forall run :: IsRun(run, enrollment, k) && run.states[0].db == db ==>
      CertificatesOf(Last(run).db.certificates, enrollment) <= 1
  }

  lemma MoreRoom(run: Run, enrollment: nat, few: nat, k: nat)
    requires IsRun(run, enrollment, few) && few <= k
    ensures IsRun(run, enrollment, k)
  {
  }

  /** Automatic issuing gives an enrollment that is due a certificate one at most in all interleavings exactly
      when issuings for it never overlap. */
  lemma OneCertificateExactlyWithoutOverlap(db: Db, enrollment: nat, attempt: nat, first: Draw, second: Draw, k: nat)
    requires Issuable(db, enrollment, attempt) && DistinctDraws(db, [first, second])
    ensures OneAtMost(db, enrollment, k) <==> k <= 1
  {
    if k <= 1 {
      forall run | IsRun(run, enrollment, k) && run.states[0].db == db
        ensures CertificatesOf(Last(run).db.certificates, enrollment) <= 1
      {
        RacingIssuesBound(run, |run.states| - 1, enrollment, k);
      }
    } else {
      var run := RacingIssuesBoundIsReached(db, enrollment, attempt, [first, second]);
      MoreRoom(run, enrollment, 2, k);
    }
  }
}
