/** Any number of outbox workers over one `audit_logs` table, as a step system: rows are
    appended, time passes, workers claim batches, dispatch them one by one, mark each result
    (or fail to), and crash at any point. */
module OutboxProtocol {
  import opened Basics
  import opened AuditLogs

  type WorkerId = nat

  /** `eventTime` bounds one turn of the batch loop: the dispatch and its mark statement. */
  datatype Config = Config(batchSize: nat, eventTime: nat)

  /** How the dispatch of the current event ended; a failure remembers when it ended. */
  datatype Outcome = Succeeded | Failed(at: int)

  /** A worker in the middle of a batch, at `batch[pos]` since `since`. */
  datatype Drain = Drain(claimedAt: int, batch: seq<Ticket>, pos: nat, since: int, outcome: Option<Outcome>)

  /** Workers outside `workers` are between batches, not started, or gone. */
  datatype State = State(now: int, table: Table, workers: map<WorkerId, Drain>)

  datatype Step =
    | Append(id: RowId, event: string)
    | Tick
    | Claim(worker: WorkerId, batch: seq<Ticket>)
    | Return(worker: WorkerId, outcome: Outcome)
    | Mark(worker: WorkerId, written: bool, error: string)
    | Crash(worker: WorkerId)

  datatype Run = Run(states: seq<State>, steps: seq<Step>)

  ghost predicate Init(s: State) {
    s.table == map[] && s.workers == map[]
  }

  function Current(d: Drain): Ticket
    requires d.pos < |d.batch|
  {
    d.batch[d.pos]
  }

  /** When the failed event becomes due again: the delay counts from the failure. */
  function RetryAt(d: Drain): int
    requires d.pos < |d.batch| && d.outcome.Some? && d.outcome.value.Failed?
  {
    d.outcome.value.at + Backoff(Current(d).attempts)
  }

  /** The table after the mark statement of the current event has been applied. */
  function MarkedTable(s: State, d: Drain, error: string): Table
    requires d.pos < |d.batch| && d.outcome.Some?
  {
    match d.outcome.value
    case Succeeded => SucceededTable(s.table, Current(d).id, s.now)
    case Failed(_) => FailedTable(s.table, Current(d).id, RetryAt(d), error)
  }

  /** The worker's next turn, or none when the batch is through. */
  function Advanced(s: State, w: WorkerId): map<WorkerId, Drain>
    requires w in s.workers
  {
    var d := s.workers[w];
    if d.pos + 1 < |d.batch| then s.workers[w := d.(pos := d.pos + 1, since := s.now, outcome := None)]
    else s.workers - {w}
  }

  /** Time may pass only while every turn in progress stays within its bound. */
  ghost predicate TurnsInTime(c: Config, s: State, now: int) {
    forall w :: w in s.workers ==> now <= s.workers[w].since + c.eventTime
  }

  ghost predicate Next(c: Config, s: State, step: Step, s': State) {
    match step
    case Append(id, event) =>
      && id !in s.table
      && s' == s.(table := s.table[id := NewRow(event, s.now)])
    case Tick =>
      && TurnsInTime(c, s, s.now + 1)
      && s' == s.(now := s.now + 1)
    case Claim(w, batch) =>
      && w !in s.workers
      && 0 < |batch| <= c.batchSize
      && TicketsFor(s.table, s.now, batch)
      && s' == State(s.now, ClaimedTable(s.table, TicketIds(batch), s.now),
                     s.workers[w := Drain(s.now, batch, 0, s.now, None)])
    case Return(w, outcome) =>
      && w in s.workers && s.workers[w].outcome.None?
      && (outcome.Failed? ==> outcome.at == s.now)
      && s' == s.(workers := s.workers[w := s.workers[w].(outcome := Some(outcome))])
    case Mark(w, written, error) =>
      && w in s.workers && s.workers[w].outcome.Some? && s.workers[w].pos < |s.workers[w].batch|
      && s' == State(s.now, if written then MarkedTable(s, s.workers[w], error) else s.table, Advanced(s, w))
    case Crash(w) =>
      && w in s.workers
      && s' == s.(workers := s.workers - {w})
  }

  ghost predicate IsRun(c: Config, run: Run) {
    && |run.states| == |run.steps| + 1
    && Init(run.states[0])
    && forall i :: 0 <= i < |run.steps| ==> Next(c, run.states[i], run.steps[i], run.states[i + 1])
  }

  // ---------- Lease exclusion ----------

  /** The rows a worker has claimed and not yet worked off. */
  ghost predicate Holds(s: State, w: WorkerId, id: RowId) {
    w in s.workers && exists k :: s.workers[w].pos <= k < |s.workers[w].batch| && s.workers[w].batch[k].id == id
  }

  ghost predicate Exclusive(s: State) {
    forall v, w, id :: Holds(s, v, id) && Holds(s, w, id) ==> v == w
  }

  /** A turn in progress: the batch is within bounds and the earlier turns kept their bound. */
  ghost predicate OnSchedule(c: Config, now: int, d: Drain) {
    && d.pos < |d.batch| <= c.batchSize
    && NoRepeats(d.batch)
    && d.since <= d.claimedAt + d.pos * c.eventTime
    && now <= d.since + c.eventTime
  }

  /** Every row still held carries the mark of exactly this claim. */
  ghost predicate LeaseIntact(table: Table, d: Drain) {
    forall k :: d.pos <= k < |d.batch| ==>
      && d.batch[k].id in table
      && table[d.batch[k].id].processingAt == Some(d.claimedAt)
  }

  ghost predicate LeaseInv(c: Config, s: State) {
    && (forall w :: w in s.workers ==> OnSchedule(c, s.now, s.workers[w]) && LeaseIntact(s.table, s.workers[w]))
    && Exclusive(s)
  }

  lemma HoldsAt(s: State, w: WorkerId, k: nat)
    requires w in s.workers && s.workers[w].pos <= k < |s.workers[w].batch|
    ensures Holds(s, w, s.workers[w].batch[k].id)
  {
  }

  lemma MulMonotone(a: nat, b: nat, m: nat)
    requires a <= b
    ensures a * m <= b * m
  {
  }

  /** A held row is never claimable: its lease has not run out. */
  lemma HeldIsNotClaimable(c: Config, s: State, w: WorkerId, id: RowId)
    requires c.batchSize * c.eventTime <= LEASE && LeaseInv(c, s) && Holds(s, w, id)
    ensures id in s.table && !Claimable(s.table[id], s.now)
  {
    var d := s.workers[w];
    var k :| d.pos <= k < |d.batch| && d.batch[k].id == id;
    assert (d.pos + 1) * c.eventTime == d.pos * c.eventTime + c.eventTime;
    MulMonotone(d.pos + 1, c.batchSize, c.eventTime);
    assert s.now <= d.claimedAt + LEASE;
  }

  lemma ClaimKeepsLease(c: Config, s: State, w: WorkerId, batch: seq<Ticket>, s': State)
    requires c.batchSize * c.eventTime <= LEASE && LeaseInv(c, s) && Next(c, s, Claim(w, batch), s')
    ensures LeaseInv(c, s')
  {
    forall v, id | v != w && Holds(s', v, id)
      ensures Holds(s, v, id) && id !in TicketIds(batch)
    {
      assert s'.workers[v] == s.workers[v];
      assert Holds(s, v, id);
      HeldIsNotClaimable(c, s, v, id);
    }
    forall id | Holds(s', w, id) ensures id in TicketIds(batch) {
    }
    forall v | v in s'.workers
      ensures OnSchedule(c, s'.now, s'.workers[v]) && LeaseIntact(s'.table, s'.workers[v])
    {
      var d := s'.workers[v];
      if v != w {
        assert s'.workers[v] == s.workers[v];
        forall k | d.pos <= k < |d.batch|
          ensures d.batch[k].id in s'.table && s'.table[d.batch[k].id].processingAt == Some(d.claimedAt)
        {
          HoldsAt(s', v, k);
        }
      }
    }
  }

  /** A mark gives up the current row and changes no other holding. */
  lemma MarkShrinksHoldings(c: Config, s: State, w: WorkerId, written: bool, error: string, s': State, v: WorkerId,
                            k: nat)
    requires LeaseInv(c, s) && Next(c, s, Mark(w, written, error), s')
    requires v in s'.workers && s'.workers[v].pos <= k < |s'.workers[v].batch|
    ensures v in s.workers && s.workers[v].pos <= k && s'.workers[v].batch == s.workers[v].batch
    ensures s'.workers[v].claimedAt == s.workers[v].claimedAt
    ensures s'.workers[v].batch[k].id != Current(s.workers[w]).id
  {
    HoldsAt(s, w, s.workers[w].pos);
    HoldsAt(s, v, k);
  }

  lemma MarkKeepsSchedule(c: Config, s: State, w: WorkerId, written: bool, error: string, s': State, v: WorkerId)
    requires LeaseInv(c, s) && Next(c, s, Mark(w, written, error), s') && v in s'.workers
    ensures OnSchedule(c, s'.now, s'.workers[v])
  {
    if v == w {
      var d, d' := s.workers[w], s'.workers[v];
      assert d'.pos * c.eventTime == d.pos * c.eventTime + c.eventTime;
    }
  }

  lemma MarkKeepsLease(c: Config, s: State, w: WorkerId, written: bool, error: string, s': State)
    requires LeaseInv(c, s) && Next(c, s, Mark(w, written, error), s')
    ensures LeaseInv(c, s')
  {
    forall v, id | Holds(s', v, id) ensures Holds(s, v, id) {
      var k :| s'.workers[v].pos <= k < |s'.workers[v].batch| && s'.workers[v].batch[k].id == id;
      MarkShrinksHoldings(c, s, w, written, error, s', v, k);
      HoldsAt(s, v, k);
    }
    forall v | v in s'.workers
      ensures OnSchedule(c, s'.now, s'.workers[v]) && LeaseIntact(s'.table, s'.workers[v])
    {
      MarkKeepsSchedule(c, s, w, written, error, s', v);
      var d' := s'.workers[v];
      forall k | d'.pos <= k < |d'.batch|
        ensures d'.batch[k].id in s'.table && s'.table[d'.batch[k].id].processingAt == Some(d'.claimedAt)
      {
        MarkShrinksHoldings(c, s, w, written, error, s', v, k);
      }
    }
  }

  lemma StepKeepsLease(c: Config, s: State, step: Step, s': State)
    requires c.batchSize * c.eventTime <= LEASE && LeaseInv(c, s) && Next(c, s, step, s')
    ensures LeaseInv(c, s')
  {
    match step {
      case Claim(w, batch) => ClaimKeepsLease(c, s, w, batch, s');
      case Mark(w, written, error) => MarkKeepsLease(c, s, w, written, error, s');
      case Append(_, _) =>
        assert forall v, id :: Holds(s', v, id) ==> Holds(s, v, id);
      case Tick =>
        assert forall v, id :: Holds(s', v, id) ==> Holds(s, v, id);
      case Return(_, _) =>
        assert forall v, id :: Holds(s', v, id) ==> Holds(s, v, id);
      case Crash(_) =>
        assert forall v, id :: Holds(s', v, id) ==> Holds(s, v, id);
    }
  }

  lemma {:induction false} LeaseInvHolds(c: Config, run: Run, i: nat)
    requires c.batchSize * c.eventTime <= LEASE && IsRun(c, run) && i < |run.states|
    ensures LeaseInv(c, run.states[i])
  {
    if i > 0 {
      LeaseInvHolds(c, run, i - 1);
      StepKeepsLease(c, run.states[i - 1], run.steps[i - 1], run.states[i]);
    }
  }
}
