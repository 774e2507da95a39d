/** Exactly when the two-minute lease keeps two workers off the same row. */
module OutboxExclusion {
  import opened Basics
  import opened AuditLogs
  import opened OutboxProtocol

  ghost predicate AlwaysExclusive(c: Config) {
    forall run, i :: IsRun(c, run) && 0 <= i < |run.states| ==> Exclusive(run.states[i])
  }

  ghost predicate Reachable(c: Config, s: State) {
    exists run :: IsRun(c, run) && run.states[|run.states| - 1] == s
  }

  lemma InitReachable(c: Config, s: State)
    requires Init(s)
    ensures Reachable(c, s)
  {
    var run := Run([s], []);
    assert IsRun(c, run) && run.states[|run.states| - 1] == s;
  }

  lemma StepReachable(c: Config, s: State, step: Step, s': State)
    requires Reachable(c, s) && Next(c, s, step, s')
    ensures Reachable(c, s')
  {
    var run :| IsRun(c, run) && run.states[|run.states| - 1] == s;
    var longer := Run(run.states + [s'], run.steps + [step]);
    forall i | 0 <= i < |longer.steps|
      ensures Next(c, longer.states[i], longer.steps[i], longer.states[i + 1])
    {
      if i < |run.steps| {
        assert Next(c, run.states[i], run.steps[i], run.states[i + 1]);
      }
    }
    assert longer.states[|longer.states| - 1] == s';
  }

  /** With every batch worked off inside the lease, no row is ever held twice. */
  lemma LeaseExclusion(c: Config, run: Run, i: nat)
    requires c.batchSize * c.eventTime <= LEASE
    requires IsRun(c, run) && i < |run.states|
    ensures Exclusive(run.states[i])
  {
    LeaseInvHolds(c, run, i);
  }

  /** One slow worker: `n` rows appended at time 0, all claimed at time 0 by worker 0. */
  ghost predicate SlowWorker(c: Config, s: State) {
    && s.workers.Keys == {0}
    && var d := s.workers[0];
    && d.claimedAt == 0 && d.outcome.None?
    && d.pos < |d.batch| == c.batchSize && NoRepeats(d.batch)
    && d.since == d.pos * c.eventTime
    && 0 <= s.now <= d.since + c.eventTime
    && forall k :: d.pos <= k < |d.batch| ==>
         && d.batch[k].id in s.table
         && s.table[d.batch[k].id].processingAt == Some(0)
         && s.table[d.batch[k].id].dispatchedAt.None?
         && s.table[d.batch[k].id].nextDispatchAt <= 0
  }

  function FullBatch(n: nat): seq<Ticket> {
    seq(n, i requires 0 <= i < n => Ticket(i, "", 1))
  }

  /** `n` rows can be appended before anything else happens. */
  lemma {:induction false} AppendRows(c: Config, n: nat) returns (s: State)
    ensures Reachable(c, s) && s.now == 0 && s.workers == map[]
    ensures forall id: RowId :: id in s.table <==> id < n
    ensures forall id :: id in s.table ==> s.table[id] == NewRow("", 0)
  {
    if n == 0 {
      s := State(0, map[], map[]);
      InitReachable(c, s);
    } else {
      var before := AppendRows(c, n - 1);
      s := before.(table := before.table[n - 1 := NewRow("", 0)]);
      StepReachable(c, before, Append(n - 1, ""), s);
    }
  }

  lemma ClaimAll(c: Config) returns (s: State)
    requires c.batchSize > 0
    ensures Reachable(c, s) && SlowWorker(c, s) && s.now == 0
  {
    var before := AppendRows(c, c.batchSize);
    var batch := FullBatch(c.batchSize);
    s := State(0, ClaimedTable(before.table, TicketIds(batch), 0), before.workers[0 := Drain(0, batch, 0, 0, None)]);
    forall k | 0 <= k < |batch| ensures batch[k].id in TicketIds(batch) {
    }
    StepReachable(c, before, Claim(0, batch), s);
  }

  /** Worker 0 delivers its current event (not the last of its batch), writes the mark and starts the
      next. */
  lemma FinishTurn(c: Config, s: State) returns (s': State)
    requires Reachable(c, s) && SlowWorker(c, s)
    requires s.now == s.workers[0].since + c.eventTime
    requires s.workers[0].pos + 1 < |s.workers[0].batch|
    ensures Reachable(c, s') && SlowWorker(c, s') && s'.now == s.now
    ensures s'.workers[0].since == s.now
  {
    var d := s.workers[0];
    var mid := s.(workers := s.workers[0 := d.(outcome := Some(Succeeded))]);
    StepReachable(c, s, Return(0, Succeeded), mid);
    s' := State(mid.now, SucceededTable(mid.table, Current(d).id, mid.now), Advanced(mid, 0));
    StepReachable(c, mid, Mark(0, true, ""), s');
    assert (d.pos + 1) * c.eventTime == d.pos * c.eventTime + c.eventTime;
  }

  lemma PositiveTurn(c: Config)
    requires c.batchSize * c.eventTime > 0
    ensures c.eventTime > 0
  {
  }

  /** The slow worker can still be busy with its batch at any time up to batchSize * eventTime. */
  lemma {:induction false} SlowWorkerAt(c: Config, t: nat) returns (s: State)
    requires c.batchSize > 0 && t <= c.batchSize * c.eventTime
    ensures Reachable(c, s) && SlowWorker(c, s) && s.now == t
  {
    if t == 0 {
      s := ClaimAll(c);
    } else {
      var before := SlowWorkerAt(c, t - 1);
      var d := before.workers[0];
      if before.now == d.since + c.eventTime {
        assert (d.pos + 1) * c.eventTime == d.since + c.eventTime < c.batchSize * c.eventTime;
        if d.pos + 1 == |d.batch| {
          assert false;
        }
        before := FinishTurn(c, before);
        PositiveTurn(c);
      }
      s := before.(now := t);
      StepReachable(c, before, Tick, s);
    }
  }

  /** When the batch can outlast the lease, a second worker can claim a row still held. */
  lemma OverlapReachable(c: Config) returns (s: State)
    requires c.batchSize * c.eventTime > LEASE
    ensures Reachable(c, s) && !Exclusive(s)
  {
    var before := SlowWorkerAt(c, LEASE + 1);
    var ticket := before.workers[0].batch[before.workers[0].pos];
    var row := before.table[ticket.id];
    var batch := [Ticket(ticket.id, row.event, row.attempts + 1)];
    assert TicketsFor(before.table, before.now, batch);
    s := State(before.now, ClaimedTable(before.table, TicketIds(batch), before.now),
               before.workers[1 := Drain(before.now, batch, 0, before.now, None)]);
    StepReachable(c, before, Claim(1, batch), s);
    HoldsAt(s, 0, before.workers[0].pos);
    HoldsAt(s, 1, 0);
  }

  /** Exclusion holds in every run if and only if a full batch fits into the lease. */
  lemma LeaseExclusionExact(c: Config)
    ensures AlwaysExclusive(c) <==> c.batchSize * c.eventTime <= LEASE
  {
    if c.batchSize * c.eventTime <= LEASE {
      forall run, i | IsRun(c, run) && 0 <= i < |run.states| ensures Exclusive(run.states[i]) {
        LeaseExclusion(c, run, i);
      }
    } else {
      var s := OverlapReachable(c);
      var run :| IsRun(c, run) && run.states[|run.states| - 1] == s;
      assert !Exclusive(run.states[|run.states| - 1]);
    }
  }

  /** As wired (batches of 20, up to 20 seconds a dispatch) the lease does not exclude. */
  lemma WiredConfigurationOverlaps()
    ensures !AlwaysExclusive(Config(20, 20))
    ensures AlwaysExclusive(Config(6, 20)) && AlwaysExclusive(Config(20, 6))
  {
    LeaseExclusionExact(Config(20, 20));
    LeaseExclusionExact(Config(6, 20));
    LeaseExclusionExact(Config(20, 6));
  }
}
