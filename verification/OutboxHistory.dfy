/** What every run of the outbox keeps, whatever the timing: no event is lost, claims of one
    row are spaced out, and a dispatched row stays dispatched. */
module OutboxHistory {
  import opened Basics
  import opened AuditLogs
  import opened OutboxProtocol

  // ---------- No event is lost ----------

  ghost predicate Pending(row: Row, now: int) {
    row.dispatchedAt.None? ==>
      && row.nextDispatchAt <= now + MAX_BACKOFF
      && (row.processingAt.Some? ==> row.processingAt.value <= now)
  }

  ghost predicate DueInv(s: State) {
    && (forall id :: id in s.table ==> Pending(s.table[id], s.now))
    && (forall w :: w in s.workers ==>
          && s.workers[w].pos < |s.workers[w].batch|
          && (s.workers[w].outcome.Some? && s.workers[w].outcome.value.Failed? ==>
              s.workers[w].outcome.value.at <= s.now))
  }

  lemma StepKeepsDue(c: Config, s: State, step: Step, s': State)
    requires DueInv(s) && Next(c, s, step, s')
    ensures DueInv(s') && s.now <= s'.now && s.table.Keys <= s'.table.Keys
  {
  }

  lemma {:induction false} DueInvHolds(c: Config, run: Run, i: nat)
    requires IsRun(c, run) && i < |run.states|
    ensures DueInv(run.states[i])
  {
    if i > 0 {
      DueInvHolds(c, run, i - 1);
      StepKeepsDue(c, run.states[i - 1], run.steps[i - 1], run.states[i]);
    }
  }

  /** A row that is not yet dispatched is due within 32 seconds and leased from the past only,
      so if it is left untouched it can be claimed at every moment after the lease. */
  lemma NoEventLost(c: Config, run: Run, i: nat, id: RowId, later: int)
    requires IsRun(c, run) && i < |run.states|
    requires id in run.states[i].table && run.states[i].table[id].dispatchedAt.None?
    ensures run.states[i].table[id].nextDispatchAt <= run.states[i].now + MAX_BACKOFF
    ensures run.states[i].table[id].processingAt.Some? ==>
            run.states[i].table[id].processingAt.value <= run.states[i].now
    ensures later > run.states[i].now + LEASE ==> Claimable(run.states[i].table[id], later)
  {
    DueInvHolds(c, run, i);
    assert Pending(run.states[i].table[id], run.states[i].now);
  }

  /** No step removes a row, and the clock never goes back. */
  lemma {:induction false} RowsStay(c: Config, run: Run, i: nat, j: nat)
    requires IsRun(c, run) && i <= j < |run.states|
    ensures run.states[i].table.Keys <= run.states[j].table.Keys
    ensures run.states[i].now <= run.states[j].now
  {
    if i < j {
      RowsStay(c, run, i, j - 1);
      DueInvHolds(c, run, j - 1);
      StepKeepsDue(c, run.states[j - 1], run.steps[j - 1], run.states[j]);
    }
  }

  // ---------- Claim history ----------

  predicate Claims(run: Run, i: nat, id: RowId)
    requires i < |run.steps|
  {
    run.steps[i].Claim? && id in TicketIds(run.steps[i].batch)
  }

  /** Step `i` writes a mark of row `id`. */
  predicate Marks(run: Run, i: nat, id: RowId)
    requires i < |run.steps| < |run.states|
  {
    && run.steps[i].Mark? && run.steps[i].written
    && run.steps[i].worker in run.states[i].workers
    && var d := run.states[i].workers[run.steps[i].worker];
    && d.pos < |d.batch| && d.outcome.Some? && Current(d).id == id
  }

  predicate MarksFailure(run: Run, i: nat, id: RowId)
    requires i < |run.steps| < |run.states|
  {
    Marks(run, i, id) && run.states[i].workers[run.steps[i].worker].outcome.value.Failed?
  }

  /** The retry time that the failure mark of step `i` writes. */
  function MarkedRetry(run: Run, i: nat, id: RowId): int
    requires i < |run.steps| < |run.states| && MarksFailure(run, i, id)
  {
    RetryAt(run.states[i].workers[run.steps[i].worker])
  }

  /** When the dispatch that step `i` marks as failed had ended. */
  function FailedAt(run: Run, i: nat, id: RowId): int
    requires i < |run.steps| < |run.states| && MarksFailure(run, i, id)
  {
    run.states[i].workers[run.steps[i].worker].outcome.value.at
  }

  /** What a step does to a row `before` it: a claim leases it now and counts, a success mark dispatches it now, a
      failure mark sets the retry time and keeps the error; either mark ends the lease. Nothing else changes it. */
  lemma RowChangesOnlyByItsSteps(c: Config, run: Run, i: nat, id: RowId)
    requires IsRun(c, run) && i < |run.steps| && id in run.states[i].table
    ensures id in run.states[i + 1].table
    ensures Claims(run, i, id) ==>
              && Claimable(run.states[i].table[id], run.states[i].now)
              && var before, after := run.states[i].table[id], run.states[i + 1].table[id];
              && after.processingAt == Some(run.states[i].now) && after.attempts == before.attempts + 1
              && after.event == before.event && after.at == before.at && after.lastError == before.lastError
              && after.nextDispatchAt == before.nextDispatchAt && after.dispatchedAt == before.dispatchedAt
    ensures MarksFailure(run, i, id) ==>
              && var before, after := run.states[i].table[id], run.states[i + 1].table[id];
              && after.processingAt.None? && after.nextDispatchAt == MarkedRetry(run, i, id)
              && after.lastError == Some(run.steps[i].error) && after.attempts == before.attempts
              && after.event == before.event && after.at == before.at && after.dispatchedAt == before.dispatchedAt
    ensures Marks(run, i, id) && !MarksFailure(run, i, id) ==>
              && var before, after := run.states[i].table[id], run.states[i + 1].table[id];
              && after.processingAt.None? && after.dispatchedAt == Some(run.states[i].now) && after.lastError.None?
              && after.attempts == before.attempts && after.nextDispatchAt == before.nextDispatchAt
              && after.event == before.event && after.at == before.at
    ensures !Claims(run, i, id) && !Marks(run, i, id) ==> run.states[i + 1].table[id] == run.states[i].table[id]
  {
    var s, step, s' := run.states[i], run.steps[i], run.states[i + 1];
    assert Next(c, s, step, s');
    if Claims(run, i, id) {
      var k :| 0 <= k < |step.batch| && step.batch[k].id == id;
    }
  }

  // ---------- Rows are appended in order ----------

  /** A row keeps for ever the event it was appended with and the time of that moment; it starts due at once,
      unclaimed, undispatched, without attempts and without an error. */
  lemma {:induction false} AppendedForever(c: Config, run: Run, i: nat, j: nat, id: RowId, event: string)
    requires IsRun(c, run) && i < |run.steps| && i < j < |run.states| && run.steps[i] == Append(id, event)
    ensures id in run.states[j].table
    ensures run.states[j].table[id].event == event && run.states[j].table[id].at == run.states[i].now
    ensures j == i + 1 ==>
              && var row := run.states[j].table[id];
              && row.nextDispatchAt == run.states[i].now && row.attempts == 0
              && row.processingAt.None? && row.dispatchedAt.None? && row.lastError.None?
  {
    if j == i + 1 {
      assert Next(c, run.states[i], run.steps[i], run.states[j]);
    } else {
      AppendedForever(c, run, i, j - 1, id, event);
      RowChangesOnlyByItsSteps(c, run, j - 1, id);
    }
  }

  /** Of two claimable rows a claim with no other claim in progress never takes the one that was appended at a later
      moment and leaves the other. */
  lemma EarlierIsTakenFirst(c: Config, run: Run, i: nat, j: nat, m: nat, earlier: RowId, later: RowId, limit: int,
                            batch: seq<Ticket>)
    requires IsRun(c, run) && i < j < |run.steps| && j < m < |run.states|
    requires run.steps[i].Append? && run.steps[i].id == earlier && run.steps[j].Append? && run.steps[j].id == later
    requires run.states[i].now < run.states[j].now
    requires earlier in run.states[m].table && Claimable(run.states[m].table[earlier], run.states[m].now)
    requires SoleClaim(run.states[m].table, run.states[m].now, limit, batch) && later in TicketIds(batch)
    ensures earlier in TicketIds(batch)
  {
    AppendedForever(c, run, i, m, earlier, run.steps[i].event);
    AppendedForever(c, run, j, m, later, run.steps[j].event);
    assert later in run.states[m].table && earlier in ClaimableIds(run.states[m].table, run.states[m].now);
  }

  /** Step `k` marks a failure of the row and no step in (k, m) marks the row again. */
  ghost predicate LastFailure(run: Run, k: nat, m: nat, id: RowId)
    requires k < m <= |run.steps| < |run.states|
  {
    MarksFailure(run, k, id) && forall x :: k < x < m ==> !Marks(run, x, id)
  }

  /** Between a claim at step `i` and state `m`, with no other claim of the row in between: its
      lease still stands, or it is dispatched, or the last failure mark set the next due time. */
  ghost predicate SinceClaim(run: Run, i: nat, m: nat, id: RowId)
    requires |run.states| == |run.steps| + 1 && i < m < |run.states| && id in run.states[m].table
  {
    var row := run.states[m].table[id];
    || row.dispatchedAt.Some?
    || row.processingAt == Some(run.states[i].now)
    || exists k :: i < k < m && LastFailure(run, k, m, id) && row.nextDispatchAt == MarkedRetry(run, k, id)
  }

  lemma {:induction false} SinceClaimHolds(c: Config, run: Run, i: nat, m: nat, id: RowId)
    requires IsRun(c, run) && i < m < |run.states| && id in run.states[i].table
    requires Claims(run, i, id) && forall x :: i < x < m ==> !Claims(run, x, id)
    ensures id in run.states[m].table && SinceClaim(run, i, m, id)
  {
    if m == i + 1 {
      RowChangesOnlyByItsSteps(c, run, i, id);
    } else {
      SinceClaimHolds(c, run, i, m - 1, id);
      RowChangesOnlyByItsSteps(c, run, m - 1, id);
      if MarksFailure(run, m - 1, id) {
        assert LastFailure(run, m - 1, m, id);
      } else if !Marks(run, m - 1, id) {
        if k :| i < k < m - 1 && LastFailure(run, k, m - 1, id)
                && run.states[m - 1].table[id].nextDispatchAt == MarkedRetry(run, k, id) {
          assert LastFailure(run, k, m, id);
        }
      }
    }
  }

  /** Two consecutive claims of a row: either the lease of the first ran out, or the last mark
      in between was a failure and its back-off, counted from that failure, has passed. */
  lemma ClaimsAreSpaced(c: Config, run: Run, i: nat, j: nat, id: RowId)
    requires IsRun(c, run) && i < j < |run.steps|
    requires Claims(run, i, id) && Claims(run, j, id)
    requires forall x :: i < x < j ==> !Claims(run, x, id)
    ensures || run.states[j].now > run.states[i].now + LEASE
            || exists k :: i < k < j && LastFailure(run, k, j, id)
                 && FailedAt(run, k, id) + 1 <= MarkedRetry(run, k, id) <= run.states[j].now
  {
    var t :| 0 <= t < |run.steps[i].batch| && run.steps[i].batch[t].id == id;
    assert Next(c, run.states[i], run.steps[i], run.states[i + 1]);
    SinceClaimHolds(c, run, i, j, id);
    RowChangesOnlyByItsSteps(c, run, j, id);
    if run.states[j].table[id].processingAt != Some(run.states[i].now) {
      var k :| i < k < j && LastFailure(run, k, j, id)
               && run.states[j].table[id].nextDispatchAt == MarkedRetry(run, k, id);
      assert FailedAt(run, k, id) + 1 <= MarkedRetry(run, k, id) <= run.states[j].now;
    }
  }

  /** Once dispatched, a row stays dispatched and is never claimed again, even when a worker
      whose lease has run out later marks a failure. */
  lemma {:induction false} DispatchedForever(c: Config, run: Run, i: nat, j: nat, id: RowId)
    requires IsRun(c, run) && i <= j < |run.states|
    requires id in run.states[i].table && run.states[i].table[id].dispatchedAt.Some?
    ensures id in run.states[j].table && run.states[j].table[id].dispatchedAt.Some?
    ensures j < |run.steps| ==> !Claims(run, j, id)
  {
    if i < j {
      DispatchedForever(c, run, i, j - 1, id);
      RowChangesOnlyByItsSteps(c, run, j - 1, id);
    }
    if j < |run.steps| {
      RowChangesOnlyByItsSteps(c, run, j, id);
    }
  }

  /** A row is dispatched only after a worker saw its dispatch succeed and wrote that mark. */
  lemma {:induction false} DispatchedOnlyAfterSuccess(c: Config, run: Run, j: nat, id: RowId) returns (k: nat)
    requires IsRun(c, run) && j < |run.states|
    requires id in run.states[j].table && run.states[j].table[id].dispatchedAt.Some?
    ensures k < j && Marks(run, k, id) && !MarksFailure(run, k, id)
  {
    assert j > 0;
    var s := run.states[j - 1];
    assert Next(c, s, run.steps[j - 1], run.states[j]);
    if id in s.table && s.table[id].dispatchedAt.Some? {
      k := DispatchedOnlyAfterSuccess(c, run, j - 1, id);
    } else {
      k := j - 1;
      if id in s.table {
        RowChangesOnlyByItsSteps(c, run, j - 1, id);
      }
    }
  }

  /** How many of the first `n` steps claim the row. */
  function ClaimCount(run: Run, n: nat, id: RowId): nat
    requires n <= |run.steps|
  {
    if n == 0 then 0 else ClaimCount(run, n - 1, id) + (if Claims(run, n - 1, id) then 1 else 0)
  }

  /** The attempts counter is the number of claims; a row not yet appended has none. */
  lemma {:induction false} AttemptsCountClaims(c: Config, run: Run, i: nat, id: RowId)
    requires IsRun(c, run) && i < |run.states|
    ensures ClaimCount(run, i, id) == if id in run.states[i].table then run.states[i].table[id].attempts else 0
  {
    if i > 0 {
      AttemptsCountClaims(c, run, i - 1, id);
      var s := run.states[i - 1];
      assert Next(c, s, run.steps[i - 1], run.states[i]);
      if id in s.table {
        RowChangesOnlyByItsSteps(c, run, i - 1, id);
      }
    }
  }

  // ---------- The lease ----------

  /** While a claimed row is neither marked nor claimed again, it keeps its lease. */
  lemma {:induction false} LeaseStands(c: Config, run: Run, i: nat, j: nat, id: RowId)
    requires IsRun(c, run) && i < j < |run.states| && Claims(run, i, id) && id in run.states[i].table
    requires forall x :: i < x < j ==> !Claims(run, x, id) && !Marks(run, x, id)
    ensures id in run.states[j].table && run.states[j].table[id] == run.states[i + 1].table[id]
  {
    RowChangesOnlyByItsSteps(c, run, i, id);
    if i + 1 < j {
      LeaseStands(c, run, i, j - 1, id);
      RowChangesOnlyByItsSteps(c, run, j - 1, id);
    }
  }

  /** The lease is two minutes: a claimed row that nobody marks can be claimed again exactly when more than two
      minutes have passed. */
  lemma LeaseIsTwoMinutes(c: Config, run: Run, i: nat, j: nat, id: RowId)
    requires IsRun(c, run) && i < j < |run.states| && i < |run.steps| && Claims(run, i, id)
    requires forall x :: i < x < j ==> !Claims(run, x, id) && !Marks(run, x, id)
    ensures id in run.states[j].table
    ensures Claimable(run.states[j].table[id], run.states[j].now) <==> run.states[j].now > run.states[i].now + 2 * 60
  {
    var t :| 0 <= t < |run.steps[i].batch| && run.steps[i].batch[t].id == id;
    assert Next(c, run.states[i], run.steps[i], run.states[i + 1]);
    LeaseStands(c, run, i, j, id);
    RowChangesOnlyByItsSteps(c, run, i, id);
    RowsStay(c, run, i, j);
  }

  // ---------- The retry delay ----------

  /** A worker in a batch works on the tickets of a claim of its own. */
  lemma {:induction false} ClaimOfBatch(c: Config, run: Run, k: nat, w: WorkerId) returns (i: nat)
    requires IsRun(c, run) && k < |run.states| && w in run.states[k].workers
    ensures i < k && run.steps[i] == Claim(w, run.states[k].workers[w].batch)
    ensures run.states[i].now == run.states[k].workers[w].claimedAt
  {
    assert k > 0;
    var s := run.states[k - 1];
    assert Next(c, s, run.steps[k - 1], run.states[k]);
    if w in s.workers && s.workers[w].batch == run.states[k].workers[w].batch
       && s.workers[w].claimedAt == run.states[k].workers[w].claimedAt
    {
      i := ClaimOfBatch(c, run, k - 1, w);
    } else {
      i := k - 1;
    }
  }

  /** A failure is retried one second after the first claim of the row has failed, and after each further claim the
      delay doubles, up to 32 seconds. */
  lemma RetryDelay(c: Config, run: Run, k: nat, id: RowId) returns (i: nat)
    requires IsRun(c, run) && k < |run.steps| && MarksFailure(run, k, id)
    ensures i < k && Claims(run, i, id) && run.steps[i].worker == run.steps[k].worker
    ensures var claims := ClaimCount(run, i + 1, id);
            && claims >= 1
            && MarkedRetry(run, k, id) == FailedAt(run, k, id) + PowerOfTwo(if claims < 6 then claims - 1 else 5)
  {
    var w := run.steps[k].worker;
    var d := run.states[k].workers[w];
    i := ClaimOfBatch(c, run, k, w);
    assert Next(c, run.states[i], run.steps[i], run.states[i + 1]);
    assert Current(d).id == id && id in TicketIds(d.batch);
    AttemptsCountClaims(c, run, i, id);
    DelayIsPower(Current(d).attempts);
  }
}
