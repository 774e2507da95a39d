/** The worker side of the outbox: `dispatchOne` and the drain loop `drainOnce`, for one worker
    on a fixed clock. What the dispatcher, the mark statements and the claim statement answer
    is left to the environment. */
module OutboxWorker {
  import opened Basics
  import opened AuditLogs

  /** The answers of everything the worker calls: the dispatch error of a row (or none),
      whether its mark statement goes through, and whether the n-th claim statement does. */
  datatype World = World(dispatch: RowId -> Option<string>, markWorks: RowId -> bool, claimWorks: nat -> bool)

  /** A claimable row after it has been claimed, dispatched and marked once. */
  function WorkedRow(world: World, id: RowId, row: Row, now: int): Row {
    var claimed := ClaimedRow(row, now);
    if !world.markWorks(id) then claimed
    else match world.dispatch(id)
         case None => SucceededRow(claimed, now)
         case Some(error) => FailedRow(claimed, now + Backoff(claimed.attempts), error)
  }

  /** The table with the rows of `done` worked off and those of `claimed` still in the batch. */
  function WorkingTable(world: World, table: Table, done: set<RowId>, claimed: set<RowId>, now: int): Table {
    map id | id in table ::
      if id in done then WorkedRow(world, id, table[id], now)
      else if id in claimed then ClaimedRow(table[id], now)
      else table[id]
  }

  function WorkedTable(world: World, table: Table, done: set<RowId>, now: int): Table {
    WorkingTable(world, table, done, {}, now)
  }

  /** The table after one turn of the batch loop. */
  function AfterTurn(world: World, table: Table, ticket: Ticket, now: int): Table {
    if !world.markWorks(ticket.id) then table
    else match world.dispatch(ticket.id)
         case None => SucceededTable(table, ticket.id, now)
         case Some(error) => FailedTable(table, ticket.id, now + Backoff(ticket.attempts), error)
  }

  /** Whatever the answers were, a worked row is not claimable again at the same moment, so the
      claimable rows shrink by exactly the rows worked off. */
  lemma WorkedIsNotClaimable(world: World, table: Table, done: set<RowId>, now: int)
    requires done <= ClaimableIds(table, now)
    ensures ClaimableIds(WorkedTable(world, table, done, now), now) == ClaimableIds(table, now) - done
  {
    forall id | id in done ensures !Claimable(WorkedRow(world, id, table[id], now), now) {
      var n := Backoff(table[id].attempts + 1);
    }
  }

  /** The constructor of the worker replaces a batch size below one. */
  type BatchSize = n: nat | n > 0 witness 1

  /** The rows handed to `Dispatch`, in order, and for each the number of the claim it came from. */
  datatype Log = Log(handed: seq<RowId>, rounds: seq<nat>)

  function HandedSet(log: Log): set<RowId> {
    set id | id in log.handed
  }

  ghost predicate OnceEach(log: Log) {
    forall i, j :: 0 <= i < j < |log.handed| ==> log.handed[i] != log.handed[j]
  }

  /** No later claim took a row older than one of an earlier claim. */
  ghost predicate OldestRoundsFirst(table: Table, log: Log)
    requires |log.handed| == |log.rounds| && forall id :: id in log.handed ==> id in table
  {
    forall i, j :: 0 <= i < j < |log.handed| ==>
      && log.rounds[i] <= log.rounds[j]
      && (log.rounds[i] < log.rounds[j] ==> table[log.handed[i]].at <= table[log.handed[j]].at)
  }

  /** A drain in progress. `table` is the table at its start; the last claim taken is the one before `round`. */
  ghost predicate Drained(table: Table, now: int, log: Log, round: nat) {
    && |log.handed| == |log.rounds|
    && OnceEach(log)
    && HandedSet(log) <= ClaimableIds(table, now)
    && (forall i :: 0 <= i < |log.handed| ==> log.handed[i] in table && log.rounds[i] < round)
    && OldestRoundsFirst(table, log)
  }

  lemma HandedAppend(log: Log, id: RowId, round: nat)
    ensures HandedSet(Log(log.handed + [id], log.rounds + [round])) == HandedSet(log) + {id}
  {
  }

  /** Handing over one more row of the current claim. */
  lemma HandOver(table: Table, now: int, log: Log, round: nat, id: RowId)
    requires Drained(table, now, log, round + 1)
    requires id in ClaimableIds(table, now) - HandedSet(log)
    requires forall i :: 0 <= i < |log.handed| && log.rounds[i] < round ==> table[log.handed[i]].at <= table[id].at
    ensures Drained(table, now, Log(log.handed + [id], log.rounds + [round]), round + 1)
  {
    HandedAppend(log, id, round);
    forall i | 0 <= i < |log.handed| ensures log.handed[i] != id {
      assert log.handed[i] in HandedSet(log);
    }
  }

  /** What a drain has done to the table `start`, whether or not its last claim failed: the log
      names claimable rows, each once, oldest claims first, and exactly these were worked off. */
  ghost predicate DrainResult(world: World, start: Table, now: int, rows: Table, log: Log) {
    && |log.handed| == |log.rounds|
    && OnceEach(log)
    && (forall id :: id in log.handed ==> id in start)
    && OldestRoundsFirst(start, log)
    && HandedSet(log) <= ClaimableIds(start, now)
    && rows == WorkedTable(world, start, HandedSet(log), now)
  }

  /** What a drain leaves of a row: untouched if it was not handed over; else claimed once, and dispatched now, or due
      again after the delay for its attempts, or still leased when its mark statement failed. */
  lemma DrainedRow(world: World, start: Table, now: int, rows: Table, log: Log, id: RowId)
    requires DrainResult(world, start, now, rows, log) && id in start
    ensures id in rows && (id !in log.handed ==> rows[id] == start[id])
    ensures id in log.handed ==>
              && var before, after, n := start[id], rows[id], start[id].attempts;
              && after.event == before.event && after.at == before.at && after.attempts == n + 1
              && (!world.markWorks(id) ==> after.processingAt == Some(now) && after.dispatchedAt.None?)
              && (world.markWorks(id) && world.dispatch(id).None? ==>
                    after.dispatchedAt == Some(now) && after.processingAt.None? && after.lastError.None?)
              && (world.markWorks(id) && world.dispatch(id).Some? ==>
                    && after.dispatchedAt.None? && after.processingAt.None? && after.lastError == world.dispatch(id)
                    && after.nextDispatchAt == now + PowerOfTwo(if n < 5 then n else 5))
  {
    DelayIsPower(start[id].attempts + 1);
    assert id in log.handed ==> id in ClaimableIds(start, now);
  }

  /** Nothing still open is older than something already handed over. */
  ghost predicate Frontier(start: Table, now: int, done: set<RowId>) {
    forall p, q :: p in done && p in start && q in ClaimableIds(start, now) - done ==> start[p].at <= start[q].at
  }

  /** Between two claims: everything handed over has been worked off, the rest is untouched and
      not older than what was handed over. */
  ghost predicate BetweenBatches(world: World, start: Table, now: int, rows: Table, log: Log, round: nat) {
    && Drained(start, now, log, round)
    && Frontier(start, now, HandedSet(log))
    && rows == WorkedTable(world, start, HandedSet(log), now)
  }

  /** The tickets name open rows, each once, as they stood at the start of the drain. */
  ghost predicate TicketsOpen(start: Table, now: int, done: set<RowId>, batch: seq<Ticket>) {
    && NoRepeats(batch)
    && forall i :: 0 <= i < |batch| ==>
         && batch[i].id in ClaimableIds(start, now) - done
         && batch[i].attempts == start[batch[i].id].attempts + 1
  }

  /** Inside a batch, before its `i`-th turn: `before` is the log at the claim, `log` the log now. */
  ghost predicate InBatch(world: World, start: Table, now: int, rows: Table, before: Log, round: nat,
                          batch: seq<Ticket>, i: nat, log: Log) {
    && i <= |batch|
    && BetweenBatches(world, start, now, WorkedTable(world, start, HandedSet(before), now), before, round)
    && TicketsOpen(start, now, HandedSet(before), batch)
    && Frontier(start, now, HandedSet(before) + TicketIds(batch))
    && Drained(start, now, log, round + 1)
    && HandedSet(log) == HandedSet(before) + TicketIds(batch[..i])
    && (forall k :: 0 <= k < |log.handed| && log.rounds[k] < round ==> log.handed[k] in HandedSet(before))
    && rows == WorkingTable(world, start, HandedSet(log), TicketIds(batch), now)
  }

  lemma HandedAreOnce(world: World, start: Table, now: int, rows: Table, log: Log, round: nat)
    requires BetweenBatches(world, start, now, rows, log, round)
    ensures DrainResult(world, start, now, rows, log)
    ensures ClaimableIds(rows, now) == ClaimableIds(start, now) - HandedSet(log)
  {
    WorkedIsNotClaimable(world, start, HandedSet(log), now);
  }

  lemma OpenTickets(world: World, start: Table, done: set<RowId>, now: int, batch: seq<Ticket>)
    requires done <= ClaimableIds(start, now)
    requires TicketsFor(WorkedTable(world, start, done, now), now, batch)
    requires ClaimableIds(WorkedTable(world, start, done, now), now) == ClaimableIds(start, now) - done
    ensures TicketsOpen(start, now, done, batch)
    ensures TicketIds(batch) <= ClaimableIds(start, now) - done
  {
    forall i | 0 <= i < |batch|
      ensures batch[i].id in ClaimableIds(start, now) - done
    {
      assert batch[i].id in ClaimableIds(WorkedTable(world, start, done, now), now);
    }
  }

  lemma ClaimedFrontier(world: World, start: Table, done: set<RowId>, now: int, batch: seq<Ticket>)
    requires Frontier(start, now, done)
    requires ClaimableIds(WorkedTable(world, start, done, now), now) == ClaimableIds(start, now) - done
    requires TicketIds(batch) <= ClaimableIds(start, now) - done
    requires OldestFirst(WorkedTable(world, start, done, now), now, TicketIds(batch))
    ensures Frontier(start, now, done + TicketIds(batch))
  {
    var rows := WorkedTable(world, start, done, now);
    forall p, q | p in done + TicketIds(batch) && p in start
                  && q in ClaimableIds(start, now) - (done + TicketIds(batch))
      ensures start[p].at <= start[q].at
    {
      if p !in done {
        assert rows[p] == start[p] && rows[q] == start[q];
        assert q in ClaimableIds(rows, now) - TicketIds(batch);
      }
    }
  }

  lemma ClaimedWorking(world: World, start: Table, done: set<RowId>, ids: set<RowId>, now: int)
    requires ids <= start.Keys - done
    ensures ClaimedTable(WorkedTable(world, start, done, now), ids, now) == WorkingTable(world, start, done, ids, now)
  {
  }

  lemma {:induction false} TicketIdsSize(batch: seq<Ticket>)
    requires NoRepeats(batch)
    ensures |TicketIds(batch)| == |batch|
  {
    if batch != [] {
      var init, last := batch[..|batch| - 1], batch[|batch| - 1];
      assert batch == init + [last];
      TicketIdsSize(init);
      TicketIdsAppend(init, last);
      assert last.id !in TicketIds(init);
    }
  }

  lemma StartBatch(world: World, start: Table, now: int, rows: Table, log: Log, round: nat, batch: seq<Ticket>)
    requires BetweenBatches(world, start, now, rows, log, round)
    requires TicketsFor(rows, now, batch) && OldestFirst(rows, now, TicketIds(batch))
    ensures InBatch(world, start, now, ClaimedTable(rows, TicketIds(batch), now), log, round, batch, 0, log)
    ensures TicketIds(batch) <= ClaimableIds(rows, now) && |TicketIds(batch)| == |batch|
  {
    var done := HandedSet(log);
    WorkedIsNotClaimable(world, start, done, now);
    TicketIdsSize(batch);
    OpenTickets(world, start, done, now, batch);
    ClaimedFrontier(world, start, done, now, batch);
    ClaimedWorking(world, start, done, TicketIds(batch), now);
    assert batch[..0] == [];
    assert HandedSet(log) == HandedSet(log) + TicketIds(batch[..0]);
    assert forall k :: 0 <= k < |log.handed| ==> log.handed[k] in HandedSet(log);
  }

  lemma EndBatch(world: World, start: Table, now: int, rows: Table, before: Log, round: nat, batch: seq<Ticket>,
                 log: Log)
    requires InBatch(world, start, now, rows, before, round, batch, |batch|, log)
    ensures BetweenBatches(world, start, now, rows, log, round + 1)
    ensures HandedSet(log) == HandedSet(before) + TicketIds(batch)
  {
    assert batch[..|batch|] == batch;
  }

  lemma TurnTable(world: World, start: Table, done: set<RowId>, claimed: set<RowId>, ticket: Ticket, now: int)
    requires ticket.id in start && ticket.id in claimed - done
    requires ticket.attempts == start[ticket.id].attempts + 1
    ensures AfterTurn(world, WorkingTable(world, start, done, claimed, now), ticket, now)
         == WorkingTable(world, start, done + {ticket.id}, claimed, now)
  {
  }

  /** One turn of the batch loop moves one row from "claimed" to "worked off". */
  lemma TakeTurn(world: World, start: Table, now: int, rows: Table, before: Log, round: nat,
                 batch: seq<Ticket>, i: nat, log: Log)
    requires i < |batch| && InBatch(world, start, now, rows, before, round, batch, i, log)
    ensures InBatch(world, start, now, AfterTurn(world, rows, batch[i], now), before, round, batch, i + 1,
                    Log(log.handed + [batch[i].id], log.rounds + [round]))
  {
    var id := batch[i].id;
    var after := Log(log.handed + [id], log.rounds + [round]);
    assert batch[..i + 1] == batch[..i] + [batch[i]];
    TicketIdsAppend(batch[..i], batch[i]);
    HandedAppend(log, id, round);
    assert id !in TicketIds(batch[..i]);
    HandOver(start, now, log, round, id);
    TurnTable(world, start, HandedSet(log), TicketIds(batch), batch[i], now);
  }

  lemma MinusUnion(all: set<RowId>, done: set<RowId>, ids: set<RowId>)
    requires done <= all && ids <= all - done
    ensures done + ids <= all
    ensures all - (done + ids) == all - done - ids
  {
  }

  lemma ShrinksBy(open: set<RowId>, batch: seq<Ticket>)
    requires TicketIds(batch) <= open
    ensures |batch| > 0 ==> |open - TicketIds(batch)| < |open|
  {
    if |batch| > 0 {
      assert batch[0].id in TicketIds(batch);
      assert |open| == |open - TicketIds(batch)| + |TicketIds(batch)|;
    }
  }

  /** A worked-off batch leaves exactly its rows out of the claimable ones. */
  lemma OpenAfter(world: World, start: Table, now: int, done: set<RowId>, batch: seq<Ticket>)
    requires done <= ClaimableIds(start, now)
    requires TicketIds(batch) <= ClaimableIds(WorkedTable(world, start, done, now), now)
    ensures (ClaimableIds(WorkedTable(world, start, done + TicketIds(batch), now), now)
             == ClaimableIds(WorkedTable(world, start, done, now), now) - TicketIds(batch))
    ensures |batch| > 0 ==> (|ClaimableIds(WorkedTable(world, start, done + TicketIds(batch), now), now)|
                             < |ClaimableIds(WorkedTable(world, start, done, now), now)|)
  {
    WorkedIsNotClaimable(world, start, done, now);
    MinusUnion(ClaimableIds(start, now), done, TicketIds(batch));
    WorkedIsNotClaimable(world, start, done + TicketIds(batch), now);
    ShrinksBy(ClaimableIds(WorkedTable(world, start, done, now), now), batch);
  }

  lemma AllTaken(open: set<RowId>, batch: seq<Ticket>)
    requires TicketIds(batch) <= open
    ensures |TicketIds(batch)| == |open| ==> TicketIds(batch) == open
  {
    assert |open| == |TicketIds(batch)| + |open - TicketIds(batch)|;
  }

  class AuditWebhookOutboxWorker {
    const table: AuditLogTable
    const batchSize: BatchSize
    const world: World

    constructor (table: AuditLogTable, batchSize: int, world: World)
      ensures this.table == table && this.world == world
      ensures this.batchSize == if batchSize <= 0 then 10 else batchSize
    {
      this.table := table;
      this.world := world;
      this.batchSize := if batchSize <= 0 then 10 else batchSize;
    }

    method DispatchOne(ticket: Ticket)
      modifies table`rows
      ensures table.rows == AfterTurn(world, old(table.rows), ticket, table.now)
    {
      var error := world.dispatch(ticket.id);
      if error.Some? {
        var nextAttemptAt := table.now + Backoff(ticket.attempts);
        if world.markWorks(ticket.id) {
          var _ := table.MarkWebhookDispatchFailure(ticket.id, nextAttemptAt, error.value);
        }
        return;
      }
      if world.markWorks(ticket.id) {
        var _ := table.MarkWebhookDispatchSuccess(ticket.id);
      }
    }

    /** `for _, auditLog := range batch { dispatchOne }`, with the log of what was handed over. */
    method DispatchBatch(batch: seq<Ticket>, round: nat, log: Log, ghost start: Table) returns (after: Log)
      requires InBatch(world, start, table.now, table.rows, log, round, batch, 0, log)
      modifies table`rows
      ensures InBatch(world, start, table.now, table.rows, log, round, batch, |batch|, after)
    {
      after := log;
      for i := 0 to |batch|
        invariant InBatch(world, start, table.now, table.rows, log, round, batch, i, after)
      {
        TakeTurn(world, start, table.now, table.rows, log, round, batch, i, after);
        DispatchOne(batch[i]);
        after := Log(after.handed + [batch[i].id], after.rounds + [round]);
      }
    }

    /** One round of the drain loop: claim a batch and work it off. `last` tells the loop to stop. */
    method DrainRound(round: nat, log: Log, ghost start: Table) returns (after: Log, last: bool, claimFailed: bool)
      requires BetweenBatches(world, start, table.now, table.rows, log, round)
      modifies table`rows
      ensures BetweenBatches(world, start, table.now, table.rows, after, round + 1)
      ensures claimFailed == !world.claimWorks(round) && (claimFailed ==> last)
      ensures last && !claimFailed ==> ClaimableIds(table.rows, table.now) == {}
      ensures !last ==> |ClaimableIds(table.rows, table.now)| < |ClaimableIds(old(table.rows), table.now)|
    {
      if !world.claimWorks(round) {
        return log, true, true;
      }
      ghost var was := table.rows;
      var batch := table.ClaimWebhookDispatchBatch(batchSize);
      StartBatch(world, start, table.now, was, log, round, batch);
      after := DispatchBatch(batch, round, log, start);
      EndBatch(world, start, table.now, table.rows, log, round, batch, after);
      OpenAfter(world, start, table.now, HandedSet(log), batch);
      AllTaken(ClaimableIds(was, table.now), batch);
      return after, |batch| < batchSize, false;
    }

    /** `drainOnce`: claims until a batch comes back empty or short, or a claim fails. */
    method DrainOnce() returns (log: Log, claimFailed: bool)
      modifies table`rows
      ensures DrainResult(world, old(table.rows), table.now, table.rows, log)
      ensures !claimFailed ==> HandedSet(log) == ClaimableIds(old(table.rows), table.now)
      ensures !claimFailed ==> ClaimableIds(table.rows, table.now) == {}
      ensures (forall n :: world.claimWorks(n)) ==> !claimFailed
    {
      log, claimFailed := Log([], []), false;
      ghost var start := table.rows;
      var round, last := 0, false;
      while !last
        invariant BetweenBatches(world, start, table.now, table.rows, log, round)
        invariant claimFailed ==> last && exists n :: !world.claimWorks(n)
        invariant last && !claimFailed ==> ClaimableIds(table.rows, table.now) == {}
        decreases !last, |ClaimableIds(table.rows, table.now)|
      {
        log, last, claimFailed := DrainRound(round, log, start);
        round := round + 1;
      }
      HandedAreOnce(world, start, table.now, table.rows, log, round);
    }
  }
}
