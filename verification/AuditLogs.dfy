/** The `audit_logs` table as a webhook outbox: the row transitions of the claim and mark
    statements, and the table that applies them in place. Times are whole seconds. */
module AuditLogs {
  import opened Basics

  type RowId = nat

  const LEASE := 120        // the two-minute processing lease
  const MAX_BACKOFF := 32   // the longest delay `dispatchBackoff` hands out

  datatype Row = Row(
    event: string,
    at: int,
    processingAt: Option<int>,
    nextDispatchAt: int,
    dispatchedAt: Option<int>,
    attempts: nat,
    lastError: Option<string>
  )

  type Table = map<RowId, Row>

  /** What a claim hands to the worker: the row and its attempts counter after the claim. */
  datatype Ticket = Ticket(id: RowId, event: string, attempts: nat)

  /** A row as inserted: due at once, unclaimed, never attempted. */
  function NewRow(event: string, now: int): Row {
    Row(event, now, None, now, None, 0, None)
  }

  predicate Claimable(row: Row, now: int) {
    && row.dispatchedAt.None?
    && row.nextDispatchAt <= now
    && (row.processingAt.None? || row.processingAt.value < now - LEASE)
  }

  function ClaimedRow(row: Row, now: int): Row {
    row.(processingAt := Some(now), attempts := row.attempts + 1)
  }

  function SucceededRow(row: Row, now: int): Row {
    row.(dispatchedAt := Some(now), processingAt := None, lastError := None)
  }

  function FailedRow(row: Row, nextAt: int, error: string): Row {
    row.(processingAt := None, nextDispatchAt := nextAt, lastError := Some(error))
  }

  function ClaimedTable(table: Table, ids: set<RowId>, now: int): Table {
    map id | id in table :: if id in ids then ClaimedRow(table[id], now) else table[id]
  }

  /** A mark statement on a missing row changes nothing and reports "not found". */
  function SucceededTable(table: Table, id: RowId, now: int): Table {
    if id in table then table[id := SucceededRow(table[id], now)] else table
  }

  function FailedTable(table: Table, id: RowId, nextAt: int, error: string): Table {
    if id in table then table[id := FailedRow(table[id], nextAt, error)] else table
  }

  /** `dispatchBackoff`: 1, 2, 4, 8, 16 and then always 32 seconds. */
  function Backoff(attempts: int): (delay: int)
    ensures 1 <= delay <= MAX_BACKOFF
  {
    var n := if attempts < 1 then 1 else if attempts > 6 then 6 else attempts;
    [1, 2, 4, 8, 16, 32][n - 1]
  }

  /** The delay doubles with every attempt from one second until it stays at 32. */
  lemma BackoffDoubles(attempts: int)
    ensures attempts <= 1 ==> Backoff(attempts) == 1
    ensures 1 <= attempts < 6 ==> Backoff(attempts + 1) == 2 * Backoff(attempts)
    ensures attempts >= 6 ==> Backoff(attempts) == MAX_BACKOFF
  {
    assert attempts < 6 || Backoff(attempts) == 32;
  }

  function PowerOfTwo(n: nat): nat {
    if n == 0 then 1 else 2 * PowerOfTwo(n - 1)
  }

  lemma DelayIsPower(n: nat)
    requires n >= 1
    ensures Backoff(n) == PowerOfTwo(if n < 6 then n - 1 else 5)
  {
    assert PowerOfTwo(5) == 32 && PowerOfTwo(4) == 16 && PowerOfTwo(3) == 8;
  }

  function ClaimableIds(table: Table, now: int): set<RowId> {
    set id | id in table && Claimable(table[id], now)
  }

  function TicketIds(batch: seq<Ticket>): set<RowId> {
    set i | 0 <= i < |batch| :: batch[i].id
  }

  ghost predicate NoRepeats(batch: seq<Ticket>) {
    forall i, j :: 0 <= i < j < |batch| ==> batch[i].id != batch[j].id
  }

  /** The tickets of one claim statement: claimable rows, each once, with the raised counter.
      Rows locked by a concurrent claim are skipped, so nothing is said about completeness. */
  ghost predicate TicketsFor(table: Table, now: int, batch: seq<Ticket>) {
    && NoRepeats(batch)
    && forall i :: 0 <= i < |batch| ==>
         && batch[i].id in table
         && Claimable(table[batch[i].id], now)
         && batch[i].event == table[batch[i].id].event
         && batch[i].attempts == table[batch[i].id].attempts + 1
  }

  /** No claimable row outside `ids` is older than one inside. */
  ghost predicate OldestFirst(table: Table, now: int, ids: set<RowId>) {
    forall p, q :: p in ids && p in table && q in ClaimableIds(table, now) - ids ==> table[p].at <= table[q].at
  }

  function ClaimLimit(limit: int): (n: nat)
    ensures n >= 1
  {
    if limit <= 0 then 1 else limit
  }

  /** The tickets of a claim with no other claim in progress: as many as the limit allows, and the oldest. */
  ghost predicate SoleClaim(table: Table, now: int, limit: int, batch: seq<Ticket>) {
    && TicketsFor(table, now, batch)
    && |batch| == Min(ClaimLimit(limit), |ClaimableIds(table, now)|)
    && OldestFirst(table, now, TicketIds(batch))
  }

  /** A claim in progress: `batch` holds the oldest claimable rows, `rest` is still to choose from. */
  ghost predicate Taken(table: Table, now: int, rest: set<RowId>, batch: seq<Ticket>) {
    && rest <= ClaimableIds(table, now)
    && |batch| + |rest| == |ClaimableIds(table, now)|
    && TicketsFor(table, now, batch)
    && TicketIds(batch) == ClaimableIds(table, now) - rest
    && OldestFirst(table, now, TicketIds(batch))
  }

  lemma NothingTaken(table: Table, now: int)
    ensures Taken(table, now, ClaimableIds(table, now), [])
  {
    assert TicketIds([]) == {};
  }

  lemma TicketsForAppend(table: Table, now: int, batch: seq<Ticket>, ticket: Ticket)
    requires TicketsFor(table, now, batch) && ticket.id !in TicketIds(batch)
    requires TicketsFor(table, now, [ticket])
    ensures TicketsFor(table, now, batch + [ticket])
  {
    assert [ticket][0] == ticket;
    assert forall i :: 0 <= i < |batch| ==> batch[i].id in TicketIds(batch);
  }

  lemma OldestFirstAppend(table: Table, now: int, ids: set<RowId>, rest: set<RowId>, id: RowId)
    requires ids == ClaimableIds(table, now) - rest && id in rest && rest <= ClaimableIds(table, now)
    requires OldestFirst(table, now, ids)
    requires forall other :: other in rest ==> table[id].at <= table[other].at
    ensures OldestFirst(table, now, ids + {id})
  {
    forall p, q | p in ids + {id} && p in table && q in ClaimableIds(table, now) - (ids + {id})
      ensures table[p].at <= table[q].at
    {
      assert q in rest && q in ClaimableIds(table, now) - ids;
    }
  }

  lemma TicketIdsAppend(batch: seq<Ticket>, ticket: Ticket)
    ensures TicketIds(batch + [ticket]) == TicketIds(batch) + {ticket.id}
  {
    var all := batch + [ticket];
    assert forall i :: 0 <= i < |batch| ==> all[i] == batch[i];
    assert all[|batch|] == ticket;
    forall x | x in TicketIds(batch) + {ticket.id} ensures x in TicketIds(all) {
      if x in TicketIds(batch) {
        var i :| 0 <= i < |batch| && batch[i].id == x;
        assert all[i].id == x;
      }
    }
  }

  lemma TakeOldest(table: Table, now: int, rest: set<RowId>, batch: seq<Ticket>, id: RowId)
    requires Taken(table, now, rest, batch)
    requires id in rest && forall other :: other in rest ==> table[id].at <= table[other].at
    ensures Taken(table, now, rest - {id}, batch + [Ticket(id, table[id].event, table[id].attempts + 1)])
  {
    var ticket := Ticket(id, table[id].event, table[id].attempts + 1);
    TicketIdsAppend(batch, ticket);
    TicketsForAppend(table, now, batch, ticket);
    OldestFirstAppend(table, now, TicketIds(batch), rest, id);
    assert TicketIds(batch) + {id} == ClaimableIds(table, now) - (rest - {id});
  }

  class AuditLogTable {
    var rows: Table
    var now: int

    constructor (now: int)
      ensures this.now == now && rows == map[]
    {
      this.now := now;
      rows := map[];
    }

    method Create(id: RowId, event: string)
      requires id !in rows
      modifies this`rows
      ensures rows.Keys == old(rows).Keys + {id}
      ensures forall other :: other in old(rows) ==> rows[other] == old(rows)[other]
      ensures rows[id].event == event && rows[id].at == now && rows[id].nextDispatchAt == now
      ensures rows[id].processingAt.None? && rows[id].dispatchedAt.None? && rows[id].lastError.None?
      ensures rows[id].attempts == 0
      ensures rows == old(rows)[id := NewRow(event, now)]
    {
      rows := rows[id := NewRow(event, now)];
    }

    /** The oldest claimable row among `candidates`. */
    method Oldest(candidates: set<RowId>) returns (oldest: RowId)
      requires candidates != {} && candidates <= rows.Keys
      ensures oldest in candidates
      ensures forall id :: id in candidates ==> rows[oldest].at <= rows[id].at
    {
      var rest := candidates;
      oldest :| oldest in rest;
      rest := rest - {oldest};
      while rest != {}
        invariant rest <= candidates && oldest in candidates
        invariant forall id :: id in candidates - rest ==> rows[oldest].at <= rows[id].at
        decreases rest
      {
        var id :| id in rest;
        if rows[id].at < rows[oldest].at {
          oldest := id;
        }
        rest := rest - {id};
      }
    }

    /** The selection of the claim statement: the oldest claimable rows, up to the limit. */
    method PickOldest(limit: int) returns (batch: seq<Ticket>)
      ensures SoleClaim(rows, now, limit, batch)
    {
      batch := [];
      var rest := ClaimableIds(rows, now);
      NothingTaken(rows, now);
      while rest != {} && |batch| < ClaimLimit(limit)
        invariant rest <= rows.Keys && Taken(rows, now, rest, batch)
        invariant |batch| <= ClaimLimit(limit)
        decreases rest
      {
        var id := Oldest(rest);
        TakeOldest(rows, now, rest, batch, id);
        batch := batch + [Ticket(id, rows[id].event, rows[id].attempts + 1)];
        rest := rest - {id};
      }
    }

    /** `ClaimWebhookDispatchBatch` with no other claim in progress. */
    method ClaimWebhookDispatchBatch(limit: int) returns (batch: seq<Ticket>)
      modifies this`rows
      ensures SoleClaim(old(rows), now, limit, batch)
      ensures rows == ClaimedTable(old(rows), TicketIds(batch), now)
    {
      batch := PickOldest(limit);
      rows := ClaimedTable(rows, TicketIds(batch), now);
    }

    method MarkWebhookDispatchSuccess(id: RowId) returns (found: bool)
      modifies this`rows
      ensures found == (id in old(rows))
      ensures rows == SucceededTable(old(rows), id, now)
    {
      found := id in rows;
      if found {
        rows := rows[id := SucceededRow(rows[id], now)];
      }
    }

    method MarkWebhookDispatchFailure(id: RowId, nextAttemptAt: int, lastError: string) returns (found: bool)
      modifies this`rows
      ensures found == (id in old(rows))
      ensures rows == FailedTable(old(rows), id, nextAttemptAt, lastError)
    {
      found := id in rows;
      if found {
        rows := rows[id := FailedRow(rows[id], nextAttemptAt, lastError)];
      }
    }
  }
}
