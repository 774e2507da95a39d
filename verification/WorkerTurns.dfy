/** The drain loop does what the outbox protocol allows: each of its turns is two steps of a worker. */
module WorkerTurns {
  import opened Basics
  import opened AuditLogs
  import opened OutboxProtocol
  import opened OutboxWorker

  /** How the world answers for a row, as the outcome of a dispatch that ends now. */
  function OutcomeOf(world: World, id: RowId, now: int): Outcome {
    if world.dispatch(id).None? then Succeeded else Failed(now)
  }

  function ErrorOf(world: World, id: RowId): string {
    if world.dispatch(id).None? then "" else world.dispatch(id).value
  }

  /** A turn of the loop is the return of the dispatch and the mark, and leaves the table that the loop leaves. */
  lemma TurnIsTwoSteps(c: Config, world: World, s: State, w: WorkerId) returns (mid: State, after: State)
    requires w in s.workers && s.workers[w].pos < |s.workers[w].batch| && s.workers[w].outcome.None?
    ensures var ticket := Current(s.workers[w]);
            && Next(c, s, Return(w, OutcomeOf(world, ticket.id, s.now)), mid)
            && Next(c, mid, Mark(w, world.markWorks(ticket.id), ErrorOf(world, ticket.id)), after)
            && after.table == AfterTurn(world, s.table, ticket, s.now) && after.now == s.now
            && after.workers == Advanced(s, w)
  {
    var d := s.workers[w];
    var ticket := Current(d);
    var outcome := OutcomeOf(world, ticket.id, s.now);
    mid := s.(workers := s.workers[w := d.(outcome := Some(outcome))]);
    var written := world.markWorks(ticket.id);
    after := State(s.now, if written then MarkedTable(mid, mid.workers[w], ErrorOf(world, ticket.id)) else s.table,
                   Advanced(mid, w));
  }

  /** A claim of the loop is a claim of the protocol, whenever its worker is between batches and it finds a row. */
  lemma ClaimIsAStep(c: Config, s: State, w: WorkerId, batch: seq<Ticket>) returns (after: State)
    requires c.batchSize > 0 && w !in s.workers && batch != [] && SoleClaim(s.table, s.now, c.batchSize, batch)
    ensures Next(c, s, Claim(w, batch), after) && after.table == ClaimedTable(s.table, TicketIds(batch), s.now)
  {
    after := State(s.now, ClaimedTable(s.table, TicketIds(batch), s.now),
                   s.workers[w := Drain(s.now, batch, 0, s.now, None)]);
    assert TicketsFor(s.table, s.now, batch);
  }
}
