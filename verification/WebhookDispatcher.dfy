/** Delivery of one event to every active webhook: up to three tries each, and one recorded
    result per webhook whatever happens. */
module WebhookDispatcher {
  import opened Basics

  type WebhookId = nat

  const MAX_TRIES := 3

  datatype Webhook = Webhook(
    events: set<string>,
    active: bool,
    createdAt: int,
    lastTriggeredAt: Option<int>,
    lastStatusCode: Option<int>,
    lastError: Option<string>,
    deliveries: nat,
    failures: nat
  )

  type Webhooks = map<WebhookId, Webhook>

  /** One answer of `deliverOnce`: the status code if a response came, and the error if any. */
  datatype Answer = Answer(statusCode: Option<int>, error: Option<string>)

  /** The arguments of one `RecordDeliveryResult` call. */
  datatype DeliveryResult = DeliveryResult(webhook: WebhookId, attemptedAt: int, statusCode: Option<int>,
                                           error: Option<string>, delivered: bool)

  /** What the outside answers: the n-th try for a webhook, whether the context is cancelled while
      waiting after it, and whether the write of the result goes through. */
  datatype World = World(answer: (WebhookId, nat) -> Answer, cancelled: (WebhookId, nat) -> bool,
                         writeWorks: WebhookId -> bool)

  // ---------- The retry loop ----------

  predicate Succeeds(world: World, id: WebhookId, n: nat) {
    world.answer(id, n).error.None?
  }

  /** Nothing stops the loop after try `n`: it failed, it is not the last, and no cancellation came. */
  predicate GoesOn(world: World, id: WebhookId, n: nat) {
    !Succeeds(world, id, n) && n < MAX_TRIES - 1 && !world.cancelled(id, n)
  }

  /** The tries of one delivery: until the first that nothing follows. */
  function Tries(world: World, id: WebhookId): nat {
    if !GoesOn(world, id, 0) then 1 else if !GoesOn(world, id, 1) then 2 else 3
  }

  /** One to three tries; the count is the only one whose last try stops the loop and whose
      earlier ones all go on, so a success or a cancellation ends it and nothing else but the limit. */
  lemma TriesMeaning(world: World, id: WebhookId, n: nat)
    requires n >= 1
    ensures 1 <= Tries(world, id) <= MAX_TRIES
    ensures n == Tries(world, id) <==> !GoesOn(world, id, n - 1) && forall i :: 0 <= i < n - 1 ==> GoesOn(world, id, i)
  {
    if n > 1 && !GoesOn(world, id, n - 1) && forall i :: 0 <= i < n - 1 ==> GoesOn(world, id, i) {
      assert GoesOn(world, id, 0) && GoesOn(world, id, n - 2);
      assert n > 2 ==> GoesOn(world, id, 1);
    }
  }

  /** The result recorded for a webhook whose delivery began at `now`: that of its last try. */
  function ResultFor(world: World, id: WebhookId, now: int): DeliveryResult {
    var last := world.answer(id, Tries(world, id) - 1);
    DeliveryResult(id, now, last.statusCode, last.error, last.error.None?)
  }

  /** The try is made and fails, and no cancellation ends the loop after it. */
  predicate PassesOver(world: World, id: WebhookId, n: nat) {
    world.answer(id, n).error.Some? && !world.cancelled(id, n)
  }

  /** A delivery succeeds exactly when one of the first three answers has no error and nothing ended the loop before
      it; then the status of that answer is recorded. The recorded time is that of the beginning. */
  lemma DeliveredExactly(world: World, id: WebhookId, now: int)
    ensures var r := ResultFor(world, id, now);
            var first := world.answer(id, 0).error.None?;
            var second := PassesOver(world, id, 0) && world.answer(id, 1).error.None?;
            var third := PassesOver(world, id, 0) && PassesOver(world, id, 1) && world.answer(id, 2).error.None?;
            && r.webhook == id && r.attemptedAt == now
            && (r.delivered <==> first || second || third) && (r.delivered <==> r.error.None?)
            && (first ==> r.statusCode == world.answer(id, 0).statusCode)
            && (second ==> r.statusCode == world.answer(id, 1).statusCode)
            && (third ==> r.statusCode == world.answer(id, 2).statusCode)
  {
  }

  /** A delivery that fails records the answer of the last try: the third, unless a cancellation came first. */
  lemma FailureRecordsLastTry(world: World, id: WebhookId, now: int)
    requires !ResultFor(world, id, now).delivered
    ensures var last := if world.cancelled(id, 0) then 0 else if world.cancelled(id, 1) then 1 else 2;
            && ResultFor(world, id, now).statusCode == world.answer(id, last).statusCode
            && ResultFor(world, id, now).error == world.answer(id, last).error
  {
  }

  // ---------- The stored counters ----------

  function Recorded(webhooks: Webhooks, r: DeliveryResult): Webhooks {
    if r.webhook !in webhooks then webhooks
    else
      var w := webhooks[r.webhook];
      webhooks[r.webhook := w.(
        lastTriggeredAt := Some(r.attemptedAt),
        lastStatusCode := r.statusCode,
        lastError := r.error,
        deliveries := w.deliveries + (if r.delivered then 1 else 0),
        failures := w.failures + (if r.delivered then 0 else 1))]
  }

  /** The table after a sequence of recorded results, in any order in which they were written. */
  function RecordedAll(webhooks: Webhooks, results: seq<DeliveryResult>): Webhooks {
    if results == [] then webhooks
    else Recorded(RecordedAll(webhooks, results[..|results| - 1]), results[|results| - 1])
  }

  function CountFor(results: seq<DeliveryResult>, id: WebhookId): nat {
    if results == [] then 0
    else CountFor(results[..|results| - 1], id) + (if results[|results| - 1].webhook == id then 1 else 0)
  }

  function DeliveredFor(results: seq<DeliveryResult>, id: WebhookId): nat {
    if results == [] then 0
    else DeliveredFor(results[..|results| - 1], id)
         + (if results[|results| - 1].webhook == id && results[|results| - 1].delivered then 1 else 0)
  }

  /** Conservation: over any run of written results, the two counters of a webhook grow together
      by the number of results for it, and `deliveries` by those that were delivered. */
  lemma {:induction false} CountersConserve(webhooks: Webhooks, results: seq<DeliveryResult>, id: WebhookId)
    requires id in webhooks
    ensures id in RecordedAll(webhooks, results)
    ensures RecordedAll(webhooks, results)[id].deliveries == webhooks[id].deliveries + DeliveredFor(results, id)
    ensures RecordedAll(webhooks, results)[id].deliveries + RecordedAll(webhooks, results)[id].failures
         == webhooks[id].deliveries + webhooks[id].failures + CountFor(results, id)
  {
    if results != [] {
      CountersConserve(webhooks, results[..|results| - 1], id);
    }
  }

  /** The other columns of a webhook are those of the last written result for it. */
  lemma {:induction false} LastResultStands(webhooks: Webhooks, results: seq<DeliveryResult>, i: nat)
    requires i < |results| && results[i].webhook in webhooks
    requires forall j :: i < j < |results| ==> results[j].webhook != results[i].webhook
    ensures results[i].webhook in RecordedAll(webhooks, results)
    ensures var w := RecordedAll(webhooks, results)[results[i].webhook];
            && w.lastTriggeredAt == Some(results[i].attemptedAt)
            && w.lastStatusCode == results[i].statusCode && w.lastError == results[i].error
  {
    var init := results[..|results| - 1];
    if i < |init| {
      LastResultStands(webhooks, init, i);
    } else {
      CountersConserve(webhooks, init, results[i].webhook);
    }
  }

  class WebhookStore {
    var webhooks: Webhooks
    /** Every `RecordDeliveryResult` call so far, and those of them that were written. */
    var calls: seq<DeliveryResult>
    var written: seq<DeliveryResult>
    ghost const initial: Webhooks

    ghost predicate Valid()
      reads this
    {
      webhooks == RecordedAll(initial, written)
    }

    constructor (webhooks: Webhooks)
      ensures Valid() && this.webhooks == webhooks == initial && calls == [] && written == []
    {
      this.webhooks, initial := webhooks, webhooks;
      calls, written := [], [];
    }

    /** Fails when the write fails, and reports "not found" for an unknown webhook. */
    method RecordDeliveryResult(result: DeliveryResult, writeWorks: bool) returns (ok: bool)
      requires Valid()
      modifies this
      ensures Valid()
      ensures calls == old(calls) + [result]
      ensures ok == (writeWorks && result.webhook in old(webhooks))
      ensures webhooks == if writeWorks then Recorded(old(webhooks), result) else old(webhooks)
      ensures written == if writeWorks then old(written) + [result] else old(written)
    {
      calls := calls + [result];
      if !writeWorks {
        return false;
      }
      ok := result.webhook in webhooks;
      webhooks := Recorded(webhooks, result);
      written := written + [result];
      assert written[..|written| - 1] == old(written);
    }
  }

  /** The active webhooks of an event, each once, newest first. */
  ghost predicate Listed(webhooks: Webhooks, event: string, list: seq<WebhookId>) {
    && (forall i, j :: 0 <= i < j < |list| ==> list[i] != list[j])
    && (forall id :: id in list <==> id in webhooks && webhooks[id].active && event in webhooks[id].events)
    && (forall i, j :: 0 <= i < j < |list| ==> webhooks[list[i]].createdAt >= webhooks[list[j]].createdAt)
  }

  /** One result per listed webhook, in list order. */
  function ResultsFor(world: World, list: seq<WebhookId>, now: int): seq<DeliveryResult> {
    seq(|list|, i requires 0 <= i < |list| => ResultFor(world, list[i], now))
  }

  /** Those of the results whose write goes through. */
  function WrittenFor(world: World, list: seq<WebhookId>, now: int): seq<DeliveryResult> {
    if list == [] then []
    else
      var id := list[|list| - 1];
      WrittenFor(world, list[..|list| - 1], now) + (if world.writeWorks(id) then [ResultFor(world, id, now)] else [])
  }

  /** With working writes every call is written. */
  lemma {:induction false} AllWritten(world: World, list: seq<WebhookId>, now: int)
    requires forall id :: id in list ==> world.writeWorks(id)
    ensures WrittenFor(world, list, now) == ResultsFor(world, list, now)
  {
    if list != [] {
      var init := list[..|list| - 1];
      AllWritten(world, init, now);
      assert ResultsFor(world, list, now) == ResultsFor(world, init, now) + [ResultFor(world, list[|list| - 1], now)];
    }
  }

  lemma WrittenForMore(world: World, list: seq<WebhookId>, i: nat, now: int, webhooks: Webhooks,
                       before: seq<DeliveryResult>)
    requires i < |list|
    ensures var result, works := ResultFor(world, list[i], now), world.writeWorks(list[i]);
            var done, more := WrittenFor(world, list[..i], now), WrittenFor(world, list[..i + 1], now);
            && before + more == before + done + (if works then [result] else [])
            && RecordedAll(webhooks, more)
               == if works then Recorded(RecordedAll(webhooks, done), result) else RecordedAll(webhooks, done)
  {
    assert list[..i + 1][..i] == list[..i];
    var done := WrittenFor(world, list[..i], now);
    assert (done + [ResultFor(world, list[i], now)])[..|done|] == done;
    assert done + [] == done;
  }

  lemma ResultsForMore(world: World, list: seq<WebhookId>, i: nat, now: int, before: seq<DeliveryResult>)
    requires i < |list|
    ensures before + ResultsFor(world, list[..i], now) + [ResultFor(world, list[i], now)]
         == before + ResultsFor(world, list[..i + 1], now)
  {
    assert ResultsFor(world, list[..i + 1], now)
      == ResultsFor(world, list[..i], now) + [ResultFor(world, list[i], now)];
  }

  // ---------- Dispatching ----------

  /** One call of `Dispatch`: what it is asked, what the listing gives, and what the outside answers. */
  datatype Dispatching = Dispatching(event: string, world: World, listing: Option<seq<WebhookId>>, now: int)

  function AfterDispatch(webhooks: Webhooks, d: Dispatching): Webhooks {
    if d.listing.None? then webhooks else RecordedAll(webhooks, WrittenFor(d.world, d.listing.value, d.now))
  }

  class Dispatcher {
    const store: WebhookStore
    const world: World

    constructor (store: WebhookStore, world: World)
      ensures this.store == store && this.world == world
    {
      this.store := store;
      this.world := world;
    }

    /** Tries until a success, the third failure or a cancellation, then records exactly once. */
    method DeliverWithRetry(id: WebhookId, now: int) returns (delivered: bool, tries: nat)
      requires store.Valid()
      modifies store
      ensures store.Valid()
      ensures tries == Tries(world, id)
      ensures store.calls == old(store.calls) + [ResultFor(world, id, now)]
      ensures store.webhooks
           == if world.writeWorks(id) then Recorded(old(store.webhooks), ResultFor(world, id, now))
              else old(store.webhooks)
      ensures store.written
           == if world.writeWorks(id) then old(store.written) + [ResultFor(world, id, now)] else old(store.written)
      ensures delivered == (Succeeds(world, id, tries - 1) && world.writeWorks(id) && id in old(store.webhooks))
    {
      var lastStatusCode: Option<int> := None;
      var lastError: Option<string> := None;
      tries := 0;
      var attempt := 0;
      while attempt < MAX_TRIES
        invariant 0 <= attempt <= MAX_TRIES + 1
        invariant attempt < MAX_TRIES ==> tries == attempt && forall i :: 0 <= i < attempt ==> GoesOn(world, id, i)
        invariant attempt >= MAX_TRIES ==> tries == Tries(world, id) && !Succeeds(world, id, tries - 1)
        invariant attempt >= MAX_TRIES ==> world.answer(id, tries - 1) == Answer(lastStatusCode, lastError)
        invariant store.Valid() && store.calls == old(store.calls)
        invariant store.webhooks == old(store.webhooks) && store.written == old(store.written)
      {
        var answer := world.answer(id, attempt);
        tries := attempt + 1;
        lastStatusCode, lastError := answer.statusCode, answer.error;
        TriesMeaning(world, id, tries);
        if answer.error.None? {
          delivered := store.RecordDeliveryResult(DeliveryResult(id, now, lastStatusCode, None, true),
                                                  world.writeWorks(id));
          return;
        }
        if attempt < MAX_TRIES - 1 && world.cancelled(id, attempt) {
          attempt := MAX_TRIES;
        }
        attempt := attempt + 1;
      }
      var _ := store.RecordDeliveryResult(DeliveryResult(id, now, lastStatusCode, lastError, false),
                                          world.writeWorks(id));
      return false, tries;
    }

    /** `Dispatch`: fails only when the listing of the active webhooks does. A failed delivery is
        recorded and never stops the next webhook or fails the event. */
    method Dispatch(event: string, listing: Option<seq<WebhookId>>, now: int) returns (failed: bool)
      requires store.Valid() && (listing.Some? ==> Listed(store.webhooks, event, listing.value))
      modifies store
      ensures store.Valid()
      ensures failed == listing.None?
      ensures store.calls == old(store.calls) + (if failed then [] else ResultsFor(world, listing.value, now))
      ensures store.written == old(store.written) + (if failed then [] else WrittenFor(world, listing.value, now))
      ensures store.webhooks == AfterDispatch(old(store.webhooks), Dispatching(event, world, listing, now))
    {
      if listing.None? {
        return true;
      }
      var list := listing.value;
      for i := 0 to |list|
        invariant store.Valid()
        invariant store.calls == old(store.calls) + ResultsFor(world, list[..i], now)
        invariant store.written == old(store.written) + WrittenFor(world, list[..i], now)
        invariant store.webhooks == RecordedAll(old(store.webhooks), WrittenFor(world, list[..i], now))
      {
        var _, _ := DeliverWithRetry(list[i], now);
        ResultsForMore(world, list, i, now, old(store.calls));
        WrittenForMore(world, list, i, now, old(store.webhooks), old(store.written));
      }
      assert list[..|list|] == list;
      return false;
    }
  }

  lemma {:induction false} CountEach(world: World, list: seq<WebhookId>, now: int, id: WebhookId)
    requires forall i, j :: 0 <= i < j < |list| ==> list[i] != list[j]
    ensures CountFor(ResultsFor(world, list, now), id) == if id in list then 1 else 0
    ensures DeliveredFor(ResultsFor(world, list, now), id)
         == if id in list && Succeeds(world, id, Tries(world, id) - 1) then 1 else 0
  {
    if list != [] {
      var init, last := list[..|list| - 1], list[|list| - 1];
      assert list == init + [last];
      CountEach(world, init, now, id);
      var results := ResultsFor(world, list, now);
      assert results[..|list| - 1] == ResultsFor(world, init, now);
      assert results[|list| - 1] == ResultFor(world, last, now);
    }
  }

  /** One dispatch adds exactly one result for every active webhook of the event and none for any
      other, and counts as delivered exactly those whose last try succeeded. */
  lemma DispatchCounts(world: World, webhooks: Webhooks, event: string, list: seq<WebhookId>, now: int, id: WebhookId)
    requires Listed(webhooks, event, list) && id in webhooks
    ensures CountFor(ResultsFor(world, list, now), id)
         == if webhooks[id].active && event in webhooks[id].events then 1 else 0
    ensures DeliveredFor(ResultsFor(world, list, now), id)
         == if webhooks[id].active && event in webhooks[id].events && Succeeds(world, id, Tries(world, id) - 1)
            then 1 else 0
  {
    CountEach(world, list, now, id);
  }

  // ---------- Any sequence of dispatches ----------

  function AfterAll(webhooks: Webhooks, dispatches: seq<Dispatching>): Webhooks {
    if dispatches == [] then webhooks
    else AfterDispatch(AfterAll(webhooks, dispatches[..|dispatches| - 1]), dispatches[|dispatches| - 1])
  }

  /** Each listing that does not fail gives the active webhooks of its event at its time. */
  ghost predicate ListedAll(webhooks: Webhooks, dispatches: seq<Dispatching>) {
    forall i :: 0 <= i < |dispatches| && dispatches[i].listing.Some? ==>
      Listed(AfterAll(webhooks, dispatches[..i]), dispatches[i].event, dispatches[i].listing.value)
  }

  /** The dispatch concerns the webhook and its result is written. */
  predicate Reaches(d: Dispatching, id: WebhookId, w: Webhook) {
    d.listing.Some? && w.active && d.event in w.events && d.world.writeWorks(id)
  }

  predicate Delivers(d: Dispatching, id: WebhookId, w: Webhook) {
    Reaches(d, id, w) && Succeeds(d.world, id, Tries(d.world, id) - 1)
  }

  function Reached(dispatches: seq<Dispatching>, id: WebhookId, w: Webhook): nat {
    if dispatches == [] then 0
    else
      Reached(dispatches[..|dispatches| - 1], id, w) + (if Reaches(dispatches[|dispatches| - 1], id, w) then 1 else 0)
  }

  function Delivered(dispatches: seq<Dispatching>, id: WebhookId, w: Webhook): nat {
    if dispatches == [] then 0
    else
      Delivered(dispatches[..|dispatches| - 1], id, w)
      + (if Delivers(dispatches[|dispatches| - 1], id, w) then 1 else 0)
  }

  lemma CountMore(results: seq<DeliveryResult>, r: DeliveryResult, id: WebhookId)
    ensures CountFor(results + [r], id) == CountFor(results, id) + (if r.webhook == id then 1 else 0)
    ensures DeliveredFor(results + [r], id)
         == DeliveredFor(results, id) + (if r.webhook == id && r.delivered then 1 else 0)
  {
    assert (results + [r])[..|results|] == results;
  }

  lemma {:induction false} CountWritten(world: World, list: seq<WebhookId>, now: int, id: WebhookId)
    requires forall i, j :: 0 <= i < j < |list| ==> list[i] != list[j]
    ensures CountFor(WrittenFor(world, list, now), id) == if id in list && world.writeWorks(id) then 1 else 0
    ensures DeliveredFor(WrittenFor(world, list, now), id)
         == if id in list && world.writeWorks(id) && Succeeds(world, id, Tries(world, id) - 1) then 1 else 0
  {
    if list != [] {
      var init, last := list[..|list| - 1], list[|list| - 1];
      CountWritten(world, init, now, id);
      assert id in list <==> id in init || id == last;
      if world.writeWorks(last) {
        CountMore(WrittenFor(world, init, now), ResultFor(world, last, now), id);
      } else {
        assert WrittenFor(world, list, now) == WrittenFor(world, init, now);
      }
    }
  }

  /** What the operator set is not touched by results. */
  lemma {:induction false} SettingsStay(webhooks: Webhooks, results: seq<DeliveryResult>, id: WebhookId)
    requires id in webhooks
    ensures id in RecordedAll(webhooks, results)
    ensures RecordedAll(webhooks, results)[id].active == webhooks[id].active
    ensures RecordedAll(webhooks, results)[id].events == webhooks[id].events
  {
    if results != [] {
      SettingsStay(webhooks, results[..|results| - 1], id);
    }
  }

  lemma OneDispatchConserves(webhooks: Webhooks, d: Dispatching, id: WebhookId)
    requires id in webhooks && (d.listing.Some? ==> Listed(webhooks, d.event, d.listing.value))
    ensures id in AfterDispatch(webhooks, d)
    ensures var w, w' := webhooks[id], AfterDispatch(webhooks, d)[id];
            && w'.active == w.active && w'.events == w.events
            && w'.deliveries == w.deliveries + (if Delivers(d, id, w) then 1 else 0)
            && w'.deliveries + w'.failures == w.deliveries + w.failures + (if Reaches(d, id, w) then 1 else 0)
  {
    if d.listing.Some? {
      var written := WrittenFor(d.world, d.listing.value, d.now);
      CountWritten(d.world, d.listing.value, d.now, id);
      CountersConserve(webhooks, written, id);
      SettingsStay(webhooks, written, id);
    }
  }

  lemma ListedInit(webhooks: Webhooks, dispatches: seq<Dispatching>)
    requires dispatches != [] && ListedAll(webhooks, dispatches)
    ensures ListedAll(webhooks, dispatches[..|dispatches| - 1])
  {
    var init := dispatches[..|dispatches| - 1];
    assert forall i :: 0 <= i < |init| ==> init[..i] == dispatches[..i];
  }

  /** Conservation over any sequence of dispatches: together the counters of a webhook grow by the number
      of dispatches that list it and whose result is written, and `deliveries` by those of them whose
      last try succeeded. */
  lemma {:induction false} DispatchesConserve(webhooks: Webhooks, dispatches: seq<Dispatching>, id: WebhookId)
    requires id in webhooks && ListedAll(webhooks, dispatches)
    ensures id in AfterAll(webhooks, dispatches)
    ensures var w, w' := webhooks[id], AfterAll(webhooks, dispatches)[id];
            && w'.active == w.active && w'.events == w.events
            && w'.deliveries == w.deliveries + Delivered(dispatches, id, w)
            && w'.deliveries + w'.failures == w.deliveries + w.failures + Reached(dispatches, id, w)
  {
    if dispatches != [] {
      var init, last := dispatches[..|dispatches| - 1], dispatches[|dispatches| - 1];
      ListedInit(webhooks, dispatches);
      DispatchesConserve(webhooks, init, id);
      OneDispatchConserves(AfterAll(webhooks, init), last, id);
    }
  }
}
