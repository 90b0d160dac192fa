/** The webhook dispatcher: a queue consumer that posts each event to the webhooks that want it. */
module WebhookDispatcher {
  import opened Wrappers
  import opened Text
  import opened Database
  import opened WebhookDelivery

  /** A queue record; an event without a readable organisation keeps None. */
  datatype Record = Unreadable | Event(org: Option<Id>, event: Bytes, kind: Bytes)

  /** A webhook as ListWebhooks read it. */
  datatype Listed = Listed(id: Id, hook: Webhook)

  datatype Answer = Refused(error: Bytes) | Answered(status: int, body: Bytes)

  /**
    What the outside does in one attempt at a record: the listed webhooks and the marshalled event, or
    None for a failure; the addresses a request can be built for; and, by position of the webhook, the
    answer, the drawn id, the time, and whether the calls of the store reach the database.
   */
  datatype World = World(
    hooks: Option<seq<Listed>>, payload: Option<Bytes>, builds: Bytes -> bool, answer: nat -> Answer, drawn: nat -> Id,
    now: nat -> Time, up: nat -> bool, marked: nat -> bool, counted: nat -> bool)

  /** An HTTP request that left for a webhook. */
  datatype Post = Post(event: Bytes, webhook: Id)

  predicate Wants(events: seq<Bytes>, kind: Bytes)
  {
    events == [] || kind in events
  }

  method MatchesEvent(subscribed: seq<Bytes>, kind: Bytes) returns (yes: bool)
    ensures yes <==> Wants(subscribed, kind)
  {
    if |subscribed| == 0 {
      return true;
    }
    for i := 0 to |subscribed|
      invariant kind !in subscribed[..i]
    {
      if subscribed[i] == kind {
        return true;
      }
    }
    yes := false;
  }

  predicate IsTarget(h: Listed, kind: Bytes)
  {
    h.hook.active && Wants(h.hook.events, kind)
  }

  predicate Posted(w: World, h: Listed, kind: Bytes)
  {
    IsTarget(h, kind) && w.builds(h.hook.url)
  }

  const BAD_ADDRESS: Bytes := "invalid address"

  /** deliver: no request leaves for an address that none can be built for. */
  function Reply(w: World, h: Listed, i: nat): Answer
  {
    if w.builds(h.hook.url) then w.answer(i) else Refused(BAD_ADDRESS)
  }

  predicate Accepted(a: Answer)
  {
    a.Answered? && 200 <= a.status < 300
  }

  function NewDelivery(h: Listed, r: Record, payload: Bytes): Delivery
    requires r.Event?
  {
    Delivery(h.id, r.event, r.kind, payload, Waiting, 0, None, None, None, [], [])
  }

  function Finished(d: Delivery, a: Answer, now: Time): Delivery
  {
    d.(attempts := 1, lastAttemptAt := Some(now),
       responseStatus := Some(if a.Answered? then a.status else 0), responseBody := if a.Answered? then a.body else [],
       errorMessage := if a.Refused? then a.error else [])
  }

  /** The two calls of the store around the i-th webhook's request. */
  function CallsAt(w: World, hooks: seq<Listed>, r: Record, payload: Bytes, i: nat): seq<Call>
    requires i < |hooks| && r.Event?
  {
    var d, a := NewDelivery(hooks[i], r, payload), Reply(w, hooks[i], i);
    [Create(w.drawn(i), d, w.up(i)),
     if Accepted(a) then Succeed(w.drawn(i), Finished(d, a, w.now(i)), w.now(i), w.marked(i), w.counted(i))
     else Fail(w.drawn(i), Finished(d, a, w.now(i)), 1, w.now(i), w.marked(i), w.counted(i))]
  }

  /** The calls of the store for the first n webhooks. */
  function Calls(w: World, hooks: seq<Listed>, r: Record, payload: Bytes, n: nat): seq<Call>
    requires n <= |hooks| && r.Event?
  {
    if n == 0 then []
    else if IsTarget(hooks[n - 1], r.kind) then
      Calls(w, hooks, r, payload, n - 1) + CallsAt(w, hooks, r, payload, n - 1)
    else Calls(w, hooks, r, payload, n - 1)
  }

  /** The requests for the first n webhooks. */
  function Posts(w: World, hooks: seq<Listed>, r: Record, n: nat): seq<Post>
    requires n <= |hooks| && r.Event?
  {
    if n == 0 then []
    else if Posted(w, hooks[n - 1], r.kind) then Posts(w, hooks, r, n - 1) + [Post(r.event, hooks[n - 1].id)]
    else Posts(w, hooks, r, n - 1)
  }

  lemma {:induction false} RunPrefix(rows: Rows, calls: seq<Call>, more: seq<Call>, n: nat)
    requires n <= |calls|
    ensures Run(rows, calls + more, n) == Run(rows, calls, n)
  {
    if n > 0 {
      RunPrefix(rows, calls, more, n - 1);
      assert (calls + more)[n - 1] == calls[n - 1];
    }
  }

  /** Calls one after another: the second run starts where the first ended. */
  lemma {:induction false} RunMore(rows: Rows, calls: seq<Call>, more: seq<Call>)
    ensures Run(rows, calls + more, |calls + more|) == Run(Run(rows, calls, |calls|), more, |more|)
    decreases |more|
  {
    if more == [] {
      assert calls + more == calls;
    } else {
      var front := more[..|more| - 1];
      RunMore(rows, calls, front);
      RunDropsLast(rows, calls + more);
      RunDropsLast(Run(rows, calls, |calls|), more);
      assert (calls + more)[..|calls + more| - 1] == calls + front;
    }
  }

  lemma RunDropsLast(rows: Rows, calls: seq<Call>)
    requires calls != []
    ensures
      var n := |calls| - 1;
      Run(rows, calls, n + 1) == After(Run(rows, calls[..n], n), calls[n])
  {
    var n := |calls| - 1;
    RunPrefix(rows, calls[..n], [calls[n]], n);
    assert calls == calls[..n] + [calls[n]];
  }

  lemma RunTwoMore(rows: Rows, calls: seq<Call>, a: Call, b: Call)
    ensures
      var all := calls + [a, b];
      Run(rows, all, |all|) == After(After(Run(rows, calls, |calls|), a), b)
  {
    var all := calls + [a, b];
    RunPrefix(rows, calls, [a, b], |calls|);
    assert all[|calls|] == a && all[|calls| + 1] == b;
    assert Run(rows, all, |calls| + 1) == After(Run(rows, all, |calls|), a);
    assert Run(rows, all, |calls| + 2) == After(Run(rows, all, |calls| + 1), b);
  }

  // ---- What becomes of the rows ----

  /** The webhook answered the request with a status of success. */
  ghost predicate Took(w: World, h: Listed, i: nat)
  {
    w.builds(h.hook.url) && w.answer(i).Answered? && 200 <= w.answer(i).status < 300
  }

  /** The record tells what came back. */
  ghost predicate TellsAnswer(d: Delivery, w: World, h: Listed, i: nat)
  {
    if w.builds(h.hook.url) && w.answer(i).Answered? then
      && d.responseStatus == Some(w.answer(i).status) && d.responseBody == w.answer(i).body && d.errorMessage == []
    else
      && d.responseStatus == Some(0) && d.responseBody == []
      && d.errorMessage == if w.builds(h.hook.url) then w.answer(i).error else BAD_ADDRESS
  }

  /**
    The record of the request to the i-th webhook: none when its insert failed; as inserted when the mark was lost;
    otherwise delivered if and only if the webhook took it, and to be tried again two seconds later if not.
   */
  ghost predicate DeliveryTold(after: Rows, w: World, h: Listed, r: Record, payload: Bytes, i: nat, known: bool)
    requires r.Event?
  {
    if !w.up(i) || !known then w.drawn(i) !in after.deliveries
    else
      && w.drawn(i) in after.deliveries
      && var d := after.deliveries[w.drawn(i)];
         && d.webhook == h.id && d.event == r.event && d.eventType == r.kind && d.payload == payload
         && if !w.marked(i) then
              && d.status == Waiting && d.attempts == 0 && d.nextAttemptAt.None? && d.lastAttemptAt.None?
              && d.responseStatus.None? && d.responseBody == [] && d.errorMessage == []
            else
              && d.attempts == 1 && d.lastAttemptAt == Some(w.now(i)) && TellsAnswer(d, w, h, i)
              && (d.status == Delivered <==> Took(w, h, i)) && (d.status == Retrying <==> !Took(w, h, i))
              && d.nextAttemptAt == if Took(w, h, i) then None else Some(w.now(i) + 2 * SECOND)
  }

  /** The webhook's own row: the failure count is reset or raised by one when the store's calls reach the database. */
  ghost predicate WebhookTold(before: Webhook, after: Webhook, w: World, h: Listed, i: nat)
  {
    after == if !w.marked(i) || !w.counted(i) then before
             else if Took(w, h, i) then before.(failureCount := 0, lastSuccessAt := Some(w.now(i)))
             else before.(failureCount := before.failureCount + 1, lastFailureAt := Some(w.now(i)))
  }

  ghost predicate DrawsNew(rows: Rows, w: World, n: nat)
  {
    && (forall i: nat :: i < n ==> w.drawn(i) !in rows.deliveries)
    && forall i: nat, j: nat :: i < j < n ==> w.drawn(i) != w.drawn(j)
  }

  /** One request and its two calls of the store, in the rows: nothing else changes. */
  ghost predicate ToldOne(before: Rows, after: Rows, w: World, h: Listed, r: Record, payload: Bytes, i: nat)
    requires r.Event?
  {
    && DeliveryTold(after, w, h, r, payload, i, h.id in before.webhooks)
    && (forall id :: id != w.drawn(i) ==> (id in after.deliveries <==> id in before.deliveries))
    && (forall id :: id != w.drawn(i) && id in before.deliveries ==> after.deliveries[id] == before.deliveries[id])
    && after.webhooks.Keys == before.webhooks.Keys
    && (h.id in before.webhooks ==> WebhookTold(before.webhooks[h.id], after.webhooks[h.id], w, h, i))
    && (forall id :: id != h.id && id in before.webhooks ==> after.webhooks[id] == before.webhooks[id])
  }

  lemma DeliverTells(before: Rows, w: World, h: Listed, r: Record, payload: Bytes, i: nat)
    requires r.Event? && w.drawn(i) !in before.deliveries
    ensures
      var d, a := NewDelivery(h, r, payload), Reply(w, h, i);
      var after := After(After(before, Create(w.drawn(i), d, w.up(i))),
                         if Accepted(a) then
                           Succeed(w.drawn(i), Finished(d, a, w.now(i)), w.now(i), w.marked(i), w.counted(i))
                         else Fail(w.drawn(i), Finished(d, a, w.now(i)), 1, w.now(i), w.marked(i), w.counted(i)));
      ToldOne(before, after, w, h, r, payload, i)
  {
    assert NextBackoff(1) == 2;
  }

  ghost predicate TargetAt(hooks: seq<Listed>, r: Record, i: nat)
    requires r.Event?
  {
    i < |hooks| && IsTarget(hooks[i], r.kind)
  }

  /** None of the first n webhooks is this one and a target. */
  ghost predicate Untargeted(hooks: seq<Listed>, r: Record, n: nat, id: Id)
    requires r.Event?
  {
    forall i: nat :: i < n && TargetAt(hooks, r, i) ==> hooks[i].id != id
  }

  /** The first n webhooks' targets have their records, and nothing else has changed. */
  ghost predicate ToldFirst(before: Rows, after: Rows, w: World, hooks: seq<Listed>, r: Record, payload: Bytes, n: nat)
    requires r.Event? && n <= |hooks|
  {
    && (forall i: nat :: i < n && TargetAt(hooks, r, i) ==>
          && DeliveryTold(after, w, hooks[i], r, payload, i, hooks[i].id in before.webhooks)
          && (hooks[i].id in before.webhooks ==>
                && hooks[i].id in after.webhooks
                && WebhookTold(before.webhooks[hooks[i].id], after.webhooks[hooks[i].id], w, hooks[i], i)))
    && (forall id :: id in before.deliveries ==>
          id in after.deliveries && after.deliveries[id] == before.deliveries[id])
    && (forall id :: id in after.deliveries && id !in before.deliveries ==>
          exists i: nat :: i < n && TargetAt(hooks, r, i) && w.drawn(i) == id)
    && after.webhooks.Keys == before.webhooks.Keys
    && (forall id :: id in before.webhooks && Untargeted(hooks, r, n, id) ==> after.webhooks[id] == before.webhooks[id])
  }

  lemma ToldOneMore(before: Rows, mid: Rows, after: Rows, w: World, hooks: seq<Listed>, r: Record, payload: Bytes,
                    n: nat)
    requires r.Event? && 0 < n <= |hooks| && DrawsNew(before, w, n)
    requires forall i, j :: 0 <= i < j < |hooks| ==> hooks[i].id != hooks[j].id
    requires ToldFirst(before, mid, w, hooks, r, payload, n - 1) && TargetAt(hooks, r, n - 1)
    requires ToldOne(mid, after, w, hooks[n - 1], r, payload, n - 1)
    ensures ToldFirst(before, after, w, hooks, r, payload, n)
  {
  }

  lemma NotTarget(before: Rows, after: Rows, w: World, hooks: seq<Listed>, r: Record, payload: Bytes, n: nat)
    requires r.Event? && 0 < n <= |hooks| && ToldFirst(before, after, w, hooks, r, payload, n - 1)
    requires !TargetAt(hooks, r, n - 1)
    ensures ToldFirst(before, after, w, hooks, r, payload, n)
  {
  }

  lemma {:induction false} CallsTell(before: Rows, w: World, hooks: seq<Listed>, r: Record, payload: Bytes, n: nat)
    requires r.Event? && n <= |hooks| && DrawsNew(before, w, n)
    requires forall i, j :: 0 <= i < j < |hooks| ==> hooks[i].id != hooks[j].id
    ensures
      var calls := Calls(w, hooks, r, payload, n);
      ToldFirst(before, Run(before, calls, |calls|), w, hooks, r, payload, n)
  {
    if n > 0 {
      CallsTell(before, w, hooks, r, payload, n - 1);
      var calls := Calls(w, hooks, r, payload, n - 1);
      var mid := Run(before, calls, |calls|);
      if TargetAt(hooks, r, n - 1) {
        var two := CallsAt(w, hooks, r, payload, n - 1);
        assert two == [two[0], two[1]];
        RunTwoMore(before, calls, two[0], two[1]);
        DeliverTells(mid, w, hooks[n - 1], r, payload, n - 1);
        ToldOneMore(before, mid, After(After(mid, two[0]), two[1]), w, hooks, r, payload, n);
      } else {
        NotTarget(before, mid, w, hooks, r, payload, n);
      }
    }
  }

  /**
    What an attempt at a record does to the rows. A failed attempt, or a record that is skipped, changes nothing. Any
    other attempt adds the records of its targets, each as DeliveryTold says, and sets the counts of these webhooks.
   */
  ghost predicate AttemptTold(before: Rows, after: Rows, r: Record, w: World)
  {
    if !Readable(r) || w.hooks.None? || w.payload.None? then after == before
    else ToldFirst(before, after, w, w.hooks.value, r, w.payload.value, |w.hooks.value|)
  }

  /** ListWebhooks returns each webhook once. */
  ghost predicate ListsOnce(w: World)
  {
    w.hooks.Some? ==> forall i, j :: 0 <= i < j < |w.hooks.value| ==> w.hooks.value[i].id != w.hooks.value[j].id
  }

  /** The drawn ids are new and no webhook is listed twice. */
  ghost predicate Clean(before: Rows, w: World)
  {
    ListsOnce(w) && (w.hooks.Some? ==> DrawsNew(before, w, |w.hooks.value|))
  }

  /** The consumer, with the requests it has sent so far. */
  class Dispatcher {
    const store: DeliveryStore
    var posts: seq<Post>

    constructor (store: DeliveryStore)
      ensures this.store == store && posts == []
    {
      this.store, this.posts := store, [];
    }

    /** The request to one webhook, between its two calls of the store. */
    method Deliver(h: Listed, r: Record, payload: Bytes, w: World, i: nat)
      requires r.Event?
      modifies this`posts, store
      ensures
        var d, a := NewDelivery(h, r, payload), Reply(w, h, i);
        && posts == old(posts) + (if w.builds(h.hook.url) then [Post(r.event, h.id)] else [])
        && store.rows == After(After(old(store.rows), Create(w.drawn(i), d, w.up(i))),
                               if Accepted(a) then
                                 Succeed(w.drawn(i), Finished(d, a, w.now(i)), w.now(i), w.marked(i), w.counted(i))
                               else Fail(w.drawn(i), Finished(d, a, w.now(i)), 1, w.now(i), w.marked(i), w.counted(i)))
    {
      var d := NewDelivery(h, r, payload);
      var _ := store.CreateDelivery(w.drawn(i), d, w.up(i));
      var a := Reply(w, h, i);
      if w.builds(h.hook.url) {
        posts := posts + [Post(r.event, h.id)];
      }
      d := Finished(d, a, w.now(i));
      if Accepted(a) {
        var _ := store.MarkSuccess(w.drawn(i), d, w.now(i), w.marked(i), w.counted(i));
      } else {
        var _ := store.MarkFailed(w.drawn(i), d, 1, w.now(i), w.marked(i), w.counted(i));
      }
    }

    /** A failed attempt left no trace; any other attempt made the calls and requests for every target. */
    method ProcessRecord(r: Record, w: World) returns (failed: bool)
      modifies this`posts, store
      ensures failed <==> Fails(r, w)
      ensures failed ==> posts == old(posts) && store.rows == old(store.rows)
      ensures posts == old(posts) + AttemptPosts(r, w)
      ensures store.rows == Run(old(store.rows), AttemptCalls(r, w), |AttemptCalls(r, w)|)
      ensures Clean(old(store.rows), w) ==> AttemptTold(old(store.rows), store.rows, r, w)
    {
      if r.Unreadable? || r.org.None? {
        return false;
      }
      if w.hooks.None? || w.payload.None? {
        return true;
      }
      var hooks, payload := w.hooks.value, w.payload.value;
      for i := 0 to |hooks|
        invariant posts == old(posts) + Posts(w, hooks, r, i)
        invariant store.rows == Run(old(store.rows), Calls(w, hooks, r, payload, i), |Calls(w, hooks, r, payload, i)|)
      {
        if !hooks[i].hook.active {
          continue;
        }
        var wanted := MatchesEvent(hooks[i].hook.events, r.kind);
        if !wanted {
          continue;
        }
        ghost var calls := CallsAt(w, hooks, r, payload, i);
        assert calls == [calls[0], calls[1]];
        assert Calls(w, hooks, r, payload, i + 1) == Calls(w, hooks, r, payload, i) + [calls[0], calls[1]];
        RunTwoMore(old(store.rows), Calls(w, hooks, r, payload, i), calls[0], calls[1]);
        Deliver(hooks[i], r, payload, w, i);
      }
      if Clean(old(store.rows), w) {
        AttemptTells(old(store.rows), r, w);
      }
      failed := false;
    }

    /** The handler: processes a batch in order and reports its failed records. */
    method Handle(batch: seq<Record>, worlds: seq<World>) returns (failures: seq<nat>)
      requires |worlds| == |batch|
      modifies this`posts, store
      ensures failures == FailedRecords(batch, worlds, |batch|)
      ensures posts == old(posts) + BatchPosts(batch, worlds, |batch|)
      ensures store.rows == Run(old(store.rows), BatchCalls(batch, worlds, |batch|),
                                |BatchCalls(batch, worlds, |batch|)|)
    {
      failures := [];
      for k := 0 to |batch|
        invariant failures == FailedRecords(batch, worlds, k)
        invariant posts == old(posts) + BatchPosts(batch, worlds, k)
        invariant store.rows == Run(old(store.rows), BatchCalls(batch, worlds, k), |BatchCalls(batch, worlds, k)|)
      {
        RunMore(old(store.rows), BatchCalls(batch, worlds, k), AttemptCalls(batch[k], worlds[k]));
        PostsMore(old(posts), BatchPosts(batch, worlds, k), AttemptPosts(batch[k], worlds[k]));
        var failed := ProcessRecord(batch[k], worlds[k]);
        if failed {
          failures := failures + [k];
        }
      }
    }
  }

  lemma PostsMore(before: seq<Post>, posts: seq<Post>, more: seq<Post>)
    ensures before + posts + more == before + (posts + more)
  {
  }

  predicate Readable(r: Record)
  {
    r.Event? && r.org.Some?
  }

  /** The attempt is reported to the queue as failed. */
  predicate Fails(r: Record, w: World)
  {
    Readable(r) && (w.hooks.None? || w.payload.None?)
  }

  function AttemptPosts(r: Record, w: World): seq<Post>
  {
    if !Readable(r) || Fails(r, w) then [] else Posts(w, w.hooks.value, r, |w.hooks.value|)
  }

  function AttemptCalls(r: Record, w: World): seq<Call>
  {
    if !Readable(r) || Fails(r, w) then [] else Calls(w, w.hooks.value, r, w.payload.value, |w.hooks.value|)
  }

  function BatchPosts(batch: seq<Record>, worlds: seq<World>, n: nat): seq<Post>
    requires n <= |batch| == |worlds|
  {
    if n == 0 then [] else BatchPosts(batch, worlds, n - 1) + AttemptPosts(batch[n - 1], worlds[n - 1])
  }

  /** The calls of the store that the first n records of a batch make. */
  function BatchCalls(batch: seq<Record>, worlds: seq<World>, n: nat): seq<Call>
    requires n <= |batch| == |worlds|
  {
    if n == 0 then [] else BatchCalls(batch, worlds, n - 1) + AttemptCalls(batch[n - 1], worlds[n - 1])
  }

  function FailedRecords(batch: seq<Record>, worlds: seq<World>, n: nat): seq<nat>
    requires n <= |batch| == |worlds|
  {
    if n == 0 then []
    else if Fails(batch[n - 1], worlds[n - 1]) then FailedRecords(batch, worlds, n - 1) + [n - 1]
    else FailedRecords(batch, worlds, n - 1)
  }

  /** The batch response names exactly the failed records, each once and in order. */
  lemma {:induction false} FailedRecordsExact(batch: seq<Record>, worlds: seq<World>, n: nat)
    requires n <= |batch| == |worlds|
    ensures forall k: nat :: k in FailedRecords(batch, worlds, n) <==> k < n && Fails(batch[k], worlds[k])
    ensures forall i, j :: 0 <= i < j < |FailedRecords(batch, worlds, n)| ==>
            FailedRecords(batch, worlds, n)[i] < FailedRecords(batch, worlds, n)[j]
  {
    if n > 0 {
      FailedRecordsExact(batch, worlds, n - 1);
      var before := FailedRecords(batch, worlds, n - 1);
      assert forall i :: 0 <= i < |before| ==> before[i] in before;
    }
  }

  // ---- Redelivery ----

  /** The webhook is a target of the attempt, and its address makes a request. */
  ghost predicate Reaches(r: Record, w: World, webhook: Id)
  {
    && Readable(r) && !Fails(r, w)
    && exists i: nat :: i < |w.hooks.value| && w.hooks.value[i].id == webhook && Posted(w, w.hooks.value[i], r.kind)
  }

  function Count(posts: seq<Post>, p: Post): nat
  {
    if posts == [] then 0 else Count(posts[..|posts| - 1], p) + if posts[|posts| - 1] == p then 1 else 0
  }

  lemma {:induction false} CountConcat(a: seq<Post>, b: seq<Post>, p: Post)
    ensures Count(a + b, p) == Count(a, p) + Count(b, p)
  {
    if b == [] {
      assert a + b == a;
    } else {
      CountConcat(a, b[..|b| - 1], p);
      assert (a + b)[..|a + b| - 1] == a + b[..|b| - 1];
    }
  }

  lemma CountOneMore(a: seq<Post>, last: Post, p: Post)
    ensures Count(a + [last], p) == Count(a, p) + if last == p then 1 else 0
  {
    assert (a + [last])[..|a|] == a;
  }

  ghost predicate ReachesWithin(r: Record, w: World, webhook: Id, n: nat)
    requires r.Event? && w.hooks.Some? && n <= |w.hooks.value|
  {
    exists i: nat :: i < n && w.hooks.value[i].id == webhook && Posted(w, w.hooks.value[i], r.kind)
  }

  lemma {:induction false} PostsOnceWithin(r: Record, w: World, webhook: Id, n: nat)
    requires r.Event? && w.hooks.Some? && ListsOnce(w) && n <= |w.hooks.value|
    ensures Count(Posts(w, w.hooks.value, r, n), Post(r.event, webhook)) ==
            if ReachesWithin(r, w, webhook, n) then 1 else 0
  {
    if n > 0 {
      PostsOnceWithin(r, w, webhook, n - 1);
      CountOneMore(Posts(w, w.hooks.value, r, n - 1), Post(r.event, w.hooks.value[n - 1].id), Post(r.event, webhook));
    }
  }

  lemma {:induction false} OtherEventsUntouched(r: Record, w: World, hooks: seq<Listed>, p: Post, n: nat)
    requires r.Event? && n <= |hooks| && p.event != r.event
    ensures Count(Posts(w, hooks, r, n), p) == 0
  {
    if n > 0 {
      OtherEventsUntouched(r, w, hooks, p, n - 1);
      CountOneMore(Posts(w, hooks, r, n - 1), Post(r.event, hooks[n - 1].id), p);
    }
  }

  /** One attempt reaches each webhook at most once: once exactly when it is a target and a request can be made. */
  lemma AttemptReachesOnce(r: Record, w: World, event: Bytes, webhook: Id)
    requires ListsOnce(w)
    ensures Count(AttemptPosts(r, w), Post(event, webhook)) ==
            if r.Event? && r.event == event && Reaches(r, w, webhook) then 1 else 0
  {
    if Readable(r) && !Fails(r, w) {
      if r.event == event {
        PostsOnceWithin(r, w, webhook, |w.hooks.value|);
      } else {
        OtherEventsUntouched(r, w, w.hooks.value, Post(event, webhook), |w.hooks.value|);
      }
    }
  }

  /** The calls of an attempt leave exactly the records of its targets, and their webhooks' counts. */
  lemma AttemptTells(before: Rows, r: Record, w: World)
    requires Clean(before, w)
    ensures AttemptTold(before, Run(before, AttemptCalls(r, w), |AttemptCalls(r, w)|), r, w)
  {
    if Readable(r) && !Fails(r, w) {
      CallsTell(before, w, w.hooks.value, r, w.payload.value, |w.hooks.value|);
    }
  }

  predicate SameEvent(r: Record, other: Record)
  {
    r.Event? && other.Event? && r.event == other.event
  }

  /**
    Attempts at records in the order they were made: an event comes again only after attempts that
    were all reported as failed.
   */
  ghost predicate OnlyFailuresReturn(records: seq<Record>, worlds: seq<World>)
    requires |records| == |worlds|
  {
    forall i, j :: 0 <= i < j < |records| && SameEvent(records[i], records[j]) ==> Fails(records[i], worlds[i])
  }

  ghost predicate ReachedIn(records: seq<Record>, worlds: seq<World>, event: Bytes, webhook: Id, n: nat)
    requires n <= |records| == |worlds|
  {
    exists i: nat :: i < n && ReachedBy(records, worlds, event, webhook, i)
  }

  ghost predicate ReachedBy(records: seq<Record>, worlds: seq<World>, event: Bytes, webhook: Id, i: nat)
    requires i < |records| == |worlds|
  {
    records[i].Event? && records[i].event == event && Reaches(records[i], worlds[i], webhook)
  }

  /** The attempts among the first n that reach the webhook with the event. */
  ghost function Reaching(records: seq<Record>, worlds: seq<World>, event: Bytes, webhook: Id, n: nat): nat
    requires n <= |records| == |worlds|
  {
    if n == 0 then 0
    else
      Reaching(records, worlds, event, webhook, n - 1)
      + if ReachedBy(records, worlds, event, webhook, n - 1) then 1 else 0
  }

  lemma {:induction false} PostsAreReachingAttempts(records: seq<Record>, worlds: seq<World>, event: Bytes, webhook: Id,
                                                    n: nat)
    requires n <= |records| == |worlds|
    requires forall i :: 0 <= i < |worlds| ==> ListsOnce(worlds[i])
    ensures Count(BatchPosts(records, worlds, n), Post(event, webhook)) == Reaching(records, worlds, event, webhook, n)
  {
    if n > 0 {
      PostsAreReachingAttempts(records, worlds, event, webhook, n - 1);
      CountOneAttempt(records, worlds, event, webhook, n);
    }
  }

  lemma CountOneAttempt(records: seq<Record>, worlds: seq<World>, event: Bytes, webhook: Id, n: nat)
    requires 0 < n <= |records| == |worlds| && ListsOnce(worlds[n - 1])
    ensures Count(BatchPosts(records, worlds, n), Post(event, webhook)) ==
            Count(BatchPosts(records, worlds, n - 1), Post(event, webhook))
            + if ReachedBy(records, worlds, event, webhook, n - 1) then 1 else 0
  {
    var before, last := BatchPosts(records, worlds, n - 1), AttemptPosts(records[n - 1], worlds[n - 1]);
    AttemptReachesOnce(records[n - 1], worlds[n - 1], event, webhook);
    CountConcat(before, last, Post(event, webhook));
  }

  lemma {:induction false} OneAttemptReaches(records: seq<Record>, worlds: seq<World>, event: Bytes, webhook: Id,
                                             n: nat)
    requires n <= |records| == |worlds| && OnlyFailuresReturn(records, worlds)
    ensures Reaching(records, worlds, event, webhook, n) ==
            if ReachedIn(records, worlds, event, webhook, n) then 1 else 0
  {
    if n > 0 {
      OneAttemptReaches(records, worlds, event, webhook, n - 1);
      ReachedOneMore(records, worlds, event, webhook, n);
    }
  }

  /**
    Over any such run every event reaches every webhook at most once: exactly once when some attempt
    at it had the webhook as a target, and not at all otherwise.
   */
  lemma EachWebhookOnce(records: seq<Record>, worlds: seq<World>, event: Bytes, webhook: Id)
    requires |records| == |worlds| && OnlyFailuresReturn(records, worlds)
    requires forall i :: 0 <= i < |worlds| ==> ListsOnce(worlds[i])
    ensures Count(BatchPosts(records, worlds, |records|), Post(event, webhook)) ==
            if ReachedIn(records, worlds, event, webhook, |records|) then 1 else 0
  {
    PostsAreReachingAttempts(records, worlds, event, webhook, |records|);
    OneAttemptReaches(records, worlds, event, webhook, |records|);
  }

  /** An attempt that is not the last at its event failed, so it reached no one. */
  lemma ReachedOneMore(records: seq<Record>, worlds: seq<World>, event: Bytes, webhook: Id, n: nat)
    requires 0 < n <= |records| == |worlds| && OnlyFailuresReturn(records, worlds)
    ensures
      var last := ReachedBy(records, worlds, event, webhook, n - 1);
      && (ReachedIn(records, worlds, event, webhook, n) <==> ReachedIn(records, worlds, event, webhook, n - 1) || last)
      && !(ReachedIn(records, worlds, event, webhook, n - 1) && last)
  {
  }

  /** The records, with their worlds, that the response does not name. */
  function Finishing(batch: seq<Record>, worlds: seq<World>, n: nat): (r: (seq<Record>, seq<World>))
    requires n <= |batch| == |worlds|
    ensures |r.0| == |r.1|
  {
    if n == 0 then ([], [])
    else
      var before := Finishing(batch, worlds, n - 1);
      if Fails(batch[n - 1], worlds[n - 1]) then before
      else (before.0 + [batch[n - 1]], before.1 + [worlds[n - 1]])
  }

  lemma {:induction false} BatchPrefix(batch: seq<Record>, worlds: seq<World>, more: seq<Record>,
                                       moreWorlds: seq<World>, n: nat)
    requires n <= |batch| == |worlds| && |more| == |moreWorlds|
    ensures BatchPosts(batch + more, worlds + moreWorlds, n) == BatchPosts(batch, worlds, n)
    ensures BatchCalls(batch + more, worlds + moreWorlds, n) == BatchCalls(batch, worlds, n)
  {
    if n > 0 {
      BatchPrefix(batch, worlds, more, moreWorlds, n - 1);
      assert (batch + more)[n - 1] == batch[n - 1] && (worlds + moreWorlds)[n - 1] == worlds[n - 1];
    }
  }

  lemma BatchPush(batch: seq<Record>, worlds: seq<World>, r: Record, w: World)
    requires |batch| == |worlds|
    ensures
      var n := |batch|;
      && BatchPosts(batch + [r], worlds + [w], n + 1) == BatchPosts(batch, worlds, n) + AttemptPosts(r, w)
      && BatchCalls(batch + [r], worlds + [w], n + 1) == BatchCalls(batch, worlds, n) + AttemptCalls(r, w)
  {
    BatchPrefix(batch, worlds, [r], [w], |batch|);
  }

  /** A failed attempt sends nothing and calls nothing. */
  lemma FailedIsSilent(r: Record, w: World, posts: seq<Post>, calls: seq<Call>)
    requires Fails(r, w)
    ensures posts + AttemptPosts(r, w) == posts && calls + AttemptCalls(r, w) == calls
  {
  }

  /** The first n records of a batch send and call what these records do. */
  ghost predicate SameEffect(batch: seq<Record>, worlds: seq<World>, n: nat, records: seq<Record>, theirs: seq<World>)
    requires n <= |batch| == |worlds| && |records| == |theirs|
  {
    && BatchPosts(batch, worlds, n) == BatchPosts(records, theirs, |records|)
    && BatchCalls(batch, worlds, n) == BatchCalls(records, theirs, |records|)
  }

  lemma EffectPushed(batch: seq<Record>, worlds: seq<World>, n: nat, records: seq<Record>, theirs: seq<World>)
    requires 0 < n <= |batch| == |worlds| && |records| == |theirs| && SameEffect(batch, worlds, n - 1, records, theirs)
    ensures SameEffect(batch, worlds, n, records + [batch[n - 1]], theirs + [worlds[n - 1]])
  {
    BatchPush(records, theirs, batch[n - 1], worlds[n - 1]);
  }

  lemma EffectSkipped(batch: seq<Record>, worlds: seq<World>, n: nat, records: seq<Record>, theirs: seq<World>)
    requires 0 < n <= |batch| == |worlds| && |records| == |theirs| && SameEffect(batch, worlds, n - 1, records, theirs)
    requires Fails(batch[n - 1], worlds[n - 1])
    ensures SameEffect(batch, worlds, n, records, theirs)
  {
    FailedIsSilent(batch[n - 1], worlds[n - 1], BatchPosts(batch, worlds, n - 1), BatchCalls(batch, worlds, n - 1));
  }

  ghost predicate NoneFails(records: seq<Record>, theirs: seq<World>)
    requires |records| == |theirs|
  {
    forall k :: 0 <= k < |records| ==> !Fails(records[k], theirs[k])
  }

  lemma NoneFailsMore(records: seq<Record>, theirs: seq<World>, r: Record, w: World)
    requires |records| == |theirs| && NoneFails(records, theirs) && !Fails(r, w)
    ensures NoneFails(records + [r], theirs + [w])
  {
  }

  /**
    A batch does to the deliveries and sends to the webhooks exactly what the batch without its failed
    records does and sends: what is returned to the queue can be attempted again from scratch.
   */
  lemma {:induction false} FailureLeavesNoTrace(batch: seq<Record>, worlds: seq<World>, n: nat)
    requires n <= |batch| == |worlds|
    ensures
      var (records, theirs) := Finishing(batch, worlds, n);
      NoneFails(records, theirs) && SameEffect(batch, worlds, n, records, theirs)
  {
    if n > 0 {
      FailureLeavesNoTrace(batch, worlds, n - 1);
      var (records, theirs) := Finishing(batch, worlds, n - 1);
      if Fails(batch[n - 1], worlds[n - 1]) {
        EffectSkipped(batch, worlds, n, records, theirs);
      } else {
        EffectPushed(batch, worlds, n, records, theirs);
        NoneFailsMore(records, theirs, batch[n - 1], worlds[n - 1]);
      }
    }
  }

  // ---- Who is reached ----

  /** The listing is the webhooks of the organisation, each once. */
  ghost predicate ListsOrg(w: World, rows: Rows, org: Id)
  {
    && w.hooks.Some? && ListsOnce(w)
    && (forall h :: h in w.hooks.value ==> h.id in rows.webhooks && rows.webhooks[h.id] == h.hook && h.hook.org == org)
    && (forall id :: id in rows.webhooks && rows.webhooks[id].org == org ==>
        Listed(id, rows.webhooks[id]) in w.hooks.value)
  }

  /**
    A successful attempt reaches exactly the organisation's active webhooks that want the event and have a usable
    address.
   */
  lemma SuccessReachesSubscribers(r: Record, w: World, rows: Rows, webhook: Id)
    requires Readable(r) && !Fails(r, w) && ListsOrg(w, rows, r.org.value)
    ensures Count(AttemptPosts(r, w), Post(r.event, webhook)) ==
            if webhook in rows.webhooks && rows.webhooks[webhook].org == r.org.value && rows.webhooks[webhook].active
               && Wants(rows.webhooks[webhook].events, r.kind) && w.builds(rows.webhooks[webhook].url)
            then 1 else 0
  {
    AttemptReachesOnce(r, w, r.event, webhook);
    var hooks := w.hooks.value;
    if Reaches(r, w, webhook) {
      var i: nat :| i < |hooks| && hooks[i].id == webhook && Posted(w, hooks[i], r.kind);
      assert hooks[i] in hooks;
    }
    if webhook in rows.webhooks && rows.webhooks[webhook].org == r.org.value {
      var h := Listed(webhook, rows.webhooks[webhook]);
      var i :| 0 <= i < |hooks| && hooks[i] == h;
      assert hooks[i].id == webhook;
    }
  }
}
