/**
  The delivery store of the webhook service: delivery records, their retry schedule and the failure counts of
  webhooks.
 */
module WebhookDelivery {
  import opened Wrappers
  import opened Text
  import opened Database

  datatype Status = Waiting | Delivered | GivenUp | Retrying

  datatype Webhook = Webhook(org: Id, url: Bytes, events: seq<Bytes>, active: bool, failureCount: int,
                             lastSuccessAt: Option<Time>, lastFailureAt: Option<Time>)

  datatype Delivery = Delivery(webhook: Id, event: Bytes, eventType: Bytes, payload: Bytes, status: Status,
                               attempts: int,
                               nextAttemptAt: Option<Time>, lastAttemptAt: Option<Time>, responseStatus: Option<int>,
                               responseBody: Bytes, errorMessage: Bytes)

  datatype Rows = Rows(webhooks: map<Id, Webhook>, deliveries: map<Id, Delivery>)

  /** Times are in nanoseconds. */
  const SECOND := 1_000_000_000

  const MAX_RETRIES := 8

  // ---- Backoff ----

  function Pow2(n: nat): (p: nat)
    ensures p >= 1
  {
    if n == 0 then 1 else 2 * Pow2(n - 1)
  }

  /** 1 << uint(n) of a 64-bit int: a negative n becomes a shift of 64 bits or more, which leaves nothing. */
  function ShiftedOne(n: int): nat
    requires n <= 62
  {
    if n < 0 then 0 else Pow2(n)
  }

  /** nextBackoff, in seconds */
  function NextBackoff(attempt: int): nat
  {
    ShiftedOne(if attempt > 12 then 12 else attempt)
  }

  function TotalBackoff(n: nat): nat
  {
    if n == 0 then 0 else TotalBackoff(n - 1) + NextBackoff(n)
  }

  lemma {:induction false} Pow2Monotone(a: nat, b: nat)
    requires a <= b
    ensures Pow2(a) <= Pow2(b)
    ensures a < b ==> 2 * Pow2(a) <= Pow2(b)
    decreases b - a
  {
    if a < b {
      Pow2Monotone(a, b - 1);
    }
  }

  lemma Pow2Of12()
    ensures Pow2(11) == 2048 && Pow2(12) == 4096 && Pow2(8) == 256
  {
    assert Pow2(4) == 16;
    assert Pow2(8) == 256;
    assert Pow2(11) == 2048;
  }

  /** Backoffs never shrink, and never pass 4096 seconds. */
  lemma BackoffMonotone(a: int, b: int)
    requires a <= b
    ensures NextBackoff(a) <= NextBackoff(b) <= 4096
  {
    var x, y := if a > 12 then 12 else a, if b > 12 then 12 else b;
    Pow2Of12();
    if x >= 0 {
      Pow2Monotone(x, y);
    }
    if y >= 0 {
      Pow2Monotone(y, 12);
    }
  }

  /** The comment on the code promises a cap of one hour; it holds up to the eleventh attempt. */
  lemma BackoffWithinHourIff(attempt: int)
    ensures NextBackoff(attempt) <= 3600 <==> attempt <= 11
  {
    Pow2Of12();
    if 0 <= attempt <= 11 {
      Pow2Monotone(attempt, 11);
    }
  }

  /** The backoffs of attempts 1 to n sum to 2^(n+1) - 2, exactly until the cap is passed. */
  lemma {:induction false} TotalBackoffIff(n: nat)
    ensures n <= 12 ==> TotalBackoff(n) == Pow2(n + 1) - 2
    ensures n >= 12 ==> TotalBackoff(n) == 8190 + 4096 * (n - 12)
    ensures TotalBackoff(n) == Pow2(n + 1) - 2 <==> n <= 12
  {
    Pow2Of12();
    assert Pow2(13) == 8192;
    if n > 0 {
      TotalBackoffIff(n - 1);
    }
    if n > 12 {
      PastTheCap(n);
    }
  }

  lemma {:induction false} PastTheCap(n: nat)
    requires n > 12
    ensures Pow2(n + 1) - 2 > 8190 + 4096 * (n - 12)
    decreases n
  {
    Pow2Of12();
    assert Pow2(13) == 8192;
    if n > 13 {
      PastTheCap(n - 1);
    }
  }

  // ---- The statements ----

  /** INSERT INTO webhook_deliveries: next_attempt_at and what is known of attempts stay NULL. */
  function Inserted(r: Rows, id: Id, d: Delivery): Option<Rows>
  {
    if id in r.deliveries || d.webhook !in r.webhooks then None
    else Some(r.(deliveries := r.deliveries[id := Delivery(d.webhook, d.event, d.eventType, d.payload, d.status,
                                                           d.attempts,
                                                           None, None, None, [], [])]))
  }

  function MarkedSuccess(r: Rows, id: Id, d: Delivery): Rows
  {
    if id !in r.deliveries then r
    else r.(deliveries := r.deliveries[id :=
      r.deliveries[id].(status := Delivered, attempts := d.attempts, lastAttemptAt := d.lastAttemptAt,
                        nextAttemptAt := None,
                        responseStatus := d.responseStatus, responseBody := d.responseBody)])
  }

  function CountReset(r: Rows, webhook: Id, now: Time): Rows
  {
    if webhook !in r.webhooks then r
    else r.(webhooks := r.webhooks[webhook := r.webhooks[webhook].(lastSuccessAt := Some(now), failureCount := 0)])
  }

  function MarkedFailed(r: Rows, id: Id, d: Delivery, attempt: int, now: Time): Rows
  {
    if id !in r.deliveries then r
    else
      var retry := attempt < MAX_RETRIES;
      r.(deliveries := r.deliveries[id :=
        r.deliveries[id].(status := if retry then Retrying else GivenUp,
                          attempts := attempt, lastAttemptAt := d.lastAttemptAt,
                          nextAttemptAt := if retry then Some(now + SECOND * NextBackoff(attempt)) else None,
                          responseStatus := d.responseStatus, responseBody := d.responseBody,
                          errorMessage := d.errorMessage)])
  }

  function CountRaised(r: Rows, webhook: Id, now: Time): Rows
  {
    if webhook !in r.webhooks then r
    else
      var w := r.webhooks[webhook];
      r.(webhooks := r.webhooks[webhook := w.(lastFailureAt := Some(now), failureCount := w.failureCount + 1)])
  }

  // ---- The store ----

  /** A call of the store; up and counted say whether its first and its second statement reach the database. */
  datatype Call =
    | Create(id: Id, delivery: Delivery, up: bool)
    | Succeed(id: Id, delivery: Delivery, now: Time, up: bool, counted: bool)
    | Fail(id: Id, delivery: Delivery, attempt: int, now: Time, up: bool, counted: bool)

  function After(r: Rows, c: Call): Rows
  {
    if !c.up then r
    else
      match c
      case Create(id, d, _) => (match Inserted(r, id, d) case Some(r') => r' case None => r)
      case Succeed(id, d, now, _, counted) =>
        var marked := MarkedSuccess(r, id, d);
        if counted then CountReset(marked, d.webhook, now) else marked
      case Fail(id, d, attempt, now, _, counted) =>
        var marked := MarkedFailed(r, id, d, attempt, now);
        if counted then CountRaised(marked, d.webhook, now) else marked
  }

  class DeliveryStore {
    var rows: Rows

    constructor (rows: Rows)
      ensures this.rows == rows
    {
      this.rows := rows;
    }

    method CreateDelivery(id: Id, d: Delivery, up: bool) returns (ok: bool)
      modifies this
      ensures rows == After(old(rows), Create(id, d, up))
      ensures ok <==> up && Inserted(old(rows), id, d).Some?
    {
      if !up {
        return false;
      }
      var next := Inserted(rows, id, d);
      if next.None? {
        return false;
      }
      rows := next.value;
      ok := true;
    }

    method MarkSuccess(id: Id, d: Delivery, now: Time, up: bool, counted: bool) returns (ok: bool)
      modifies this
      ensures rows == After(old(rows), Succeed(id, d, now, up, counted))
      ensures ok == up
    {
      if !up {
        return false;
      }
      rows := MarkedSuccess(rows, id, d);
      if counted {
        rows := CountReset(rows, d.webhook, now);
      }
      ok := true;
    }

    method MarkFailed(id: Id, d: Delivery, attempt: int, now: Time, up: bool, counted: bool) returns (ok: bool)
      modifies this
      ensures rows == After(old(rows), Fail(id, d, attempt, now, up, counted))
      ensures ok == up
    {
      var backoff := NextBackoff(attempt);
      var status, next := Retrying, Some(now + SECOND * backoff);
      if attempt >= MAX_RETRIES {
        status, next := GivenUp, None;
      }
      if !up {
        return false;
      }
      if id in rows.deliveries {
        rows := rows.(deliveries := rows.deliveries[id :=
          rows.deliveries[id].(status := status, attempts := attempt, lastAttemptAt := d.lastAttemptAt,
                               nextAttemptAt := next,
                               responseStatus := d.responseStatus, responseBody := d.responseBody,
                               errorMessage := d.errorMessage)]);
      }
      if counted {
        rows := CountRaised(rows, d.webhook, now);
      }
      ok := true;
    }
  }

  // ---- The retry machine ----

  /** The rows after the first n calls. */
  function Run(r: Rows, calls: seq<Call>, n: nat): Rows
    requires n <= |calls|
  {
    if n == 0 then r else After(Run(r, calls, n - 1), calls[n - 1])
  }

  /** A next attempt is set exactly for the deliveries that are being retried. */
  ghost predicate Scheduled(r: Rows)
  {
    forall id :: id in r.deliveries ==> (r.deliveries[id].nextAttemptAt.Some? <==> r.deliveries[id].status == Retrying)
  }

  /** Every call keeps the schedule sound, except an insert that goes through with status retrying. */
  lemma ScheduledKeptIff(r: Rows, c: Call)
    requires Scheduled(r)
    ensures Scheduled(After(r, c)) <==>
            !(c.Create? && c.up && Inserted(r, c.id, c.delivery).Some? && c.delivery.status == Retrying)
  {
    if c.Create? && c.up && Inserted(r, c.id, c.delivery).Some? {
      assert c.id in After(r, c).deliveries && After(r, c).deliveries[c.id].nextAttemptAt.None?;
    }
  }

  /** Over any calls, while no delivery is created as retrying. */
  lemma {:induction false} ScheduledThroughout(r: Rows, calls: seq<Call>, n: nat)
    requires Scheduled(r) && n <= |calls|
    requires forall i :: 0 <= i < |calls| && calls[i].Create? ==> calls[i].delivery.status != Retrying
    ensures Scheduled(Run(r, calls, n))
  {
    if n > 0 {
      ScheduledThroughout(r, calls, n - 1);
      ScheduledKeptIff(Run(r, calls, n - 1), calls[n - 1]);
    }
  }

  /** Calls that report attempts 1, 2, … of one delivery as failed. */
  ghost predicate KeepsFailing(calls: seq<Call>, id: Id)
  {
    forall i :: 0 <= i < |calls| ==> calls[i].Fail? && calls[i].id == id && calls[i].up && calls[i].attempt == i + 1
  }

  /** The n-th failure schedules a retry 2^n seconds later, until the eighth gives up. */
  lemma {:induction false} RetriesUntilEighth(r: Rows, calls: seq<Call>, id: Id, n: nat)
    requires id in r.deliveries && KeepsFailing(calls, id) && n <= |calls|
    ensures
      var r' := Run(r, calls, n);
      && id in r'.deliveries && r'.deliveries.Keys == r.deliveries.Keys
      && (n > 0 ==>
            var d := r'.deliveries[id];
            && d.attempts == n
            && d.status == (if n < 8 then Retrying else GivenUp)
            && d.nextAttemptAt == (if n < 8 then Some(calls[n - 1].now + SECOND * Pow2(n)) else None))
  {
    if n > 0 {
      RetriesUntilEighth(r, calls, id, n - 1);
    }
  }

  /** When each retry fails at its scheduled time, the delivery is given up 254 seconds after its first failure. */
  lemma {:induction false} GivenUpAfter254Seconds(r: Rows, calls: seq<Call>, id: Id, n: nat)
    requires id in r.deliveries && KeepsFailing(calls, id) && 1 <= n <= 8 <= |calls|
    requires forall i :: 1 <= i < 8 ==>
             id in Run(r, calls, i).deliveries && Some(calls[i].now) == Run(r, calls, i).deliveries[id].nextAttemptAt
    ensures calls[n - 1].now == calls[0].now + SECOND * TotalBackoff(n - 1)
    ensures n == 8 ==> calls[7].now == calls[0].now + SECOND * 254 && Run(r, calls, 8).deliveries[id].status == GivenUp
  {
    Pow2Of12();
    TotalBackoffIff(n - 1);
    RetriesUntilEighth(r, calls, id, 8);
    if n > 1 {
      GivenUpAfter254Seconds(r, calls, id, n - 1);
      RetriesUntilEighth(r, calls, id, n - 1);
      assert Some(calls[n - 1].now) == Run(r, calls, n - 1).deliveries[id].nextAttemptAt;
    }
  }

  /**
    What the store schedules stays far below the cap: a next attempt that a failure sets is at most
    128 seconds away, since from the eighth attempt on none is set.
   */
  lemma RetryWithin128Seconds(r: Rows, id: Id, d: Delivery, attempt: int, now: Time)
    requires id in r.deliveries
    ensures
      var next := MarkedFailed(r, id, d, attempt, now).deliveries[id].nextAttemptAt;
      && (next.Some? <==> attempt < 8)
      && (next.Some? ==> now <= next.value <= now + SECOND * 128)
  {
    if attempt < 8 {
      assert Pow2(4) == 16;
      assert Pow2(7) == 128;
      BackoffMonotone(attempt, 7);
    }
  }

  // ---- Failure counts ----

  predicate Resets(c: Call, webhook: Id)
  {
    c.Succeed? && c.up && c.counted && c.delivery.webhook == webhook
  }

  predicate Raises(c: Call, webhook: Id)
  {
    c.Fail? && c.up && c.counted && c.delivery.webhook == webhook
  }

  /** The calls from the k-th up to the n-th that raise the webhook's failure count. */
  function Failures(calls: seq<Call>, webhook: Id, k: nat, n: nat): set<nat>
    requires n <= |calls|
  {
    set i: nat | k <= i < n && Raises(calls[i], webhook)
  }

  /** The webhook's failure count after the first n calls. */
  function CountAt(r: Rows, calls: seq<Call>, webhook: Id, n: nat): int
    requires webhook in r.webhooks && n <= |calls|
  {
    WebhooksStay(r, calls, n);
    Run(r, calls, n).webhooks[webhook].failureCount
  }

  lemma CountStep(r: Rows, calls: seq<Call>, webhook: Id, n: nat)
    requires webhook in r.webhooks && 0 < n <= |calls|
    ensures CountAt(r, calls, webhook, n) ==
            if Resets(calls[n - 1], webhook) then 0
            else CountAt(r, calls, webhook, n - 1) + if Raises(calls[n - 1], webhook) then 1 else 0
  {
    WebhooksStay(r, calls, n - 1);
    WebhooksStay(r, calls, n);
    CountAfter(Run(r, calls, n - 1), calls[n - 1], webhook);
  }

  lemma FailuresStep(calls: seq<Call>, webhook: Id, k: nat, n: nat)
    requires k < n <= |calls|
    ensures |Failures(calls, webhook, k, n)| ==
            |Failures(calls, webhook, k, n - 1)| + if Raises(calls[n - 1], webhook) then 1 else 0
  {
    assert Failures(calls, webhook, k, n) ==
           Failures(calls, webhook, k, n - 1) + if Raises(calls[n - 1], webhook) then {n - 1} else {};
  }

  /**
    After the last counted success of a webhook (or from the start, when there is none) its failure
    count is the number of counted failures since.
   */
  lemma {:induction false} FailureCountSinceSuccess(r: Rows, calls: seq<Call>, webhook: Id, k: nat, n: nat)
    requires webhook in r.webhooks && k <= n <= |calls|
    requires forall i :: k <= i < n ==> !Resets(calls[i], webhook)
    ensures CountAt(r, calls, webhook, n) ==
            (if k > 0 && Resets(calls[k - 1], webhook) then 0 else CountAt(r, calls, webhook, k))
            + |Failures(calls, webhook, k, n)|
    decreases n
  {
    if n > k {
      FailureCountSinceSuccess(r, calls, webhook, k, n - 1);
      CountStep(r, calls, webhook, n);
      FailuresStep(calls, webhook, k, n);
    } else {
      assert Failures(calls, webhook, k, n) == {};
      if k > 0 {
        CountStep(r, calls, webhook, k);
      }
    }
  }

  lemma CountAfter(r: Rows, c: Call, webhook: Id)
    requires webhook in r.webhooks
    ensures After(r, c).webhooks.Keys == r.webhooks.Keys
    ensures After(r, c).webhooks[webhook].failureCount ==
            if Resets(c, webhook) then 0 else r.webhooks[webhook].failureCount + if Raises(c, webhook) then 1 else 0
  {
  }

  lemma {:induction false} WebhooksStay(r: Rows, calls: seq<Call>, n: nat)
    requires n <= |calls|
    ensures Run(r, calls, n).webhooks.Keys == r.webhooks.Keys
  {
    if n > 0 {
      WebhooksStay(r, calls, n - 1);
    }
  }
}
