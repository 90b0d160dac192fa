/** When the scheduler's batches can starve: drafts that no approval can go through for, and the rest behind them. */
module DraftBacklog {
  import opened Wrappers
  import opened Text
  import opened Database
  import opened TableInvariants
  import opened DraftScheduler
  import DraftService

  /** No approval of the draft can succeed, whatever ids are drawn: its inbox or thread is not its organisation's. */
  ghost predicate Blocked(t: Tables, d: Draft)
  {
    || d.inbox !in t.inboxes || t.inboxes[d.inbox].org != d.org
    || (d.thread.Some? && (d.thread.value !in t.threads || t.threads[d.thread.value].org != d.org))
  }

  ghost function BlockedDue(t: Tables, now: Time): set<Id>
  {
    set d | d in Due(t, now) && Blocked(t, t.drafts[d])
  }

  /** The due drafts that an approval can go through for. */
  ghost function Approvable(t: Tables, now: Time): set<Id>
  {
    Due(t, now) - BlockedDue(t, now)
  }

  ghost predicate AllBlocked(t: Tables, now: Time, rows: seq<DueDraft>)
  {
    forall i :: 0 <= i < |rows| ==> rows[i].draft in BlockedDue(t, now)
  }

  ghost function RowIds(rows: seq<DueDraft>): set<Id>
  {
    set i | 0 <= i < |rows| :: rows[i].draft
  }

  ghost predicate Distinct(rows: seq<DueDraft>)
  {
    forall i, j :: 0 <= i < j < |rows| ==> rows[i].draft != rows[j].draft
  }

  lemma {:induction false} RowIdsCount(rows: seq<DueDraft>)
    requires Distinct(rows)
    ensures |RowIds(rows)| == |rows|
  {
    if rows != [] {
      var n := |rows| - 1;
      RowIdsCount(rows[..n]);
      assert RowIds(rows) == RowIds(rows[..n]) + {rows[n].draft};
      assert rows[n].draft !in RowIds(rows[..n]);
    }
  }

  lemma Within(a: set<Id>, b: set<Id>)
    requires a <= b
    ensures |a| <= |b| && |b - a| == |b| - |a|
  {
    assert b == a + (b - a);
  }

  /** Any n of the due drafts can be listed. */
  lemma {:induction false} ListSome(t: Tables, ids: set<Id>, n: nat) returns (rows: seq<DueDraft>)
    requires ids <= t.drafts.Keys && n <= |ids|
    ensures |rows| == n && Distinct(rows) && RowIds(rows) <= ids
    ensures forall i :: 0 <= i < n ==> rows[i].draft in ids && rows[i].org == t.drafts[rows[i].draft].org
  {
    rows := [];
    if n > 0 {
      Inhabited(ids);
      var d :| d in ids;
      var rest := ListSome(t, ids - {d}, n - 1);
      rows := rest + [DueDraft(d, t.drafts[d].org)];
    }
  }

  ghost function BatchSize(t: Tables, now: Time): nat
  {
    if |Due(t, now)| < BATCH then |Due(t, now)| else BATCH
  }

  /** The query may pick nothing but blocked drafts if and only if there are as many of them as it picks. */
  lemma BlockedBatchIff(t: Tables, now: Time)
    ensures (exists rows :: Picked(t, now, rows) && AllBlocked(t, now, rows)) <==>
            |BlockedDue(t, now)| >= BatchSize(t, now)
  {
    if exists rows :: Picked(t, now, rows) && AllBlocked(t, now, rows) {
      var rows :| Picked(t, now, rows) && AllBlocked(t, now, rows);
      RowIdsCount(rows);
      assert RowIds(rows) <= BlockedDue(t, now);
      Within(RowIds(rows), BlockedDue(t, now));
    }
    if |BlockedDue(t, now)| >= BatchSize(t, now) {
      var rows := ListSome(t, BlockedDue(t, now), BatchSize(t, now));
      assert Picked(t, now, rows) && AllBlocked(t, now, rows);
    }
  }

  // ---- Starvation ----

  /** Approving a blocked draft fails, whatever is drawn for it. */
  lemma BlockedFails(t: Tables, now: Time, row: DueDraft, drawn: DraftService.Drawn)
    requires row.draft in BlockedDue(t, now) && row.org == t.drafts[row.draft].org
    ensures ApproveRow(t, row, drawn, now).Failure?
  {
  }

  /** A run that picks only blocked drafts changes nothing, whatever ids are drawn. */
  lemma {:induction false} BlockedRunIsIdle(states: seq<Tables>, rows: seq<DueDraft>, approved: seq<bool>,
                                            drawn: nat -> DraftService.Drawn, now: Time, n: nat)
    requires IsBatch(states, rows, approved, drawn, now) && n <= |rows|
    requires Picked(states[0], now, rows) && AllBlocked(states[0], now, rows)
    ensures states[n] == states[0]
  {
    if n > 0 {
      BlockedRunIsIdle(states, rows, approved, drawn, now, n - 1);
      assert BatchStep(states[n - 1], states[n], rows[n - 1], approved[n - 1], drawn(n - 1), now);
      BlockedFails(states[0], now, rows[n - 1], drawn(n - 1));
    }
  }

  /** Runs at later and later times, each of which picks only blocked drafts. */
  ghost predicate Idles(tables: seq<Tables>, batches: seq<Batch>, times: seq<Time>)
  {
    && |tables| == |batches| + 1 && |times| == |batches|
    && forall i :: 0 <= i < |batches| ==> IdlePick(batches[i], tables[i], tables[i + 1], times[i])
  }

  ghost predicate IdlePick(b: Batch, t: Tables, t': Tables, now: Time)
  {
    && IsBatch(b.states, b.rows, b.approved, b.drawn, now) && b.states[0] == t && b.states[|b.rows|] == t'
    && Picked(t, now, b.rows) && AllBlocked(t, now, b.rows)
  }

  /**
    Run after run, whatever is drawn: such runs change nothing. And a hundred blocked drafts picked once
    may be picked by every later run.
   */
  lemma {:induction false} StuckRunRepeats(tables: seq<Tables>, batches: seq<Batch>, times: seq<Time>, k: nat)
    requires Idles(tables, batches, times) && k <= |batches|
    ensures tables[k] == tables[0]
  {
    if k > 0 {
      StuckRunRepeats(tables, batches, times, k - 1);
      var b := batches[k - 1];
      assert IdlePick(b, tables[k - 1], tables[k], times[k - 1]);
      BlockedRunIsIdle(b.states, b.rows, b.approved, b.drawn, times[k - 1], |b.rows|);
    }
  }

  lemma BlockedPickStays(t: Tables, now: Time, later: Time, rows: seq<DueDraft>)
    requires Picked(t, now, rows) && AllBlocked(t, now, rows) && |rows| == BATCH && now <= later
    ensures Picked(t, later, rows) && AllBlocked(t, later, rows)
  {
    assert Due(t, now) <= Due(t, later);
    Within(Due(t, now), Due(t, later));
  }

  // ---- Progress ----

  /** A run in which approvals fail only for reasons of the tables, and every drawn id is new. */
  ghost predicate Faultless(states: seq<Tables>, rows: seq<DueDraft>, approved: seq<bool>,
                            drawn: nat -> DraftService.Drawn, now: Time)
  {
    && IsBatch(states, rows, approved, drawn, now)
    && forall i :: 0 <= i < |rows| ==>
      && (!approved[i] ==> ApproveRow(states[i], rows[i], drawn(i), now).Failure?)
      && drawn(i).thread !in states[i].threads && drawn(i).message !in states[i].messages
  }

  /** The ground that blocking depends on: inboxes, and the organisations of the threads there are. */
  ghost predicate SameGround(t: Tables, t': Tables)
  {
    && t'.inboxes == t.inboxes
    && forall th :: th in t.threads ==> th in t'.threads && t'.threads[th].org == t.threads[th].org
  }

  lemma ApprovalKeepsGround(t: Tables, t': Tables, row: DueDraft, drawn: DraftService.Drawn, now: Time)
    requires Inv(t) && ApproveRow(t, row, drawn, now) == Success(t')
    ensures SameGround(t, t')
  {
    ApproveShape(t, row.org, row.draft, NOTE, NOBODY, drawn, now);
  }

  /** On the same ground a draft is blocked as before: its thread was there already. */
  lemma BlockedAsBefore(t: Tables, t': Tables, d: Draft)
    requires SameGround(t, t') && DraftPlaced(d, t.threads)
    ensures Blocked(t', d) <==> Blocked(t, d)
  {
    if d.thread.Some? {
      var th := d.thread.value;
      assert th in t.threads && th in t'.threads && t'.threads[th].org == t.threads[th].org;
    }
  }

  lemma {:induction false} GroundTo(states: seq<Tables>, rows: seq<DueDraft>, approved: seq<bool>,
                                    drawn: nat -> DraftService.Drawn, now: Time, n: nat)
    requires IsBatch(states, rows, approved, drawn, now) && Inv(states[0]) && n <= |rows|
    ensures SameGround(states[0], states[n])
  {
    if n > 0 {
      GroundTo(states, rows, approved, drawn, now, n - 1);
      BatchTo(states, rows, approved, drawn, now, now, n - 1);
      assert BatchStep(states[n - 1], states[n], rows[n - 1], approved[n - 1], drawn(n - 1), now);
      if approved[n - 1] {
        ApprovalKeepsGround(states[n - 1], states[n], rows[n - 1], drawn(n - 1), now);
      }
    }
  }

  /** Such a run approves exactly the picked drafts that are not blocked. */
  lemma ApprovedIffNotBlocked(states: seq<Tables>, rows: seq<DueDraft>, approved: seq<bool>,
                              drawn: nat -> DraftService.Drawn, now: Time, i: nat)
    requires Faultless(states, rows, approved, drawn, now) && Inv(states[0]) && Picked(states[0], now, rows)
             && i < |rows|
    ensures approved[i] <==> rows[i].draft !in BlockedDue(states[0], now)
  {
    var t, d := states[0], rows[i].draft;
    BatchTo(states, rows, approved, drawn, now, now, i);
    GroundTo(states, rows, approved, drawn, now, i);
    assert d !in Settled(rows, approved, i);
    assert states[i].drafts[d] == t.drafts[d];
    assert BatchStep(states[i], states[i + 1], rows[i], approved[i], drawn(i), now);
    BlockedAsBefore(t, states[i], t.drafts[d]);
    ApprovalSucceedsIff(states[i], rows[i], drawn(i), now);
  }

  lemma ApprovesUnblocked(states: seq<Tables>, rows: seq<DueDraft>, approved: seq<bool>,
                          drawn: nat -> DraftService.Drawn, now: Time)
    requires Faultless(states, rows, approved, drawn, now) && Inv(states[0]) && Picked(states[0], now, rows)
    ensures Settled(rows, approved, |rows|) == RowIds(rows) - BlockedDue(states[0], now)
  {
    forall i | 0 <= i < |rows|
      ensures approved[i] <==> rows[i].draft !in BlockedDue(states[0], now)
    {
      ApprovedIffNotBlocked(states, rows, approved, drawn, now, i);
    }
    forall d
      ensures d in Settled(rows, approved, |rows|) <==> d in RowIds(rows) - BlockedDue(states[0], now)
    {
    }
  }

  /** What is blocked stays blocked, and nothing else becomes so. */
  lemma BlockedStays(states: seq<Tables>, rows: seq<DueDraft>, approved: seq<bool>, drawn: nat -> DraftService.Drawn,
                     now: Time)
    requires Faultless(states, rows, approved, drawn, now) && Inv(states[0]) && Picked(states[0], now, rows)
    ensures
      var t, t' := states[0], states[|rows|];
      && Inv(t') && BlockedDue(t', now) == BlockedDue(t, now)
      && Approvable(t', now) == Approvable(t, now) - RowIds(rows)
  {
    var t, t', n := states[0], states[|rows|], |rows|;
    ApprovesUnblocked(states, rows, approved, drawn, now);
    BatchTo(states, rows, approved, drawn, now, now, n);
    GroundTo(states, rows, approved, drawn, now, n);
    forall d | d in Due(t', now)
      ensures Blocked(t', t'.drafts[d]) <==> Blocked(t, t.drafts[d])
    {
      assert t'.drafts[d] == t.drafts[d];
      BlockedAsBefore(t, t', t.drafts[d]);
    }
  }

  /** How many approvable drafts a run takes off at least: all, or what the blocked drafts leave of a batch. */
  ghost function Progress(t: Tables, now: Time): nat
    requires |BlockedDue(t, now)| < BATCH
  {
    BATCH - |BlockedDue(t, now)|
  }

  /** With fewer than a hundred blocked drafts every such run approves what is left, or that many. */
  lemma RunProgresses(states: seq<Tables>, rows: seq<DueDraft>, approved: seq<bool>, drawn: nat -> DraftService.Drawn,
                      now: Time)
    requires Faultless(states, rows, approved, drawn, now) && Inv(states[0]) && Picked(states[0], now, rows)
    requires |BlockedDue(states[0], now)| < BATCH
    ensures
      var t, t' := states[0], states[|rows|];
      && Inv(t') && BlockedDue(t', now) == BlockedDue(t, now)
      && (Approvable(t', now) == {} || |Approvable(t', now)| <= |Approvable(t, now)| - Progress(t, now))
  {
    var t := states[0];
    BlockedStays(states, rows, approved, drawn, now);
    RowIdsCount(rows);
    TakesEnough(Due(t, now), BlockedDue(t, now), RowIds(rows));
  }

  /**
    A hundred of the due drafts, or all of fewer, hold all but the blocked ones, or as many as the blocked ones leave
    room for.
   */
  lemma TakesEnough(due: set<Id>, blocked: set<Id>, ids: set<Id>)
    requires ids <= due && blocked <= due && |blocked| < BATCH
    requires |ids| == if |due| < BATCH then |due| else BATCH
    ensures due - blocked - ids == {} || |due - blocked - ids| <= |due - blocked| - (BATCH - |blocked|)
  {
    Within(ids, due);
    Within(ids * blocked, blocked);
    Within(ids * blocked, ids);
    assert ids - blocked == ids - ids * blocked;
    Within(ids - blocked, due - blocked);
    assert due - blocked - ids == (due - blocked) - (ids - blocked);
    if |due| < BATCH {
      assert due - ids == {};
    }
  }

  // ---- Many runs ----

  ghost predicate Works(b: Batch, t: Tables, now: Time)
  {
    Faultless(b.states, b.rows, b.approved, b.drawn, now) && b.states[0] == t && Picked(t, now, b.rows)
  }

  /** Consecutive faultless runs, with whatever rows the query picks, while no further draft falls due. */
  ghost predicate WorkingRuns(tables: seq<Tables>, batches: seq<Batch>, now: Time)
  {
    && |tables| == |batches| + 1
    && forall i :: 0 <= i < |batches| ==>
        Works(batches[i], tables[i], now) && batches[i].states[|batches[i].rows|] == tables[i + 1]
  }

  /** What is left of n after k steps that take at least p. */
  ghost function Remaining(n: nat, p: nat, k: nat): nat
  {
    if n <= p * k then 0 else n - p * k
  }

  lemma RemainingStep(n: nat, p: nat, k: nat, left: nat)
    requires k > 0 && (left == 0 || left <= Remaining(n, p, k - 1) - p)
    ensures left <= Remaining(n, p, k)
  {
    assert p * k == p * (k - 1) + p;
  }

  /**
    With fewer than a hundred blocked drafts no choice of rows starves the others: k runs leave at most what
    is above k times the room that the blocked drafts leave, so all are approved after finitely many.
   */
  lemma {:induction false} BacklogDrains(tables: seq<Tables>, batches: seq<Batch>, now: Time, k: nat)
    requires WorkingRuns(tables, batches, now) && Inv(tables[0]) && k <= |batches|
    requires |BlockedDue(tables[0], now)| < BATCH
    ensures Inv(tables[k]) && BlockedDue(tables[k], now) == BlockedDue(tables[0], now)
    ensures |Approvable(tables[k], now)| <= Remaining(|Approvable(tables[0], now)|, Progress(tables[0], now), k)
  {
    if k > 0 {
      BacklogDrains(tables, batches, now, k - 1);
      var b := batches[k - 1];
      assert Works(b, tables[k - 1], now);
      RunProgresses(b.states, b.rows, b.approved, b.drawn, now);
      RemainingStep(|Approvable(tables[0], now)|, Progress(tables[0], now), k, |Approvable(tables[k], now)|);
    }
  }

  lemma RunsCover(n: nat, p: nat, k: nat)
    requires p >= 1 && k >= n
    ensures Remaining(n, p, k) == 0
  {
    assert p * k == k + (p - 1) * k;
  }

  /** The approvable drafts are all gone after as many runs as there were, at the latest. */
  lemma AllApprovedAfter(tables: seq<Tables>, batches: seq<Batch>, now: Time)
    requires WorkingRuns(tables, batches, now) && Inv(tables[0])
    requires |BlockedDue(tables[0], now)| < BATCH && |batches| >= |Approvable(tables[0], now)|
    ensures Approvable(tables[|batches|], now) == {}
  {
    BacklogDrains(tables, batches, now, |batches|);
    RunsCover(|Approvable(tables[0], now)|, Progress(tables[0], now), |batches|);
  }

  /** While some draft can be approved, a batch can be wasted if and only if a hundred drafts are blocked. */
  lemma StarvesIff(t: Tables, now: Time)
    requires Approvable(t, now) != {}
    ensures (exists rows :: Picked(t, now, rows) && AllBlocked(t, now, rows)) <==> |BlockedDue(t, now)| >= BATCH
  {
    BlockedBatchIff(t, now);
    Within(BlockedDue(t, now), Due(t, now));
  }

  // ---- Tables that starve ----

  /** A request of organisation 7, due at once, to write in a thread. */
  function DueRequest(thread: Option<Id>): DraftService.CreateRequest
  {
    DraftService.CreateRequest(1, thread, [], [Address(['@'], [])], [], [], [], [], [], Some(0), None, [])
  }

  function Upto(n: nat): (ids: set<Id>)
    ensures forall d :: d in ids <==> 0 <= d < n
    ensures |ids| == n
  {
    if n == 0 then {} else Upto(n - 1) + {n - 1}
  }

  /** The drafts 0, …, n - 1 that organisation 7 wrote in a thread of organisation 8, and draft n in a new thread. */
  function DueDrafts(n: nat): map<Id, Draft>
  {
    map d | d in Upto(n + 1) :: DueDraftOf(n, d)
  }

  function DueDraftOf(n: nat, d: Id): (r: Draft)
    ensures r.org == 7 && r.inbox == 1 && r.thread == if d < n then Some(10) else None
    ensures r.status == Pending && r.message.None? && r.scheduledAt == Some(0)
  {
    DraftService.NewDraft(7, DueRequest(if d < n then Some(10) else None), 0)
  }

  /** Both organisations have an inbox; organisation 8 received a mail. */
  function TwoOrganisations(drafts: map<Id, Draft>): Tables
  {
    Tables(map[1 := Inbox(7, "i@b", [], true), 2 := Inbox(8, "j@b", [], true)],
           map[10 := Thread(8, 2, [], [], Open, false, false, 1, [], Some(0), 0)],
           map[20 := Message(8, 2, 10, [], [], [], false, Received, Address([], []), [], [], [], [], [], false, None,
                             0)],
           drafts, map[])
  }

  /** Such drafts are created one by one: the thread must exist, but nothing asks whose it is. */
  lemma ForeignThreadAccepted(n: nat, d: Id, drawn: DraftService.Drawn, valid: DraftService.AddressCheck)
    requires 0 <= d < n && valid(['@'])
    ensures
      var t := TwoOrganisations(DueDrafts(n) - {d});
      DraftService.CreateOutcome(t, 7, DueRequest(Some(10)), d, drawn, 0, valid) ==
          Success(TwoOrganisations(DueDrafts(n)))
  {
    assert d in Upto(n + 1);
    assert (DueDrafts(n) - {d})[d := DueDraftOf(n, d)] == DueDrafts(n);
  }

  lemma ForeignIsSound(drafts: map<Id, Draft>)
    requires forall d :: d in drafts ==>
               drafts[d].inbox == 1 && drafts[d].status == Pending && drafts[d].message.None?
               && drafts[d].thread in {None, Some(10)}
    ensures Inv(TwoOrganisations(drafts))
  {
    var t := TwoOrganisations(drafts);
    assert InThread(t.messages, 10) == {20};
    assert Linked(t) && Counted(t) && Reviewed(t);
    assert Faithful(t) && Owned(t) && Flagged(t);
  }

  lemma ForeignBlocked(n: nat)
    ensures
      var t := TwoOrganisations(DueDrafts(n));
      Due(t, 0) == Upto(n + 1) && BlockedDue(t, 0) == Upto(n) && Approvable(t, 0) == {n}
  {
    var t := TwoOrganisations(DueDrafts(n));
    assert Due(t, 0) == Upto(n + 1);
    forall d | d in Upto(n + 1)
      ensures d in t.drafts && (Blocked(t, t.drafts[d]) <==> d < n)
    {
      assert t.drafts[d] == DueDraftOf(n, d);
    }
    assert BlockedDue(t, 0) == Upto(n);
  }

  /**
    In these sound tables draft n can be approved, and it can be kept waiting if and only if n is a hundred or more.
   */
  lemma StarvedByHundred(n: nat)
    ensures
      var t := TwoOrganisations(DueDrafts(n));
      && Inv(t) && |BlockedDue(t, 0)| == n && Approvable(t, 0) == {n}
      && ((exists rows :: Picked(t, 0, rows) && AllBlocked(t, 0, rows)) <==> n >= BATCH)
  {
    ForeignIsSound(DueDrafts(n));
    ForeignBlocked(n);
    StarvesIff(TwoOrganisations(DueDrafts(n)), 0);
  }
}
