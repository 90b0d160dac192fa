/** The scheduled lambda that approves drafts whose time has come, at most a hundred in a run. */
module DraftScheduler {
  import opened Wrappers
  import opened Text
  import opened Database
  import opened TableInvariants
  import DraftService

  const BATCH := 100
  const NOTE: Bytes := "scheduled send"

  /** The claims of the scheduler name no user, so reviewed_by is the nil id. */
  const NOBODY: Id := 0

  /** A row of the scheduler's query. */
  datatype DueDraft = DueDraft(draft: Id, org: Id)

  ghost function Due(t: Tables, now: Time): set<Id>
  {
    set d | d in t.drafts && t.drafts[d].status == Pending && t.drafts[d].scheduledAt.Some?
    && t.drafts[d].scheduledAt.value <= now
  }

  /** What LIMIT 100 without an ORDER BY may return: any hundred of the due drafts, or all of fewer. */
  ghost predicate Picked(t: Tables, now: Time, rows: seq<DueDraft>)
  {
    && |rows| == (if |Due(t, now)| < BATCH then |Due(t, now)| else BATCH)
    && (forall i :: 0 <= i < |rows| ==> rows[i].draft in Due(t, now) && rows[i].org == t.drafts[rows[i].draft].org)
    && (forall i, j :: 0 <= i < j < |rows| ==> rows[i].draft != rows[j].draft)
  }

  ghost function ApproveRow(t: Tables, row: DueDraft, drawn: DraftService.Drawn, now: Time): Result<Tables, Error>
  {
    DraftService.ApproveOutcome(t, row.org, row.draft, NOTE, NOBODY, drawn, now)
  }

  /** states follow from approving the rows one after another; approved tells which approvals went through. */
  ghost predicate IsBatch(states: seq<Tables>, rows: seq<DueDraft>, approved: seq<bool>,
                          drawn: nat -> DraftService.Drawn, now: Time)
  {
    && |states| == |rows| + 1 && |approved| == |rows|
    && forall i :: 0 <= i < |rows| ==> BatchStep(states[i], states[i + 1], rows[i], approved[i], drawn(i), now)
  }

  ghost predicate BatchStep(t: Tables, t': Tables, row: DueDraft, approved: bool, drawn: DraftService.Drawn, now: Time)
  {
    if approved then ApproveRow(t, row, drawn, now) == Success(t') else t' == t
  }

  /**
    The handler. answer is what the query returns if it succeeds; an approval that fails is logged
    and the next draft follows.
   */
  method RunScheduled(db: Connection, answer: seq<DueDraft>, drawn: nat -> DraftService.Drawn, now: Time)
    returns (r: Result<seq<bool>, Error>, ghost states: seq<Tables>)
    modifies db
    ensures r.Failure? ==> db.tables == old(db.tables)
    ensures r.Success? ==>
              && IsBatch(states, answer, r.value, drawn, now)
              && states[0] == old(db.tables) && states[|answer|] == db.tables
    ensures db.Reliable() ==>
              && r.Success?
              && forall i :: 0 <= i < |answer| && !r.value[i] ==>
                  ApproveRow(states[i], answer[i], drawn(i), now).Failure?
  {
    states := [db.tables];
    var asked := db.Alone();
    if !asked {
      r := Failure(Unavailable);
      return;
    }
    var pending := Collect(answer);
    var approved: seq<bool> := [];
    for i := 0 to |pending|
      invariant |approved| == i && |states| == i + 1
      invariant states[0] == old(db.tables) && states[i] == db.tables
      invariant forall k :: 0 <= k < i ==> BatchStep(states[k], states[k + 1], pending[k], approved[k], drawn(k), now)
      invariant db.Reliable() ==> forall k :: 0 <= k < i && !approved[k] ==>
                ApproveRow(states[k], pending[k], drawn(k), now).Failure?
    {
      var done := DraftService.Approve(db, pending[i].org, pending[i].draft, NOTE, NOBODY, drawn(i), now);
      approved := approved + [done.Success?];
      states := states + [db.tables];
    }
    r := Success(approved);
  }

  // ---- What one run does ----

  /** The drafts of the first n rows that were approved. */
  ghost function Settled(rows: seq<DueDraft>, approved: seq<bool>, n: nat): set<Id>
    requires n <= |rows| == |approved|
  {
    set i | 0 <= i < n && approved[i] :: rows[i].draft
  }

  ghost function Count(approved: seq<bool>): nat
  {
    if approved == [] then 0 else Count(approved[..|approved| - 1]) + (if approved[|approved| - 1] then 1 else 0)
  }

  /** Approvals took the drafts of gone off the backlog and changed no other; n messages are new. */
  ghost predicate Took(t: Tables, t': Tables, gone: set<Id>, n: nat, at: Time)
  {
    && Due(t', at) == Due(t, at) - gone && t'.drafts.Keys == t.drafts.Keys
    && (forall d :: d in t.drafts && d !in gone ==> t'.drafts[d] == t.drafts[d])
    && (forall d :: d in gone ==> d in t'.drafts && t'.drafts[d].status == Approved)
    && |t'.messages| == |t.messages| + n
  }

  lemma TookMore(t: Tables, t': Tables, t'': Tables, gone: set<Id>, more: set<Id>, n: nat, at: Time)
    requires Took(t, t', gone, n, at) && Took(t', t'', more, 1, at)
    ensures Took(t, t'', gone + more, n + 1, at)
  {
  }

  lemma OneMessageMore(t: Tables, t': Tables, m: Id)
    requires m !in t.messages && m in t'.messages && t'.messages == t.messages[m := t'.messages[m]]
    ensures |t'.messages| == |t.messages| + 1
  {
    assert t'.messages.Keys == t.messages.Keys + {m};
  }

  lemma ApprovesTakesOneOff(t: Tables, t': Tables, org: Id, id: Id, m: Id, header: Bytes, at: Time)
    requires Approves(t, t', org, id, m, header)
    ensures Took(t, t', {id}, 1, at)
  {
    OneMessageMore(t, t', m);
    forall d | d in t.drafts && d != id
      ensures t'.drafts[d] == t.drafts[d]
    {
    }
  }

  lemma ApprovalSettles(t: Tables, t': Tables, row: DueDraft, drawn: DraftService.Drawn, now: Time, at: Time)
    requires Inv(t) && ApproveRow(t, row, drawn, now) == Success(t')
    ensures Inv(t') && Took(t, t', {row.draft}, 1, at)
  {
    ApproveShape(t, row.org, row.draft, NOTE, NOBODY, drawn, now);
    ApproveKeeps(t, t', row.org, row.draft, drawn.message, drawn.header);
    ApprovesTakesOneOff(t, t', row.org, row.draft, drawn.message, drawn.header, at);
  }

  lemma SettledOneMore(rows: seq<DueDraft>, approved: seq<bool>, n: nat)
    requires 0 < n <= |rows| == |approved|
    ensures Settled(rows, approved, n) ==
            Settled(rows, approved, n - 1) + if approved[n - 1] then {rows[n - 1].draft} else {}
    ensures Count(approved[..n]) == Count(approved[..n - 1]) + if approved[n - 1] then 1 else 0
  {
    assert approved[..n][..n - 1] == approved[..n - 1];
  }

  /** How the first n approvals of a batch change the tables. */
  lemma {:induction false} BatchTo(states: seq<Tables>, rows: seq<DueDraft>, approved: seq<bool>,
                                   drawn: nat -> DraftService.Drawn, now: Time, at: Time, n: nat)
    requires IsBatch(states, rows, approved, drawn, now) && Inv(states[0]) && n <= |rows|
    ensures Inv(states[n]) && Took(states[0], states[n], Settled(rows, approved, n), Count(approved[..n]), at)
  {
    if n > 0 {
      BatchTo(states, rows, approved, drawn, now, at, n - 1);
      assert BatchStep(states[n - 1], states[n], rows[n - 1], approved[n - 1], drawn(n - 1), now);
      SettledOneMore(rows, approved, n);
      if approved[n - 1] {
        ApprovalSettles(states[n - 1], states[n], rows[n - 1], drawn(n - 1), now, at);
        TookMore(states[0], states[n - 1], states[n], Settled(rows, approved, n - 1), {rows[n - 1].draft},
                 Count(approved[..n - 1]), at);
      }
    }
  }

  lemma {:induction false} SettledCount(rows: seq<DueDraft>, approved: seq<bool>, n: nat)
    requires n <= |rows| == |approved|
    requires forall i, j :: 0 <= i < j < |rows| ==> rows[i].draft != rows[j].draft
    ensures |Settled(rows, approved, n)| == Count(approved[..n])
  {
    if n > 0 {
      SettledCount(rows, approved, n - 1);
      SettledOneMore(rows, approved, n);
      assert rows[n - 1].draft !in Settled(rows, approved, n - 1);
    }
  }

  /**
    A run touches due pending drafts only, a hundred at most, and a draft that it changes ends as approved.
    Each approval that goes through takes its draft off the backlog and posts one message.
   */
  lemma RunApprovesDueOnly(states: seq<Tables>, rows: seq<DueDraft>, approved: seq<bool>,
                           drawn: nat -> DraftService.Drawn, now: Time)
    requires IsBatch(states, rows, approved, drawn, now) && Inv(states[0]) && Picked(states[0], now, rows)
    ensures
      var t, t' := states[0], states[|rows|];
      && Inv(t') && |rows| <= 100
      && (forall d :: d in t.drafts && d in t'.drafts && t'.drafts[d] != t.drafts[d] ==>
            d in Due(t, now) && t'.drafts[d].status == Approved)
      && Due(t', now) <= Due(t, now)
      && |Due(t', now)| == |Due(t, now)| - Count(approved)
      && |t'.messages| == |t.messages| + Count(approved)
  {
    var n := |rows|;
    BatchTo(states, rows, approved, drawn, now, now, n);
    SettledCount(rows, approved, n);
    assert approved[..n] == approved;
    var gone := Settled(rows, approved, n);
    assert gone <= Due(states[0], now);
    assert Due(states[0], now) == Due(states[n], now) + gone;
  }

  lemma {:induction false} CountAll(approved: seq<bool>)
    requires forall i :: 0 <= i < |approved| ==> approved[i]
    ensures Count(approved) == |approved|
  {
    if approved != [] {
      CountAll(approved[..|approved| - 1]);
    }
  }

  // ---- Draining ----

  datatype Batch = Batch(states: seq<Tables>, rows: seq<DueDraft>, approved: seq<bool>,
                         drawn: nat -> DraftService.Drawn)

  ghost predicate Sound(b: Batch, t: Tables, now: Time)
  {
    && IsBatch(b.states, b.rows, b.approved, b.drawn, now)
    && b.states[0] == t && Picked(t, now, b.rows)
    && forall i :: 0 <= i < |b.approved| ==> b.approved[i]
  }

  /** Consecutive runs in which every approval goes through and no further draft falls due. */
  ghost predicate Drains(tables: seq<Tables>, batches: seq<Batch>, now: Time)
  {
    && |tables| == |batches| + 1
    && forall i :: 0 <= i < |batches| ==>
        Sound(batches[i], tables[i], now) && batches[i].states[|batches[i].rows|] == tables[i + 1]
  }

  ghost function Left(n: nat, runs: nat): nat
  {
    if n <= BATCH * runs then 0 else n - BATCH * runs
  }

  /** After k runs a backlog of n has shrunk by a hundred for each, and every draft gone has its own message. */
  lemma {:induction false} BacklogShrinks(tables: seq<Tables>, batches: seq<Batch>, now: Time, k: nat)
    requires Drains(tables, batches, now) && Inv(tables[0]) && k <= |batches|
    ensures Inv(tables[k]) && |Due(tables[k], now)| == Left(|Due(tables[0], now)|, k)
    ensures |tables[k].messages| == |tables[0].messages| + |Due(tables[0], now)| - |Due(tables[k], now)|
  {
    if k > 0 {
      BacklogShrinks(tables, batches, now, k - 1);
      var b := batches[k - 1];
      assert Sound(b, tables[k - 1], now);
      RunApprovesDueOnly(b.states, b.rows, b.approved, b.drawn, now);
      CountAll(b.approved);
    }
  }

  /** A backlog of n drafts is gone after ceil(n / 100) runs, and not before, with n messages more. */
  lemma DrainedInCeilingRuns(tables: seq<Tables>, batches: seq<Batch>, now: Time)
    requires Drains(tables, batches, now) && Inv(tables[0])
    ensures
      var n, last := |Due(tables[0], now)|, tables[|batches|];
      && (Due(last, now) == {} <==> |batches| >= (n + 99) / 100)
      && (Due(last, now) == {} ==> |last.messages| == |tables[0].messages| + n)
  {
    BacklogShrinks(tables, batches, now, |batches|);
  }

  // ---- When an approval goes through, and what happens when none does ----

  /**
    Approving a due draft succeeds exactly when its inbox and thread are its organisation's and the drawn ids are new.
   */
  lemma ApprovalSucceedsIff(t: Tables, row: DueDraft, drawn: DraftService.Drawn, now: Time)
    requires Inv(t) && row.draft in t.drafts && t.drafts[row.draft].org == row.org
             && t.drafts[row.draft].status == Pending
    ensures ApproveRow(t, row, drawn, now).Success? <==>
            var d := t.drafts[row.draft];
            && d.inbox in t.inboxes && t.inboxes[d.inbox].org == row.org
            && (match d.thread
                case Some(th) => th in t.threads && t.threads[th].org == row.org
                case None => drawn.thread !in t.threads)
            && drawn.message !in t.messages
  {
  }
}
