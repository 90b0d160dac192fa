/** What every committed state of the shared tables satisfies, and why the services' transactions keep it. */
module TableInvariants {
  import opened Wrappers
  import opened Text
  import opened Database
  import opened Uploads
  import DraftStore
  import DraftService
  import MessageService
  import EmailInbound
  import OutboundStatus

  type Drawn = DraftService.Drawn

  // ---- The invariant ----

  /** The draft's thread, if it has one, is there. */
  ghost predicate DraftPlaced(d: Draft, threads: map<Id, Thread>)
  {
    d.thread.Some? ==> d.thread.value in threads
  }

  /** Every reference names an existing row. */
  ghost predicate Linked(t: Tables)
  {
    && (forall m :: m in t.messages ==> t.messages[m].thread in t.threads)
    && (forall d :: d in t.drafts && t.drafts[d].message.Some? ==> t.drafts[d].message.value in t.messages)
    && (forall d :: d in t.drafts ==> t.drafts[d].inbox in t.inboxes && DraftPlaced(t.drafts[d], t.threads))
    && (forall a :: a in t.attachments && t.attachments[a].message.Some? ==>
        t.attachments[a].message.value in t.messages)
  }

  ghost function InThread(messages: map<Id, Message>, th: Id): set<Id>
  {
    set m | m in messages && messages[m].thread == th
  }

  /** A thread counts its messages, has one at least, and knows when the last one came. */
  ghost predicate Counted(t: Tables)
  {
    forall th :: th in t.threads ==>
      && t.threads[th].messageCount == |InThread(t.messages, th)|
      && t.threads[th].messageCount >= 1
      && t.threads[th].lastMessageAt.Some?
  }

  /** A draft has a message exactly when it is approved, and no message comes from two drafts. */
  ghost predicate Reviewed(t: Tables)
  {
    && (forall d :: d in t.drafts ==>
          && (t.drafts[d].status == Approved <==> t.drafts[d].message.Some?)
          && t.drafts[d].status != ReviewSent)
    && (forall d, e :: d in t.drafts && e in t.drafts && t.drafts[d].message.Some? ==>
          t.drafts[d].message == t.drafts[e].message ==> d == e)
  }

  /** The message of an approved draft says what the draft says, and never that it is a reply. */
  ghost predicate Carries(m: Message, d: Draft)
  {
    && m.org == d.org && m.inbox == d.inbox && m.outbound
    && m.to == d.to && m.cc == d.cc && m.bcc == d.bcc && m.subject == d.subject
    && m.inReplyTo == [] && m.references == []
    && (d.thread.Some? ==> m.thread == d.thread.value)
  }

  ghost predicate Faithful(t: Tables)
  {
    forall d :: d in t.drafts && t.drafts[d].message.Some? ==>
      t.drafts[d].message.value in t.messages && Carries(t.messages[t.drafts[d].message.value], t.drafts[d])
  }

  ghost predicate HasFile(t: Tables, m: Id)
  {
    exists a :: a in t.attachments && t.attachments[a].message == Some(m)
  }

  /** An attachment belongs to a draft or to a message, not to both; approved drafts own none. */
  ghost predicate Owned(t: Tables)
  {
    && (forall a :: a in t.attachments ==> (t.attachments[a].message.Some? <==> t.attachments[a].draft.None?))
    && (forall a :: a in t.attachments && t.attachments[a].draft.Some? ==>
          var d := t.attachments[a].draft.value;
          d in t.drafts && t.drafts[d].org == t.attachments[a].org && t.drafts[d].status != Approved)
  }

  /** has_attachments holds exactly when some row points at the message. */
  ghost predicate Flagged(t: Tables)
  {
    forall m :: m in t.messages ==> (t.messages[m].hasAttachments <==> HasFile(t, m))
  }

  ghost predicate Inv(t: Tables)
  {
    Linked(t) && Counted(t) && Reviewed(t) && Faithful(t) && Owned(t) && Flagged(t)
  }

  // ---- Shapes of change ----

  /** t' is t with attachment rows added, all with the given owner; some says whether there are any. */
  ghost predicate FilesAdded(t: Tables, t': Tables, org: Id, msg: Option<Id>, draft: Option<Id>, some: bool)
  {
    && t' == t.(attachments := t'.attachments)
    && t.attachments.Keys <= t'.attachments.Keys
    && (forall a :: a in t.attachments ==> t'.attachments[a] == t.attachments[a])
    && (forall a :: a in t'.attachments && a !in t.attachments ==>
          t'.attachments[a].org == org && t'.attachments[a].message == msg && t'.attachments[a].draft == draft)
    && (some <==> exists a :: a in t'.attachments && a !in t.attachments)
  }

  /** The ids drawn for the files from the k-th up to the n-th. */
  ghost function IdsFrom(ids: nat -> Id, k: nat, n: nat): set<Id>
  {
    set i: nat | k <= i < n :: ids(i)
  }

  ghost predicate IsStored(before: map<Id, Attachment>, after: map<Id, Attachment>, id: Id, row: Attachment)
  {
    id !in before && id in after && after[id] == row
  }

  /** Every row of before is in after, unchanged. */
  ghost predicate Extends(before: map<Id, Attachment>, after: map<Id, Attachment>)
  {
    before.Keys <= after.Keys && forall a :: a in before ==> after[a] == before[a]
  }

  /** after has the ids drawn from the k-th to the n-th more than before, each of them new. */
  ghost predicate Grows(before: map<Id, Attachment>, after: map<Id, Attachment>, ids: nat -> Id, k: nat, n: nat)
    requires k <= n
  {
    after.Keys == before.Keys + IdsFrom(ids, k, n) && |after| == |before| + (n - k)
  }

  ghost predicate RowsStored(before: map<Id, Attachment>, after: map<Id, Attachment>, org: Id, msg: Option<Id>,
                             draft: Option<Id>, files: seq<File>, ids: nat -> Id, k: nat, now: Time)
    requires k <= |files|
  {
    forall i: nat :: k <= i < |files| ==> IsStored(before, after, ids(i), Attachment(org, msg, draft, files[i], now))
  }

  /** after is before with one row for each file from the k-th on, under its drawn id, and nothing else. */
  ghost predicate FilesStored(before: map<Id, Attachment>, after: map<Id, Attachment>, org: Id, msg: Option<Id>,
                              draft: Option<Id>, files: seq<File>, ids: nat -> Id, k: nat, now: Time)
    requires k <= |files|
  {
    && Extends(before, after) && Grows(before, after, ids, k, |files|)
    && RowsStored(before, after, org, msg, draft, files, ids, k, now)
  }

  lemma {:induction false} AddFilesExact(t: Tables, org: Id, msg: Option<Id>, draft: Option<Id>, files: seq<File>,
                                         ids: nat -> Id, k: nat, now: Time)
    requires k <= |files|
    requires AddFiles(t, org, msg, draft, files, ids, k, now).Success?
    ensures FilesStored(t.attachments, AddFiles(t, org, msg, draft, files, ids, k, now).value.attachments, org, msg,
                        draft, files, ids, k, now)
    decreases |files| - k
  {
    if k < |files| {
      var row := Attachment(org, msg, draft, files[k], now);
      var next := t.InsertAttachment(ids(k), row).value;
      AddFilesExact(next, org, msg, draft, files, ids, k + 1, now);
      var after := AddFiles(next, org, msg, draft, files, ids, k + 1, now).value.attachments;
      ExtendsOneMore(t.attachments, after, ids(k), row);
      GrowsOneMore(t.attachments, after, row, ids, k, |files|);
      RowsOneMore(t.attachments, after, org, msg, draft, files, ids, k, now);
    } else {
      assert IdsFrom(ids, k, |files|) == {};
    }
  }

  lemma OneMoreId(ids: nat -> Id, k: nat, n: nat)
    requires k < n
    ensures IdsFrom(ids, k, n) == {ids(k)} + IdsFrom(ids, k + 1, n)
  {
  }

  lemma StoredBefore(before: map<Id, Attachment>, next: map<Id, Attachment>, after: map<Id, Attachment>, id: Id,
                     row: Attachment)
    requires before.Keys <= next.Keys && IsStored(next, after, id, row)
    ensures IsStored(before, after, id, row)
  {
  }

  lemma GrowsOneMore(before: map<Id, Attachment>, after: map<Id, Attachment>, row: Attachment, ids: nat -> Id, k: nat,
                     n: nat)
    requires k < n && ids(k) !in before && Grows(before[ids(k) := row], after, ids, k + 1, n)
    ensures Grows(before, after, ids, k, n)
  {
    var next := before[ids(k) := row];
    assert next.Keys == before.Keys + {ids(k)};
    assert |next.Keys| == |before.Keys| + 1;
    OneMoreId(ids, k, n);
  }

  lemma RowsOneMore(before: map<Id, Attachment>, after: map<Id, Attachment>, org: Id, msg: Option<Id>,
                    draft: Option<Id>, files: seq<File>, ids: nat -> Id, k: nat, now: Time)
    requires k < |files| && ids(k) !in before
    requires Extends(before[ids(k) := Attachment(org, msg, draft, files[k], now)], after)
    requires RowsStored(before[ids(k) := Attachment(org, msg, draft, files[k], now)], after, org, msg, draft, files,
                        ids, k + 1, now)
    ensures RowsStored(before, after, org, msg, draft, files, ids, k, now)
  {
    var row := Attachment(org, msg, draft, files[k], now);
    var next := before[ids(k) := row];
    forall i: nat | k <= i < |files|
      ensures IsStored(before, after, ids(i), Attachment(org, msg, draft, files[i], now))
    {
      if i == k {
        assert ids(k) in next && next[ids(k)] == row;
      } else {
        StoredBefore(before, next, after, ids(i), Attachment(org, msg, draft, files[i], now));
      }
    }
  }

  lemma ExtendsOneMore(before: map<Id, Attachment>, after: map<Id, Attachment>, id: Id, row: Attachment)
    requires id !in before && Extends(before[id := row], after)
    ensures Extends(before, after)
  {
    forall a | a in before
      ensures a in after && after[a] == before[a]
    {
      assert a in before[id := row] && before[id := row][a] == before[a];
    }
  }

  lemma {:induction false} AddFilesOwned(t: Tables, org: Id, msg: Option<Id>, draft: Option<Id>, files: seq<File>,
                                         ids: nat -> Id, k: nat, now: Time)
    requires k <= |files|
    requires AddFiles(t, org, msg, draft, files, ids, k, now).Success?
    ensures FilesAdded(t, AddFiles(t, org, msg, draft, files, ids, k, now).value, org, msg, draft, k < |files|)
    decreases |files| - k
  {
    if k < |files| {
      var row := Attachment(org, msg, draft, files[k], now);
      var next := t.InsertAttachment(ids(k), row).value;
      AddFilesOwned(next, org, msg, draft, files, ids, k + 1, now);
      var t' := AddFiles(next, org, msg, draft, files, ids, k + 1, now).value;
      assert ids(k) in t'.attachments && ids(k) !in t.attachments;
    }
  }

  /** Inserting files adds exactly their rows, under the drawn ids and the one owner, and touches nothing else. */
  lemma AddFilesShape(t: Tables, org: Id, msg: Option<Id>, draft: Option<Id>, files: seq<File>, ids: nat -> Id, k: nat,
                      now: Time)
    requires k <= |files|
    requires AddFiles(t, org, msg, draft, files, ids, k, now).Success?
    ensures
      var t' := AddFiles(t, org, msg, draft, files, ids, k, now).value;
      && FilesAdded(t, t', org, msg, draft, k < |files|)
      && FilesStored(t.attachments, t'.attachments, org, msg, draft, files, ids, k, now)
  {
    AddFilesOwned(t, org, msg, draft, files, ids, k, now);
    AddFilesExact(t, org, msg, draft, files, ids, k, now);
  }

  /** A new message m in thread th, which is new or counts one more. */
  ghost predicate Posts(t: Tables, t': Tables, th: Id, m: Id)
  {
    && m !in t.messages && m in t'.messages && t'.messages == t.messages[m := t'.messages[m]]
    && t'.messages[m].thread == th
    && th in t'.threads && t'.threads == t.threads[th := t'.threads[th]]
    && t'.threads[th].lastMessageAt.Some?
    && t'.threads[th].messageCount == (if th in t.threads then t.threads[th].messageCount else 0) + 1
    && (th in t.threads ==> t'.threads[th].org == t.threads[th].org && t'.threads[th].inbox == t.threads[th].inbox)
  }

  lemma PostsCounts(t: Tables, t': Tables, th: Id, m: Id, x: Id)
    requires Linked(t) && Posts(t, t', th, m)
    ensures InThread(t'.messages, x) == InThread(t.messages, x) + if x == th then {m} else {}
    ensures x !in t.threads ==> InThread(t.messages, x) == {}
  {
    if x !in t.threads {
      assert forall y :: y in t.messages ==> t.messages[y].thread != x;
    }
  }

  lemma PostsKeepsCounted(t: Tables, t': Tables, th: Id, m: Id)
    requires Linked(t) && Counted(t) && Posts(t, t', th, m)
    ensures Counted(t')
    ensures forall x :: x in t'.messages ==> t'.messages[x].thread in t'.threads
  {
    forall x | x in t'.threads
      ensures
        && t'.threads[x].messageCount == |InThread(t'.messages, x)|
        && t'.threads[x].messageCount >= 1
        && t'.threads[x].lastMessageAt.Some?
    {
      PostsCounts(t, t', th, m, x);
    }
  }

  // ---- Drafts created, updated, deleted, rejected ----

  /** Creation adds the pending draft of the request and exactly its files, and nothing else. */
  lemma CreateShape(t: Tables, org: Id, req: DraftService.CreateRequest, id: Id, drawn: Drawn, now: Time,
                    valid: DraftService.AddressCheck)
    requires DraftService.CreateOutcome(t, org, req, id, drawn, now, valid).Success?
    ensures
      var t' := DraftService.CreateOutcome(t, org, req, id, drawn, now, valid).value;
      && id !in t.drafts && t' ==
          t.(drafts := t.drafts[id := DraftService.NewDraft(org, req, now)], attachments := t'.attachments)
      && Files(req.attachments, |req.attachments|).Success?
      && FilesStored(t.attachments, t'.attachments, org, None, Some(id),
                     Files(req.attachments, |req.attachments|).value, drawn.attachments, 0, now)
  {
    var files := Files(req.attachments, |req.attachments|).value;
    AddFilesShape(t.InsertDraft(id, DraftService.NewDraft(org, req, now)).value, org, None, Some(id), files,
                  drawn.attachments, 0, now);
  }

  lemma InsertKeeps(t: Tables, id: Id, row: Draft)
    requires Inv(t) && t.InsertDraft(id, row).Success? && row.status == Pending && row.message.None?
    ensures Inv(t.InsertDraft(id, row).value)
  {
    var t' := t.InsertDraft(id, row).value;
    forall m | m in t'.messages
      ensures t'.messages[m].hasAttachments <==> HasFile(t', m)
    {
      SameFiles(t, t', m);
    }
  }

  lemma CreateKeeps(t: Tables, org: Id, req: DraftService.CreateRequest, id: Id, drawn: Drawn, now: Time,
                    valid: DraftService.AddressCheck)
    requires Inv(t) && DraftService.CreateOutcome(t, org, req, id, drawn, now, valid).Success?
    ensures Inv(DraftService.CreateOutcome(t, org, req, id, drawn, now, valid).value)
  {
    var files := Files(req.attachments, |req.attachments|).value;
    var row := DraftService.NewDraft(org, req, now);
    var inserted := t.InsertDraft(id, row).value;
    InsertKeeps(t, id, row);
    AddFilesOwned(inserted, org, None, Some(id), files, drawn.attachments, 0, now);
    var t' := AddFiles(inserted, org, None, Some(id), files, drawn.attachments, 0, now).value;
    DraftFilesKeep(inserted, t', org, id, |files| > 0);
  }

  /** Adding files to a draft that is not approved. */
  lemma DraftFilesKeep(t: Tables, t': Tables, org: Id, id: Id, some: bool)
    requires Inv(t) && id in t.drafts && t.drafts[id].org == org && t.drafts[id].status != Approved
    requires FilesAdded(t, t', org, None, Some(id), some)
    ensures Inv(t')
  {
    forall m | m in t'.messages
      ensures t'.messages[m].hasAttachments <==> HasFile(t', m)
    {
      SameFiles(t, t', m);
    }
  }

  /** Messages keep their files when the rows that point at messages stay the same. */
  lemma SameFiles(t: Tables, t': Tables, m: Id)
    requires forall a :: a in t.attachments && t.attachments[a].message.Some? ==>
             a in t'.attachments && t'.attachments[a].message == t.attachments[a].message
    requires forall a :: a in t'.attachments && t'.attachments[a].message.Some? ==>
             a in t.attachments && t'.attachments[a].message == t.attachments[a].message
    ensures HasFile(t, m) <==> HasFile(t', m)
  {
    if HasFile(t, m) {
      var a :| a in t.attachments && t.attachments[a].message == Some(m);
      assert t'.attachments[a].message == Some(m);
    }
    if HasFile(t', m) {
      var a :| a in t'.attachments && t'.attachments[a].message == Some(m);
      assert t.attachments[a].message == Some(m);
    }
  }

  /** Rewriting a pending draft to one that is not approved. */
  lemma PutKeeps(t: Tables, id: Id, row: Draft)
    requires Inv(t) && id in t.drafts && t.drafts[id].status == Pending
    requires row.org == t.drafts[id].org && row.status in {Pending, Rejected} && row.message.None?
    requires row.inbox == t.drafts[id].inbox && row.thread == t.drafts[id].thread
    ensures Inv(t.PutDraft(id, row))
  {
    var t' := t.PutDraft(id, row);
    forall m | m in t'.messages
      ensures t'.messages[m].hasAttachments <==> HasFile(t', m)
    {
      SameFiles(t, t', m);
    }
  }

  lemma UpdateKeeps(t: Tables, org: Id, id: Id, req: DraftService.UpdateRequest, drawn: Drawn, now: Time,
                    valid: DraftService.AddressCheck)
    requires Inv(t) && DraftService.UpdateOutcome(t, org, id, req, drawn, now, valid).Success?
    ensures Inv(DraftService.UpdateOutcome(t, org, id, req, drawn, now, valid).value)
  {
    var row := DraftStore.Patched(t.drafts[id], DraftService.ContentPatch(req), now);
    var patched := t.PutDraft(id, row);
    PutKeeps(t, id, row);
    if req.attachments.Some? {
      var files := Files(DraftService.Given(req.attachments), |DraftService.Given(req.attachments)|).value;
      var cleared := patched.DeleteDraftAttachments(org, id);
      ClearKeeps(patched, org, id);
      AddFilesOwned(cleared, org, None, Some(id), files, drawn.attachments, 0, now);
      var t' := AddFiles(cleared, org, None, Some(id), files, drawn.attachments, 0, now).value;
      DraftFilesKeep(cleared, t', org, id, |files| > 0);
    }
  }

  /**
    An update writes the patched row; attachments that it gives replace the draft's exactly, and none given leave
    them.
   */
  lemma UpdateShape(t: Tables, org: Id, id: Id, req: DraftService.UpdateRequest, drawn: Drawn, now: Time,
                    valid: DraftService.AddressCheck)
    requires DraftService.UpdateOutcome(t, org, id, req, drawn, now, valid).Success?
    ensures
      var t' := DraftService.UpdateOutcome(t, org, id, req, drawn, now, valid).value;
      var given := DraftService.Given(req.attachments);
      && id in t.drafts && t.drafts[id].org == org && t.drafts[id].status == Pending
      && t' == t.(drafts := t.drafts[id := DraftStore.Patched(t.drafts[id], DraftService.ContentPatch(req), now)],
                  attachments := t'.attachments)
      && (req.attachments.None? ==> t'.attachments == t.attachments)
      && (req.attachments.Some? ==>
            && Files(given, |given|).Success?
            && FilesStored(t.attachments - t.DraftAttachments(org, id), t'.attachments, org, None, Some(id),
                           Files(given, |given|).value, drawn.attachments, 0, now))
  {
    var row := DraftStore.Patched(t.drafts[id], DraftService.ContentPatch(req), now);
    var patched := t.PutDraft(id, row);
    if req.attachments.Some? {
      var files := Files(DraftService.Given(req.attachments), |DraftService.Given(req.attachments)|).value;
      AddFilesShape(patched.DeleteDraftAttachments(org, id), org, None, Some(id), files, drawn.attachments, 0, now);
    }
  }

  lemma ClearKeeps(t: Tables, org: Id, id: Id)
    requires Inv(t)
    ensures Inv(t.DeleteDraftAttachments(org, id))
  {
    var t' := t.DeleteDraftAttachments(org, id);
    forall m | m in t'.messages
      ensures t'.messages[m].hasAttachments <==> HasFile(t', m)
    {
      SameFiles(t, t', m);
    }
  }

  lemma DeleteKeeps(t: Tables, org: Id, id: Id)
    requires Inv(t) && t.DeleteDraft(org, id).Success?
    ensures Inv(t.DeleteDraft(org, id).value)
  {
    var t' := t.DeleteDraft(org, id).value;
    forall m | m in t'.messages
      ensures t'.messages[m].hasAttachments <==> HasFile(t', m)
    {
      SameFiles(t, t', m);
    }
  }

  lemma RejectKeeps(t: Tables, org: Id, id: Id, reason: Bytes, reviewer: Id, now: Time)
    requires Inv(t) && DraftService.RejectOutcome(t, org, id, reason, reviewer, now).Success?
    ensures Inv(DraftService.RejectOutcome(t, org, id, reason, reviewer, now).value)
  {
    PutKeeps(t, id, DraftStore.Patched(t.drafts[id], DraftService.RejectPatch(reason, reviewer, now), now));
  }

  // ---- Approval ----

  /** What a committed approval changes, told without the steps that lead there. */
  ghost predicate Approves(t: Tables, t': Tables, org: Id, id: Id, m: Id, header: Bytes)
  {
    && id in t.drafts && t.drafts[id].org == org && t.drafts[id].status == Pending
    && id in t'.drafts && t'.drafts == t.drafts[id := t'.drafts[id]]
    && t'.drafts[id] == t.drafts[id].(status := Approved, message := Some(m), note := t'.drafts[id].note,
                                      reviewedAt := t'.drafts[id].reviewedAt, reviewedBy := t'.drafts[id].reviewedBy,
                                      updatedAt := t'.drafts[id].updatedAt)
    && m in t'.messages && Posts(t, t', t'.messages[m].thread, m)
    && Carries(t'.messages[m], t.drafts[id]) && t'.messages[m].header == header && t'.messages[m].status == Sending
    && (t'.messages[m].hasAttachments <==> t.DraftAttachments(org, id) != {})
    && t'.attachments == Relinked(t, id, m)
    && t'.inboxes == t.inboxes
  }

  lemma ThreadOpens(t: Tables, org: Id, d: Draft, inbox: Inbox, drawn: Drawn, now: Time)
    requires DraftService.OpenThread(t, org, d, inbox, drawn, now).Success?
    ensures Opens(t, DraftService.OpenThread(t, org, d, inbox, drawn, now).value, DraftService.ThreadOf(d, drawn))
  {
  }

  /** The attachments after an approval: the draft's rows belong to the message, all else about them stays. */
  ghost function Relinked(t: Tables, id: Id, m: Id): map<Id, Attachment>
  {
    map a | a in t.attachments ::
      if t.attachments[a].draft == Some(id) then t.attachments[a].(message := Some(m), draft := None)
          else t.attachments[a]
  }

  /** Without a listed attachment there is nothing to link: the draft's rows are its organisation's. */
  lemma NothingToLink(t: Tables, org: Id, id: Id, m: Id)
    requires Owned(t) && id in t.drafts && t.drafts[id].org == org && t.DraftAttachments(org, id) == {}
    ensures Relinked(t, id, m) == t.attachments
  {
    forall a | a in t.attachments
      ensures t.attachments[a].draft != Some(id)
    {
      assert a !in t.DraftAttachments(org, id);
    }
  }

  /** The message, its attachments and its count, before the draft is marked. */
  lemma ApprovedMessage(t: Tables, started: Tables, org: Id, id: Id, thread: Id, m: Id, msg: Message, now: Time,
                        text: Bytes)
    requires Inv(t) && Opens(t, started, thread) && id in t.drafts && t.drafts[id].org == org
    requires msg.thread == thread && started.InsertMessage(m, msg).Success?
    ensures
      var created := started.InsertMessage(m, msg).value;
      var has := started.DraftAttachments(org, id) != {};
      var linked := if has then created.LinkDraftAttachments(id, m).value else created;
      var bumped := linked.BumpThread(thread, now, text);
      && (has <==> t.DraftAttachments(org, id) != {})
      && Posts(t, bumped, thread, m) && bumped.messages[m] == msg && bumped.drafts == t.drafts
      && bumped.inboxes == t.inboxes
      && bumped.attachments == Relinked(t, id, m)
  {
    var created := started.InsertMessage(m, msg).value;
    assert started.DraftAttachments(org, id) == t.DraftAttachments(org, id);
    var has := started.DraftAttachments(org, id) != {};
    if !has {
      NothingToLink(t, org, id, m);
    }
    var linked := if has then created.LinkDraftAttachments(id, m).value else created;
    IngestEnd(t, started, linked, thread, m, now, text, None);
  }

  lemma ApproveShape(t: Tables, org: Id, id: Id, note: Bytes, reviewer: Id, drawn: Drawn, now: Time)
    requires Inv(t) && DraftService.ApproveOutcome(t, org, id, note, reviewer, drawn, now).Success?
    ensures Approves(t, DraftService.ApproveOutcome(t, org, id, note, reviewer, drawn, now).value, org, id,
                     drawn.message, drawn.header)
  {
    var row := t.drafts[id];
    var inbox := t.GetInbox(org, row.inbox).value;
    var started := DraftService.OpenThread(t, org, row, inbox, drawn, now).value;
    var thread := DraftService.ThreadOf(row, drawn);
    var has := started.DraftAttachments(org, id) != {};
    var msg := DraftService.ApprovalMessage(org, row, [], inbox, thread, drawn.header, has, now);
    ThreadOpens(t, org, row, inbox, drawn, now);
    ApprovedMessage(t, started, org, id, thread, drawn.message, msg, now, DraftService.SnippetFrom(row.textBody));
  }

  lemma ApproveKeeps(t: Tables, t': Tables, org: Id, id: Id, m: Id, header: Bytes)
    requires Inv(t) && Approves(t, t', org, id, m, header)
    ensures Inv(t')
  {
    PostsKeepsCounted(t, t', t'.messages[m].thread, m);
    assert Reviewed(t');
    assert Faithful(t');
    assert Owned(t');
    forall x | x in t'.messages
      ensures t'.messages[x].hasAttachments <==> HasFile(t', x)
    {
      ApproveFlags(t, t', org, id, m, header, x);
    }
  }

  lemma Inhabited(s: set<Id>)
    ensures s == {} || exists a :: a in s
  {
    if forall a :: a !in s {
      assert s == {};
    }
  }

  lemma ApproveFlags(t: Tables, t': Tables, org: Id, id: Id, m: Id, header: Bytes, x: Id)
    requires Inv(t) && Approves(t, t', org, id, m, header) && x in t'.messages
    ensures t'.messages[x].hasAttachments <==> HasFile(t', x)
  {
    if x == m {
      var files := t.DraftAttachments(org, id);
      if files != {} {
        Inhabited(files);
        var a :| a in files;
        assert t'.attachments[a].message == Some(m);
      }
      if HasFile(t', m) {
        var a :| a in t'.attachments && t'.attachments[a].message == Some(m);
        assert t.attachments[a].message != Some(m);
        assert a in t.DraftAttachments(org, id);
      }
    } else {
      if HasFile(t, x) {
        var a :| a in t.attachments && t.attachments[a].message == Some(x);
        assert t'.attachments[a].message == Some(x);
      }
      if HasFile(t', x) {
        var a :| a in t'.attachments && t'.attachments[a].message == Some(x);
        assert t.attachments[a].message == Some(x);
      }
    }
  }

  // ---- Messages sent and received ----

  /** A message posted with its files, drafts untouched. */
  ghost predicate Delivers(t: Tables, t': Tables, m: Id)
  {
    && m in t'.messages && Posts(t, t', t'.messages[m].thread, m)
    && t'.drafts == t.drafts && t'.inboxes == t.inboxes
    && t.attachments.Keys <= t'.attachments.Keys
    && (forall a :: a in t.attachments ==> t'.attachments[a] == t.attachments[a])
    && (forall a :: a in t'.attachments && a !in t.attachments ==>
        t'.attachments[a].message == Some(m) && t'.attachments[a].draft == None)
    && (t'.messages[m].hasAttachments <==> exists a :: a in t'.attachments && a !in t.attachments)
  }

  lemma DeliverFlags(t: Tables, t': Tables, m: Id, x: Id)
    requires Inv(t) && Delivers(t, t', m) && x in t'.messages
    ensures t'.messages[x].hasAttachments <==> HasFile(t', x)
  {
    if HasFile(t', x) {
      var a :| a in t'.attachments && t'.attachments[a].message == Some(x);
      assert x == m ==> a !in t.attachments;
      assert x != m ==> t.attachments[a].message == Some(x);
    }
    if x == m && t'.messages[m].hasAttachments {
      var a :| a in t'.attachments && a !in t.attachments;
      assert t'.attachments[a].message == Some(m);
    }
    if x != m && HasFile(t, x) {
      var a :| a in t.attachments && t.attachments[a].message == Some(x);
      assert t'.attachments[a].message == Some(x);
    }
  }

  lemma DeliverKeeps(t: Tables, t': Tables, m: Id)
    requires Inv(t) && Delivers(t, t', m)
    ensures Inv(t')
  {
    PostsKeepsCounted(t, t', t'.messages[m].thread, m);
    forall x | x in t'.messages
      ensures t'.messages[x].hasAttachments <==> HasFile(t', x)
    {
      DeliverFlags(t, t', m, x);
    }
  }

  /** Counting the message and merging participants touch the thread's row only. */
  lemma IngestEnd(t: Tables, started: Tables, attached: Tables, thread: Id, m: Id, now: Time, text: Bytes,
                  people: Option<seq<Address>>)
    requires started == t.(threads := started.threads) && thread in started.threads
    requires started.threads == t.threads
             || (thread !in t.threads && started.threads == t.threads[thread := started.threads[thread]]
                 && started.threads[thread].messageCount == 0)
    requires m !in t.messages
             && attached == started.(messages := attached.messages, attachments := attached.attachments)
    requires m in attached.messages && attached.messages == t.messages[m := attached.messages[m]]
             && attached.messages[m].thread == thread
    ensures
      var bumped := attached.BumpThread(thread, now, text);
      var t' := if people.None? then bumped else EmailInbound.MergeParticipants(bumped, thread, people.value);
      Posts(t, t', thread, m) && t'.drafts == t.drafts && t'.inboxes == t.inboxes
      && t'.attachments == attached.attachments
      && t'.messages == attached.messages
  {
    var bumped := attached.BumpThread(thread, now, text);
    var t' := if people.None? then bumped else EmailInbound.MergeParticipants(bumped, thread, people.value);
    assert t'.threads == t.threads[thread := t'.threads[thread]];
  }

  /** The thread a message is placed in is there, or new and empty; nothing else has changed. */
  ghost predicate Opens(t: Tables, started: Tables, thread: Id)
  {
    && started == t.(threads := started.threads) && thread in started.threads
    && (started.threads == t.threads
        || (thread !in t.threads && started.threads == t.threads[thread := started.threads[thread]]
            && started.threads[thread].messageCount == 0))
  }

  lemma PlaceOpens(t: Tables, org: Id, inbox: Id, row: Inbox, req: MessageService.SendRequest, drawn: Drawn, now: Time)
    requires Inv(t) && MessageService.Place(t, org, inbox, row, req, drawn, now).Success?
    ensures
      var place := MessageService.Place(t, org, inbox, row, req, drawn, now).value;
      Opens(t, place.tables, place.thread)
  {
  }

  /** A message and its files in an opened thread, and then the count. */
  lemma StoreAndCount(t: Tables, started: Tables, thread: Id, m: Id, msg: Message, files: seq<File>, ids: nat -> Id,
                      now: Time, text: Bytes, people: Option<seq<Address>>)
    requires Inv(t) && Opens(t, started, thread) && m !in t.messages && msg.thread == thread
             && (msg.hasAttachments <==> files != [])
    requires started.InsertMessage(m, msg).Success?
    requires AddFiles(started.InsertMessage(m, msg).value, msg.org, Some(m), None, files, ids, 0, now).Success?
    ensures
      var attached := AddFiles(started.InsertMessage(m, msg).value, msg.org, Some(m), None, files, ids, 0, now).value;
      var bumped := attached.BumpThread(thread, now, text);
      var t' := if people.None? then bumped else EmailInbound.MergeParticipants(bumped, thread, people.value);
      && Delivers(t, t', m) && t'.messages[m] == msg
      && FilesStored(t.attachments, t'.attachments, msg.org, Some(m), None, files, ids, 0, now)
  {
    var created := started.InsertMessage(m, msg).value;
    var attached := AddFiles(created, msg.org, Some(m), None, files, ids, 0, now).value;
    AddFilesOwned(created, msg.org, Some(m), None, files, ids, 0, now);
    IngestEnd(t, started, attached, thread, m, now, text, people);
    AddFilesExact(created, msg.org, Some(m), None, files, ids, 0, now);
  }

  /** A send posts one message with exactly its files, in its parent's thread or a new one. */
  lemma SendShape(t: Tables, org: Id, inbox: Id, req: MessageService.SendRequest, files: seq<File>, drawn: Drawn,
                  now: Time)
    requires Inv(t) && MessageService.SendTxOutcome(t, org, inbox, req, files, drawn, now).Success?
    ensures
      var t' := MessageService.SendTxOutcome(t, org, inbox, req, files, drawn, now).value;
      var place := MessageService.Place(t, org, inbox, t.GetInbox(org, inbox).value, req, drawn, now).value;
      && Delivers(t, t', drawn.message)
      && t'.messages[drawn.message] ==
         MessageService.OutboundMessage(org, inbox, t.inboxes[inbox], req, place.thread, place.inReplyTo,
                                        place.references,
                                        drawn.header, files != [], now)
      && FilesStored(t.attachments, t'.attachments, org, Some(drawn.message), None, files, drawn.attachments, 0, now)
  {
    var row := t.GetInbox(org, inbox).value;
    var place := MessageService.Place(t, org, inbox, row, req, drawn, now).value;
    var msg := MessageService.OutboundMessage(org, inbox, row, req, place.thread, place.inReplyTo, place.references,
                                              drawn.header, files != [], now);
    PlaceOpens(t, org, inbox, row, req, drawn, now);
    StoreAndCount(t, place.tables, place.thread, drawn.message, msg, files, drawn.attachments, now,
                  DraftService.SnippetFrom(req.bodyText), None);
  }

  /** The same without the files one by one. */
  lemma SendDelivers(t: Tables, org: Id, inbox: Id, req: MessageService.SendRequest, files: seq<File>, drawn: Drawn,
                     now: Time)
    requires Inv(t) && MessageService.SendTxOutcome(t, org, inbox, req, files, drawn, now).Success?
    ensures
      var t' := MessageService.SendTxOutcome(t, org, inbox, req, files, drawn, now).value;
      var place := MessageService.Place(t, org, inbox, t.GetInbox(org, inbox).value, req, drawn, now).value;
      && Delivers(t, t', drawn.message)
      && t'.messages[drawn.message] ==
         MessageService.OutboundMessage(org, inbox, t.inboxes[inbox], req, place.thread, place.inReplyTo,
                                        place.references,
                                        drawn.header, files != [], now)
  {
    SendShape(t, org, inbox, req, files, drawn, now);
  }

  lemma JoinOpens(t: Tables, inbox: Id, mail: EmailInbound.Mail, match': Id, drawn: Drawn, now: Time)
    requires Inv(t) && inbox in t.inboxes && EmailInbound.JoinThread(t, inbox, mail, match', drawn, now).Success?
    ensures
      var joined := EmailInbound.JoinThread(t, inbox, mail, match', drawn, now).value;
      Opens(t, joined.0, joined.1)
  {
  }

  /** Ingest posts one message with exactly its files, in the joined or the new thread. */
  lemma IngestShape(t: Tables, inbox: Id, mail: EmailInbound.Mail, files: seq<File>, match': Id, drawn: Drawn,
                    now: Time)
    requires Inv(t) && inbox in t.inboxes
    requires EmailInbound.IngestTxOutcome(t, inbox, mail, files, match', drawn, now).Success?
    ensures
      var org := t.inboxes[inbox].org;
      var t' := EmailInbound.IngestTxOutcome(t, inbox, mail, files, match', drawn, now).value;
      var thread := EmailInbound.JoinThread(t, inbox, mail, match', drawn, now).value.1;
      && Delivers(t, t', drawn.message)
      && t'.messages[drawn.message] == EmailInbound.InboundMessage(org, inbox, mail, thread, files != [], now)
      && FilesStored(t.attachments, t'.attachments, org, Some(drawn.message), None, files, drawn.attachments, 0, now)
  {
    var org := t.inboxes[inbox].org;
    var opened' := EmailInbound.Matches(t, org, inbox, EmailInbound.LookupIds(mail)) == {};
    var (started, thread) := EmailInbound.JoinThread(t, inbox, mail, match', drawn, now).value;
    JoinOpens(t, inbox, mail, match', drawn, now);
    StoreAndCount(t, started, thread, drawn.message,
                  EmailInbound.InboundMessage(org, inbox, mail, thread, files != [], now),
                  files, drawn.attachments, now, mail.snippet,
                  if opened' then None else Some(EmailInbound.BuildParticipants(mail)));
  }

  /** The same without the files one by one. */
  lemma IngestDelivers(t: Tables, inbox: Id, mail: EmailInbound.Mail, files: seq<File>, match': Id, drawn: Drawn,
                       now: Time)
    requires Inv(t) && inbox in t.inboxes
    requires EmailInbound.IngestTxOutcome(t, inbox, mail, files, match', drawn, now).Success?
    ensures
      var t' := EmailInbound.IngestTxOutcome(t, inbox, mail, files, match', drawn, now).value;
      var thread := EmailInbound.JoinThread(t, inbox, mail, match', drawn, now).value.1;
      && Delivers(t, t', drawn.message)
      && t'.messages[drawn.message] ==
          EmailInbound.InboundMessage(t.inboxes[inbox].org, inbox, mail, thread, files != [], now)
  {
    IngestShape(t, inbox, mail, files, match', drawn, now);
  }

  // ---- Status updates ----

  /** Messages may change status and sent_at; nothing else moves. */
  ghost predicate OnlyStatuses(t: Tables, t': Tables)
  {
    && t' == t.(messages := t'.messages)
    && t'.messages.Keys == t.messages.Keys
    && forall m :: m in t.messages ==>
        t'.messages[m] == t.messages[m].(status := t'.messages[m].status, sentAt := t'.messages[m].sentAt)
  }

  lemma StatusKeepsCounted(t: Tables, t': Tables)
    requires Linked(t) && Counted(t) && OnlyStatuses(t, t')
    ensures Linked(t') && Counted(t')
  {
    forall th | th in t'.threads
      ensures InThread(t'.messages, th) == InThread(t.messages, th)
    {
      assert forall m :: m in t.messages ==> (m in InThread(t'.messages, th) <==> m in InThread(t.messages, th));
    }
  }

  lemma StatusKeepsFaithful(t: Tables, t': Tables)
    requires Faithful(t) && OnlyStatuses(t, t')
    ensures Faithful(t')
  {
    forall d | d in t'.drafts && t'.drafts[d].message.Some?
      ensures t'.drafts[d].message.value in t'.messages
              && Carries(t'.messages[t'.drafts[d].message.value], t'.drafts[d])
    {
      var m := t.drafts[d].message.value;
      assert Carries(t.messages[m], t.drafts[d]);
      assert t'.messages[m] == t.messages[m].(status := t'.messages[m].status, sentAt := t'.messages[m].sentAt);
    }
  }

  lemma StatusKeeps(t: Tables, t': Tables)
    requires Inv(t) && OnlyStatuses(t, t')
    ensures Inv(t')
  {
    StatusKeepsCounted(t, t');
    StatusKeepsFaithful(t, t');
    forall m | m in t'.messages
      ensures t'.messages[m].hasAttachments <==> HasFile(t', m)
    {
      SameFiles(t, t', m);
    }
  }
}
