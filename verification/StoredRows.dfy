/** What each operation leaves in the tables, told column by column. */
module StoredRows {
  import opened Wrappers
  import opened Text
  import opened Database
  import opened TableInvariants
  import opened MimeTypes
  import opened Uploads
  import DraftService
  import DraftStore
  import EmailInbound
  import MessageService
  import Recipients

  const EMPTY_METADATA: Bytes := "{}"

  function MetadataOf(given: Option<Bytes>): Bytes
  {
    match given
    case Some(m) => m
    case None => EMPTY_METADATA
  }

  // ---- People and snippets ----

  ghost predicate Has(people: seq<Address>, email: Bytes)
  {
    exists a :: a in people && a.email == email
  }

  /** Every non-empty email of everyone is there once, with an entry of everyone, and no other is. */
  ghost predicate EachOnce(people: seq<Address>, everyone: seq<Address>)
  {
    && (forall a :: a in people ==> a in everyone && a.email != [])
    && (forall i, j :: 0 <= i < j < |people| ==> people[i].email != people[j].email)
    && (forall a :: a in everyone && a.email != [] ==> Has(people, a.email))
  }

  lemma ParticipantsOnce(everyone: seq<Address>)
    ensures EachOnce(Recipients.Participants(everyone), everyone)
  {
    Recipients.KeptOnce(everyone, Recipients.Exactly, {});
    var people := Recipients.Participants(everyone);
    forall i, j | 0 <= i < j < |people|
      ensures people[i].email != people[j].email
    {
      assert Recipients.Exactly(people[i].email) != Recipients.Exactly(people[j].email);
    }
    forall a | a in everyone && a.email != []
      ensures Has(people, a.email)
    {
      assert Recipients.Exactly(a.email) !in {};
      var b :| b in people && Recipients.Exactly(b.email) == Recipients.Exactly(a.email);
    }
  }

  /** The first two hundred bytes. */
  ghost predicate Snips(snippet: Bytes, body: Bytes)
  {
    snippet <= body && |snippet| == if |body| < 200 then |body| else 200
  }

  lemma SnippetSnips(body: Bytes)
    ensures Snips(DraftService.SnippetFrom(body), body)
  {
  }

  // ---- Threads ----

  /** A thread that was opened for a message: read or not, open, and with the message counted. */
  ghost predicate Opened(th: Thread, org: Id, inbox: Id, subject: Bytes, isRead: bool, everyone: seq<Address>,
                         now: Time)
  {
    && th.org == org && th.inbox == inbox && th.subject == subject && th.status == Open
    && th.isRead == isRead && !th.isStarred && th.messageCount == 1 && th.createdAt == now
    && EachOnce(th.participants, everyone)
  }

  /** The thread shows its latest message, and otherwise is as it was, except perhaps for participants. */
  ghost predicate Bumped(before: Thread, after: Thread)
  {
    after == before.(messageCount := before.messageCount + 1, lastMessageAt := after.lastMessageAt,
                     snippet := after.snippet, participants := after.participants)
  }

  /** The threads after a message is counted in th. */
  ghost predicate CountsIn(started: map<Id, Thread>, after: map<Id, Thread>, th: Id, now: Time, snippet: Bytes)
  {
    && th in started
    && after == started[th := started[th].(messageCount := started[th].messageCount + 1, lastMessageAt := Some(now),
                                           snippet := snippet)]
  }

  // ---- Rejection, deletion ----

  /**
    Rejecting succeeds exactly for a pending draft of the organisation, and marks it as rejected, with reason and
    reviewer.
   */
  lemma RejectStores(t: Tables, org: Id, id: Id, reason: Bytes, reviewer: Id, now: Time)
    ensures DraftService.RejectOutcome(t, org, id, reason, reviewer, now) ==
            if id !in t.drafts || t.drafts[id].org != org then Failure(NotFound)
            else if t.drafts[id].status != Pending then Failure(InvalidReviewStatus)
            else
              var d := t.drafts[id];
              Success(t.(drafts := t.drafts[id := d.(status := Rejected, note := reason, reviewedAt := Some(now),
                                                     reviewedBy := Some(reviewer), updatedAt := now)]))
  {
  }

  /** Deleting takes away the organisation's draft and the attachments that were its own, and nothing else. */
  lemma DeleteStores(t: Tables, org: Id, id: Id)
    ensures t.DeleteDraft(org, id).Success? <==> id in t.drafts && t.drafts[id].org == org
    ensures t.DeleteDraft(org, id).Success? ==>
              var t' := t.DeleteDraft(org, id).value;
              && t' == t.(drafts := t.drafts - {id}, attachments := t'.attachments)
              && (forall a :: a in t'.attachments <==> a in t.attachments && t.attachments[a].draft != Some(id))
              && (forall a :: a in t'.attachments ==> t'.attachments[a] == t.attachments[a])
  {
  }

  // ---- Creation and update ----

  /** A draft as it was asked for: pending, unreviewed, and without a message. */
  ghost predicate Asked(d: Draft, org: Id, req: DraftService.CreateRequest, now: Time)
  {
    && d.org == org && d.inbox == req.inbox && d.thread == req.thread && d.subject == req.subject
    && d.to == req.to && d.cc == req.cc && d.bcc == req.bcc && d.textBody == req.textBody && d.htmlBody == req.htmlBody
    && d.scheduledAt == req.scheduledAt && d.metadata == MetadataOf(req.metadata)
    && d.status == Pending && d.note == [] && d.reviewedAt.None? && d.reviewedBy.None? && d.message.None?
    && d.createdAt == now && d.updatedAt == now
  }

  ghost predicate AllValid(addrs: seq<Address>, valid: DraftService.AddressCheck)
  {
    forall a :: a in addrs ==> a.email != [] && valid(a.email)
  }

  /** Creation demands recipients and valid addresses, and stores the draft as it was asked for. */
  lemma CreateStores(t: Tables, org: Id, req: DraftService.CreateRequest, id: Id, drawn: Drawn, now: Time,
                     valid: DraftService.AddressCheck)
    requires DraftService.CreateOutcome(t, org, req, id, drawn, now, valid).Success?
    ensures
      var t' := DraftService.CreateOutcome(t, org, req, id, drawn, now, valid).value;
      && req.to != [] && AllValid(req.to, valid) && AllValid(req.cc, valid) && AllValid(req.bcc, valid)
      && id !in t.drafts && id in t'.drafts && Asked(t'.drafts[id], org, req, now)
      && t'.drafts == t.drafts[id := t'.drafts[id]]
      && t'.inboxes == t.inboxes && t'.threads == t.threads && t'.messages == t.messages
  {
    CreateShape(t, org, req, id, drawn, now, valid);
  }

  function Kept<T>(given: Option<T>, before: T): T
  {
    match given
    case Some(v) => v
    case None => before
  }

  predicate NothingGiven(req: DraftService.UpdateRequest)
  {
    && req.subject.None? && req.to.None? && req.cc.None? && req.bcc.None? && req.textBody.None? && req.htmlBody.None?
    && req.scheduledAt.None? && req.metadata.None?
  }

  /** A draft after an update: what is given replaces what was there, and no decision is touched. */
  ghost predicate Edited(before: Draft, after: Draft, req: DraftService.UpdateRequest, now: Time)
  {
    && after.subject == Kept(req.subject, before.subject)
    && after.to == Kept(req.to, before.to) && after.cc == Kept(req.cc, before.cc)
    && after.bcc == Kept(req.bcc, before.bcc)
    && after.textBody == Kept(req.textBody, before.textBody) && after.htmlBody == Kept(req.htmlBody, before.htmlBody)
    && after.scheduledAt == (if req.scheduledAt.Some? then req.scheduledAt else before.scheduledAt)
    && after.metadata == Kept(req.metadata, before.metadata)
    && after.org == before.org && after.inbox == before.inbox && after.thread == before.thread
    && after.status == before.status && after.note == before.note && after.reviewedAt == before.reviewedAt
    && after.reviewedBy == before.reviewedBy && after.message == before.message && after.createdAt == before.createdAt
    && after.updatedAt == if NothingGiven(req) then before.updatedAt else now
  }

  /** An update edits a pending draft of the organisation, and no other draft. */
  lemma UpdateStores(t: Tables, org: Id, id: Id, req: DraftService.UpdateRequest, drawn: Drawn, now: Time,
                     valid: DraftService.AddressCheck)
    requires DraftService.UpdateOutcome(t, org, id, req, drawn, now, valid).Success?
    ensures
      var t' := DraftService.UpdateOutcome(t, org, id, req, drawn, now, valid).value;
      && (req.to.Some? ==> AllValid(req.to.value, valid))
      && (req.cc.Some? ==> AllValid(req.cc.value, valid))
      && (req.bcc.Some? ==> AllValid(req.bcc.value, valid))
      && id in t.drafts && t.drafts[id].org == org && t.drafts[id].status == Pending
      && id in t'.drafts && Edited(t.drafts[id], t'.drafts[id], req, now) && t'.drafts == t.drafts[id := t'.drafts[id]]
  {
    UpdateShape(t, org, id, req, drawn, now, valid);
  }

  // ---- Approval ----

  /** The message of an approval, besides what Carries says of it. */
  ghost predicate ApprovedFrom(m: Message, inbox: Inbox, d: Draft, now: Time)
  {
    && m.from == Address(inbox.email, inbox.displayName) && m.metadata == d.metadata
    && m.sentAt == Some(now) && m.createdAt == now && m.status == Sending
  }

  /** The rows of a draft, its message and their thread before and after an approval. */
  ghost predicate ApprovesRows(t: Tables, t': Tables, org: Id, id: Id, note: Bytes, reviewer: Id, drawn: Drawn,
                               now: Time)
  {
    && id in t.drafts && t.drafts[id].org == org && t.drafts[id].status == Pending
    && t.drafts[id].inbox in t.inboxes && t.inboxes[t.drafts[id].inbox].org == org
    && t'.drafts == t.drafts[id := t.drafts[id].(status := Approved, note := note, reviewedAt := Some(now),
                                                 reviewedBy := Some(reviewer), message := Some(drawn.message),
                                                 updatedAt := now)]
    && drawn.message !in t.messages && drawn.message in t'.messages
    && ApprovedFrom(t'.messages[drawn.message], t.inboxes[t.drafts[id].inbox], t.drafts[id], now)
  }

  lemma ApprovalPatched(d: Draft, note: Bytes, reviewer: Id, m: Id, now: Time)
    ensures DraftStore.Patched(d, DraftService.ApprovalPatch(note, reviewer, m, now), now) ==
            d.(status := Approved, note := note, reviewedAt := Some(now), reviewedBy := Some(reviewer),
               message := Some(m), updatedAt := now)
  {
  }

  lemma ApproveMarks(t: Tables, org: Id, id: Id, note: Bytes, reviewer: Id, drawn: Drawn, now: Time)
    requires DraftService.ApproveOutcome(t, org, id, note, reviewer, drawn, now).Success?
    ensures
      var t' := DraftService.ApproveOutcome(t, org, id, note, reviewer, drawn, now).value;
      && id in t.drafts && t.drafts[id].org == org && t.drafts[id].status == Pending
      && t'.drafts == t.drafts[id := t.drafts[id].(status := Approved, note := note, reviewedAt := Some(now),
                                                   reviewedBy := Some(reviewer), message := Some(drawn.message),
                                                   updatedAt := now)]
  {
    ApprovalPatched(t.GetDraft(org, id).value, note, reviewer, drawn.message, now);
  }

  lemma ApprovePosts(t: Tables, org: Id, id: Id, note: Bytes, reviewer: Id, drawn: Drawn, now: Time)
    requires DraftService.ApproveOutcome(t, org, id, note, reviewer, drawn, now).Success?
    ensures
      var t' := DraftService.ApproveOutcome(t, org, id, note, reviewer, drawn, now).value;
      && id in t.drafts && t.drafts[id].inbox in t.inboxes && t.inboxes[t.drafts[id].inbox].org == org
      && drawn.message !in t.messages && drawn.message in t'.messages
      && ApprovedFrom(t'.messages[drawn.message], t.inboxes[t.drafts[id].inbox], t.drafts[id], now)
  {
  }

  /** An approval marks the draft with its decision and message; the message comes from the draft's inbox. */
  lemma ApproveStores(t: Tables, org: Id, id: Id, note: Bytes, reviewer: Id, drawn: Drawn, now: Time)
    requires Inv(t) && DraftService.ApproveOutcome(t, org, id, note, reviewer, drawn, now).Success?
    ensures
      var t' := DraftService.ApproveOutcome(t, org, id, note, reviewer, drawn, now).value;
      && ApprovesRows(t, t', org, id, note, reviewer, drawn, now)
      && Carries(t'.messages[drawn.message], t.drafts[id])
  {
    ApproveMarks(t, org, id, note, reviewer, drawn, now);
    ApprovePosts(t, org, id, note, reviewer, drawn, now);
    ApproveShape(t, org, id, note, reviewer, drawn, now);
  }

  lemma ApproveCounts(t: Tables, org: Id, id: Id, note: Bytes, reviewer: Id, drawn: Drawn, now: Time)
    requires DraftService.ApproveOutcome(t, org, id, note, reviewer, drawn, now).Success?
    ensures
      var t' := DraftService.ApproveOutcome(t, org, id, note, reviewer, drawn, now).value;
      && id in t.drafts && t.drafts[id].inbox in t.inboxes
      && var d, inbox := t.drafts[id], t.inboxes[t.drafts[id].inbox];
         && DraftService.OpenThread(t, org, d, inbox, drawn, now).Success?
         && CountsIn(DraftService.OpenThread(t, org, d, inbox, drawn, now).value.threads, t'.threads,
                     DraftService.ThreadOf(d, drawn), now, DraftService.SnippetFrom(d.textBody))
  {
  }

  /** What is in the thread before the message is counted. */
  lemma OpenedFor(t: Tables, org: Id, d: Draft, inbox: Inbox, drawn: Drawn, now: Time)
    requires DraftService.OpenThread(t, org, d, inbox, drawn, now).Success?
    ensures
      var started := DraftService.OpenThread(t, org, d, inbox, drawn, now).value.threads;
      && (d.thread.Some? ==>
          d.thread.value in t.threads && t.threads[d.thread.value].org == org && started == t.threads)
      && (d.thread.None? ==>
            && drawn.thread !in t.threads && drawn.thread in started
            && started == t.threads[drawn.thread := started[drawn.thread]]
            && var opened' := started[drawn.thread];
               Opened(opened'.(messageCount := opened'.messageCount + 1), org, d.inbox, d.subject, true,
                      [Address(inbox.email, inbox.displayName)] + d.to + d.cc, now))
  {
    ParticipantsOnce([Address(inbox.email, inbox.displayName)] + d.to + d.cc);
  }

  /** The thread of an approved message: the draft's own, or one opened for it; it shows the message. */
  ghost predicate ShowsApproved(t: Tables, t': Tables, org: Id, d: Draft, inbox: Inbox, drawn: Drawn, now: Time)
  {
    var th := if d.thread.Some? then d.thread.value else drawn.thread;
    && th in t'.threads && t'.threads[th].lastMessageAt == Some(now) && Snips(t'.threads[th].snippet, d.textBody)
    && t'.threads == t.threads[th := t'.threads[th]]
    && (d.thread.Some? ==>
          && th in t.threads && t.threads[th].org == org && Bumped(t.threads[th], t'.threads[th])
          && t'.threads[th].participants == t.threads[th].participants)
    && (d.thread.None? ==>
          && th !in t.threads
          && Opened(t'.threads[th], org, d.inbox, d.subject, true,
                    [Address(inbox.email, inbox.displayName)] + d.to + d.cc, now))
  }

  lemma CountedShows(t: Tables, t': Tables, org: Id, d: Draft, inbox: Inbox, drawn: Drawn, now: Time)
    requires DraftService.OpenThread(t, org, d, inbox, drawn, now).Success?
    requires CountsIn(DraftService.OpenThread(t, org, d, inbox, drawn, now).value.threads, t'.threads,
                      DraftService.ThreadOf(d, drawn), now, DraftService.SnippetFrom(d.textBody))
    ensures ShowsApproved(t, t', org, d, inbox, drawn, now)
  {
    OpenedFor(t, org, d, inbox, drawn, now);
    SnippetSnips(d.textBody);
  }

  lemma ApproveThread(t: Tables, org: Id, id: Id, note: Bytes, reviewer: Id, drawn: Drawn, now: Time)
    requires DraftService.ApproveOutcome(t, org, id, note, reviewer, drawn, now).Success?
    ensures
      var t' := DraftService.ApproveOutcome(t, org, id, note, reviewer, drawn, now).value;
      && id in t.drafts && t.drafts[id].inbox in t.inboxes
      && ShowsApproved(t, t', org, t.drafts[id], t.inboxes[t.drafts[id].inbox], drawn, now)
  {
    ApproveCounts(t, org, id, note, reviewer, drawn, now);
    CountedShows(t, DraftService.ApproveOutcome(t, org, id, note, reviewer, drawn, now).value, org, t.drafts[id],
                 t.inboxes[t.drafts[id].inbox], drawn, now);
  }

  // ---- Sending ----

  /** A sent message says what its request says, and comes from its inbox. */
  ghost predicate Sends(m: Message, org: Id, inbox: Id, row: Inbox, req: MessageService.SendRequest, header: Bytes,
                        now: Time)
  {
    && m.org == org && m.inbox == inbox && m.header == header && m.outbound && m.status == Sending
    && m.from == Address(row.email, row.displayName)
    && m.to == req.to && m.cc == req.cc && m.bcc == req.bcc && m.subject == req.subject
    && m.metadata == MetadataOf(req.metadata) && (m.hasAttachments <==> req.attachments != [])
    && m.sentAt == Some(now) && m.createdAt == now
  }

  lemma SendStores(t: Tables, org: Id, inbox: Id, req: MessageService.SendRequest, drawn: Drawn, now: Time)
    requires Inv(t) && MessageService.SendOutcome(t, org, inbox, req, drawn, now).Success?
    ensures
      var t' := MessageService.SendOutcome(t, org, inbox, req, drawn, now).value;
      && inbox in t.inboxes && t.inboxes[inbox].org == org
      && drawn.message !in t.messages && drawn.message in t'.messages
      && t'.messages == t.messages[drawn.message := t'.messages[drawn.message]]
      && Sends(t'.messages[drawn.message], org, inbox, t.inboxes[inbox], req, drawn.header, now)
  {
    var files := Files(req.attachments, |req.attachments|).value;
    MessageService.FilesLength(req.attachments, |req.attachments|);
    SendDelivers(t, org, inbox, req, files, drawn, now);
  }

  /** The message replies to a message of the organisation: it names it, and lies in its thread. */
  ghost predicate RepliesTo(m: Message, t: Tables, org: Id, p: Id)
  {
    && p in t.messages && t.messages[p].org == org && m.inReplyTo == t.messages[p].header
    && m.references == t.messages[p].references + [t.messages[p].header] && m.thread == t.messages[p].thread
  }

  lemma SendCounts(t: Tables, org: Id, inbox: Id, req: MessageService.SendRequest, files: seq<File>, drawn: Drawn,
                   now: Time)
    requires Inv(t) && MessageService.SendTxOutcome(t, org, inbox, req, files, drawn, now).Success?
    ensures
      var t' := MessageService.SendTxOutcome(t, org, inbox, req, files, drawn, now).value;
      var place := MessageService.Place(t, org, inbox, t.GetInbox(org, inbox).value, req, drawn, now).value;
      CountsIn(place.tables.threads, t'.threads, place.thread, now, DraftService.SnippetFrom(req.bodyText))
  {
    var row := t.GetInbox(org, inbox).value;
    var place := MessageService.Place(t, org, inbox, row, req, drawn, now).value;
    var msg := MessageService.OutboundMessage(org, inbox, row, req, place.thread, place.inReplyTo, place.references,
                                              drawn.header, files != [], now);
    AddFilesOwned(place.tables.InsertMessage(drawn.message, msg).value, org, Some(drawn.message), None, files,
                  drawn.attachments, 0, now);
  }

  /** A reply is placed in its parent's thread. */
  lemma PlacedReply(t: Tables, org: Id, inbox: Id, row: Inbox, req: MessageService.SendRequest, drawn: Drawn, now: Time)
    requires MessageService.Place(t, org, inbox, row, req, drawn, now).Success? && req.replyTo.Some?
    ensures
      var place := MessageService.Place(t, org, inbox, row, req, drawn, now).value;
      var p := req.replyTo.value;
      && place.tables == t && p in t.messages && t.messages[p].org == org && place.thread == t.messages[p].thread
      && place.thread in t.threads && t.threads[place.thread].org == org && place.inReplyTo == t.messages[p].header
      && place.references == t.messages[p].references + [t.messages[p].header]
  {
  }

  /** The thread of a reply is its parent's; it shows the reply. */
  lemma ReplyThread(t: Tables, org: Id, inbox: Id, req: MessageService.SendRequest, drawn: Drawn, now: Time)
    requires Inv(t) && MessageService.SendOutcome(t, org, inbox, req, drawn, now).Success? && req.replyTo.Some?
    ensures
      var t' := MessageService.SendOutcome(t, org, inbox, req, drawn, now).value;
      && drawn.message in t'.messages && RepliesTo(t'.messages[drawn.message], t, org, req.replyTo.value)
      && var th := t'.messages[drawn.message].thread;
         && th in t.threads && t.threads[th].org == org && th in t'.threads
         && t'.threads == t.threads[th := t'.threads[th]] && Bumped(t.threads[th], t'.threads[th])
         && t'.threads[th].participants == t.threads[th].participants
         && t'.threads[th].lastMessageAt == Some(now) && Snips(t'.threads[th].snippet, req.bodyText)
  {
    var files := Files(req.attachments, |req.attachments|).value;
    SendDelivers(t, org, inbox, req, files, drawn, now);
    SendCounts(t, org, inbox, req, files, drawn, now);
    SnippetSnips(req.bodyText);
    PlacedReply(t, org, inbox, t.inboxes[inbox], req, drawn, now);
  }

  lemma PlacedNew(t: Tables, org: Id, inbox: Id, row: Inbox, req: MessageService.SendRequest, drawn: Drawn, now: Time)
    requires MessageService.Place(t, org, inbox, row, req, drawn, now).Success? && req.replyTo.None?
    ensures
      var place := MessageService.Place(t, org, inbox, row, req, drawn, now).value;
      var th := drawn.thread;
      && place.thread == th && th !in t.threads && place.inReplyTo == [] && place.references == []
      && th in place.tables.threads && place.tables.threads == t.threads[th := place.tables.threads[th]]
      && var opened' := place.tables.threads[th];
         Opened(opened'.(messageCount := opened'.messageCount + 1), org, inbox, req.subject, true,
                [Address(row.email, row.displayName)] + req.to + req.cc, now)
  {
    ParticipantsOnce([Address(row.email, row.displayName)] + req.to + req.cc);
  }

  /** Any other message opens a thread of its own, which shows it. */
  lemma SendThread(t: Tables, org: Id, inbox: Id, req: MessageService.SendRequest, drawn: Drawn, now: Time)
    requires Inv(t) && MessageService.SendOutcome(t, org, inbox, req, drawn, now).Success? && req.replyTo.None?
    ensures
      var t' := MessageService.SendOutcome(t, org, inbox, req, drawn, now).value;
      && inbox in t.inboxes && drawn.message in t'.messages
      && var m, th := t'.messages[drawn.message], drawn.thread;
         && m.inReplyTo == [] && m.references == [] && m.thread == th && th !in t.threads && th in t'.threads
         && t'.threads == t.threads[th := t'.threads[th]]
         && Opened(t'.threads[th], org, inbox, req.subject, true,
                   [Address(t.inboxes[inbox].email, t.inboxes[inbox].displayName)] + req.to + req.cc, now)
         && t'.threads[th].lastMessageAt == Some(now) && Snips(t'.threads[th].snippet, req.bodyText)
  {
    var files := Files(req.attachments, |req.attachments|).value;
    SendDelivers(t, org, inbox, req, files, drawn, now);
    SendCounts(t, org, inbox, req, files, drawn, now);
    SnippetSnips(req.bodyText);
    PlacedNew(t, org, inbox, t.inboxes[inbox], req, drawn, now);
  }

  /** Everyone on the original mail but the inbox itself, each folded address once. */
  ghost predicate EveryoneElse(to: seq<Address>, orig: Message, inbox: Inbox, fold: Bytes -> Bytes)
  {
    var everyone := [orig.from] + orig.to + orig.cc;
    && (forall a :: a in to ==> a in everyone && a.email != [] && fold(a.email) != fold(inbox.email))
    && (forall i, j :: 0 <= i < j < |to| ==> fold(to[i].email) != fold(to[j].email))
    && (forall a :: a in everyone && a.email != [] && fold(a.email) != fold(inbox.email) ==>
          exists b :: b in to && fold(b.email) == fold(a.email))
  }

  /** The message of a reply to all: to everyone else, openly, with the original's subject. */
  ghost predicate RepliesAll(m: Message, org: Id, inbox: Id, row: Inbox, orig: Message, fold: Bytes -> Bytes,
                             header: Bytes, now: Time)
  {
    && m.org == org && m.inbox == inbox && m.header == header && m.outbound && m.status == Sending
    && m.from == Address(row.email, row.displayName)
    && EveryoneElse(m.to, orig, row, fold) && m.to != [] && m.cc == [] && m.bcc == [] && m.subject == orig.subject
    && m.metadata == EMPTY_METADATA && m.sentAt == Some(now) && m.createdAt == now
  }

  /** A reply to all posts one message: a reply to the original, in its thread, to everyone else on it. */
  lemma ReplyAllStores(t: Tables, org: Id, inbox: Id, original: Id, req: MessageService.ReplyAllRequest,
                       fold: Bytes -> Bytes, drawn: Drawn, now: Time)
    requires Inv(t) && MessageService.ReplyAllOutcome(t, org, inbox, original, req, fold, drawn, now).Success?
    ensures
      var t' := MessageService.ReplyAllOutcome(t, org, inbox, original, req, fold, drawn, now).value;
      && inbox in t.inboxes && t.inboxes[inbox].org == org && original in t.messages
      && drawn.message !in t.messages && drawn.message in t'.messages
      && t'.messages == t.messages[drawn.message := t'.messages[drawn.message]]
      && var m, th := t'.messages[drawn.message], t.messages[original].thread;
         && RepliesAll(m, org, inbox, t.inboxes[inbox], t.messages[original], fold, drawn.header, now)
         && RepliesTo(m, t, org, original) && (m.hasAttachments <==> req.attachments != [])
         && th in t.threads && th in t'.threads && t'.threads == t.threads[th := t'.threads[th]]
         && Bumped(t.threads[th], t'.threads[th])
         && t'.threads[th].lastMessageAt == Some(now) && Snips(t'.threads[th].snippet, req.bodyText)
  {
    var row, orig := t.inboxes[inbox], t.messages[original];
    var send := MessageService.ReplyAllSend(orig, original, row, req, fold);
    SendStores(t, org, inbox, send, drawn, now);
    ReplyThread(t, org, inbox, send, drawn, now);
    MessageService.ReplyAllReachesEveryoneOnce(orig, row, fold);
  }

  // ---- Ingest ----

  /** A part that is kept as an attachment when its upload succeeds: it has a name or is inline. */
  ghost predicate IsAttached(p: Part)
  {
    p.filename != [] || p.isInline
  }

  /** The attachment of a part; one without a name goes by its content id. */
  ghost predicate FileOfPart(f: File, p: Part)
  {
    && f.filename == (if p.filename != [] then p.filename else p.contentId)
    && f.contentType == p.contentType && f.size == |p.data| && f.contentId == p.contentId && f.inline == p.isInline
  }

  /** The files are those of the attached parts that were stored, in order; from has their positions. */
  ghost predicate FromParts(files: seq<File>, from: seq<nat>, parts: seq<Part>, n: nat, stored: nat -> bool)
    requires n <= |parts|
  {
    && |from| == |files|
    && (forall i, j :: 0 <= i < j < |from| ==> from[i] < from[j])
    && (forall k :: k in from <==> 0 <= k < n && IsAttached(parts[k]) && stored(k))
    && (forall i :: 0 <= i < |from| ==> from[i] < n && FileOfPart(files[i], parts[from[i]]))
  }

  lemma OneMorePart(files: seq<File>, from: seq<nat>, parts: seq<Part>, n: nat, stored: nat -> bool, f: File)
    requires 0 < n <= |parts| && FromParts(files, from, parts, n - 1, stored)
    requires IsAttached(parts[n - 1]) && stored(n - 1) && FileOfPart(f, parts[n - 1])
    ensures FromParts(files + [f], from + [n - 1], parts, n, stored)
  {
    var all := from + [n - 1];
    forall k
      ensures k in all <==> 0 <= k < n && IsAttached(parts[k]) && stored(k)
    {
      assert k in all <==> k in from || k == n - 1;
    }
  }

  lemma NoMorePart(files: seq<File>, from: seq<nat>, parts: seq<Part>, n: nat, stored: nat -> bool)
    requires 0 < n <= |parts| && FromParts(files, from, parts, n - 1, stored)
    requires !IsAttached(parts[n - 1]) || !stored(n - 1)
    ensures FromParts(files, from, parts, n, stored)
  {
  }

  lemma {:induction false} FilesOfParts(parts: seq<Part>, n: nat, stored: nat -> bool) returns (from: seq<nat>)
    requires n <= |parts|
    ensures FromParts(EmailInbound.InboundFiles(parts, n, stored), from, parts, n, stored)
  {
    if n == 0 {
      from := [];
    } else {
      from := FilesOfParts(parts, n - 1, stored);
      var files, all := EmailInbound.InboundFiles(parts, n - 1, stored), EmailInbound.InboundFiles(parts, n, stored);
      if IsAttached(parts[n - 1]) && stored(n - 1) {
        OneMorePart(files, from, parts, n, stored, all[|files|]);
        from := from + [n - 1];
      } else {
        NoMorePart(files, from, parts, n, stored);
      }
    }
  }

  /** The message of a received mail. */
  ghost predicate Receives(m: Message, org: Id, inbox: Id, mail: EmailInbound.Mail, now: Time)
  {
    && m.org == org && m.inbox == inbox && !m.outbound && m.status == Received
    && m.header == mail.messageId && m.inReplyTo == mail.inReplyTo && m.references == mail.references
    && m.from == mail.from && m.to == mail.to && m.cc == mail.cc && m.bcc == [] && m.subject == mail.subject
    && m.metadata == EMPTY_METADATA && m.sentAt.None? && m.createdAt == now
  }

  /**
    A mail for an address with an active inbox is stored as one message, with one attachment row for each named or
    inline part that was uploaded; a mail for any other address changes nothing.
   */
  lemma IngestStores(t: Tables, address: Bytes, inbox: Id, mail: EmailInbound.Mail, match': Id, drawn: Drawn, now: Time,
                     stored: nat -> bool)
    returns (files: seq<File>, from: seq<nat>)
    requires Inv(t) && EmailInbound.IngestOutcome(t, address, inbox, mail, match', drawn, now, stored).Success?
    ensures
      var t' := EmailInbound.IngestOutcome(t, address, inbox, mail, match', drawn, now, stored).value;
      if inbox in t.inboxes && t.inboxes[inbox].email == address && t.inboxes[inbox].active then
        && drawn.message !in t.messages && drawn.message in t'.messages
        && t'.messages == t.messages[drawn.message := t'.messages[drawn.message]]
        && Receives(t'.messages[drawn.message], t.inboxes[inbox].org, inbox, mail, now)
        && FromParts(files, from, mail.parts, |mail.parts|, stored)
        && (t'.messages[drawn.message].hasAttachments <==> files != [])
        && FilesStored(t.attachments, t'.attachments, t.inboxes[inbox].org, Some(drawn.message), None, files,
                       drawn.attachments, 0, now)
      else t' == t
  {
    files := EmailInbound.InboundFiles(mail.parts, |mail.parts|, stored);
    from := FilesOfParts(mail.parts, |mail.parts|, stored);
    if inbox in t.inboxes && t.inboxes[inbox].email == address && t.inboxes[inbox].active {
      IngestShape(t, inbox, mail, files, match', drawn, now);
    }
  }

  // ---- The thread of a received mail ----

  /** Everyone is among the participants; those who were stay, and each one added has an email that was not there. */
  ghost predicate Joined(before: seq<Address>, after: seq<Address>, everyone: seq<Address>)
  {
    && before <= after
    && (forall k :: |before| <= k < |after| ==> after[k] in everyone && after[k].email != [])
    && (forall j, k :: 0 <= j < k < |after| && |before| <= k ==> after[j].email != after[k].email)
    && (forall a :: a in everyone && a.email != [] ==> Has(after, a.email))
  }

  lemma {:induction false} NewcomersAreStrangers(present: seq<Address>, more: seq<Address>, a: Address)
    ensures a in EmailInbound.Newcomers(present, more) <==> a in more && !Has(present, a.email)
  {
    if more != [] {
      NewcomersAreStrangers(present, more[1..], a);
      assert a in more <==> a == more[0] || a in more[1..];
      if exists i :: 0 <= i < |present| && present[i].email == more[0].email {
        var i :| 0 <= i < |present| && present[i].email == more[0].email;
        assert present[i] in present && Has(present, more[0].email);
      } else {
        assert !Has(present, more[0].email);
      }
    }
  }

  lemma {:induction false} NewcomersAreNew(present: seq<Address>, more: seq<Address>)
    requires forall i, j :: 0 <= i < j < |more| ==> more[i].email != more[j].email
    ensures
      var added := EmailInbound.Newcomers(present, more);
      forall i, j :: 0 <= i < j < |added| ==> added[i].email != added[j].email
  {
    if more != [] {
      NewcomersAreNew(present, more[1..]);
      var rest := EmailInbound.Newcomers(present, more[1..]);
      forall k | 0 <= k < |rest|
        ensures more[0].email != rest[k].email
      {
        NewcomersAreStrangers(present, more[1..], rest[k]);
        assert rest[k] in more[1..];
      }
    }
  }

  lemma MergedApart(present: seq<Address>, people: seq<Address>)
    requires forall i, j :: 0 <= i < j < |people| ==> people[i].email != people[j].email
    ensures
      var after := present + EmailInbound.Newcomers(present, people);
      forall j, k :: 0 <= j < k < |after| && |present| <= k ==> after[j].email != after[k].email
  {
    NewcomersAreNew(present, people);
    var added := EmailInbound.Newcomers(present, people);
    var after := present + added;
    forall j, k | 0 <= j < k < |after| && |present| <= k
      ensures after[j].email != after[k].email
    {
      assert after[k] in added;
      NewcomersAreStrangers(present, people, after[k]);
      if j < |present| {
        assert after[j] in present;
      }
    }
  }

  lemma MergedHas(present: seq<Address>, people: seq<Address>, email: Bytes)
    requires Has(people, email)
    ensures Has(present + EmailInbound.Newcomers(present, people), email)
  {
    var after := present + EmailInbound.Newcomers(present, people);
    var b :| b in people && b.email == email;
    if Has(present, email) {
      var c :| c in present && c.email == email;
      assert c in after;
    } else {
      NewcomersAreStrangers(present, people, b);
      assert b in after;
    }
  }

  lemma MergedJoined(present: seq<Address>, people: seq<Address>, everyone: seq<Address>)
    requires EachOnce(people, everyone)
    ensures Joined(present, present + EmailInbound.Newcomers(present, people), everyone)
  {
    MergedApart(present, people);
    var added := EmailInbound.Newcomers(present, people);
    var after := present + added;
    forall k | |present| <= k < |after|
      ensures after[k] in everyone && after[k].email != []
    {
      assert after[k] in added;
      NewcomersAreStrangers(present, people, after[k]);
    }
    forall a | a in everyone && a.email != []
      ensures Has(after, a.email)
    {
      MergedHas(present, people, a.email);
    }
  }

  /** The thread's row after ingest, from what the lookup found or opened. */
  lemma IngestCounts(t: Tables, inbox: Id, mail: EmailInbound.Mail, files: seq<File>, match': Id, drawn: Drawn,
                     now: Time)
    requires Inv(t) && inbox in t.inboxes
    requires EmailInbound.IngestTxOutcome(t, inbox, mail, files, match', drawn, now).Success?
    ensures
      var org := t.inboxes[inbox].org;
      var t' := EmailInbound.IngestTxOutcome(t, inbox, mail, files, match', drawn, now).value;
      var (started, th) := EmailInbound.JoinThread(t, inbox, mail, match', drawn, now).value;
      && th in started.threads && th in t'.threads && t'.threads == t.threads[th := t'.threads[th]]
      && (th in t.threads <==> EmailInbound.Matches(t, org, inbox, EmailInbound.LookupIds(mail)) != {})
      && t'.threads[th] ==
         started.threads[th].(messageCount := started.threads[th].messageCount + 1, lastMessageAt := Some(now),
                              snippet := mail.snippet, participants := t'.threads[th].participants)
      && t'.threads[th].participants ==
         started.threads[th].participants
         + if th in t.threads
           then EmailInbound.Newcomers(started.threads[th].participants, EmailInbound.BuildParticipants(mail)) else []
  {
    var org := t.inboxes[inbox].org;
    var (started, th) := EmailInbound.JoinThread(t, inbox, mail, match', drawn, now).value;
    var msg := EmailInbound.InboundMessage(org, inbox, mail, th, files != [], now);
    AddFilesOwned(started.InsertMessage(drawn.message, msg).value, org, Some(drawn.message), None, files,
                  drawn.attachments, 0, now);
  }

  /** The thread of a received mail shows it: a new one, unread and with everyone in it, or the one that it joins. */
  ghost predicate ShowsReceived(t: Tables, t': Tables, org: Id, inbox: Id, mail: EmailInbound.Mail, drawn: Drawn,
                                now: Time)
    requires drawn.message in t'.messages
  {
    var th, everyone := t'.messages[drawn.message].thread, [mail.from] + mail.to + mail.cc;
    && th in t'.threads && t'.threads == t.threads[th := t'.threads[th]]
    && t'.threads[th].lastMessageAt == Some(now) && t'.threads[th].snippet == mail.snippet
    && (th !in t.threads ==>
          th == drawn.thread && Opened(t'.threads[th], org, inbox, mail.subject, false, everyone, now))
    && (th in t.threads ==>
          && Bumped(t.threads[th], t'.threads[th])
          && Joined(t.threads[th].participants, t'.threads[th].participants, everyone))
  }

  lemma ReceivedShows(t: Tables, inbox: Id, mail: EmailInbound.Mail, files: seq<File>, match': Id, drawn: Drawn,
                      now: Time)
    requires Inv(t) && inbox in t.inboxes
    requires EmailInbound.IngestTxOutcome(t, inbox, mail, files, match', drawn, now).Success?
    ensures
      var t' := EmailInbound.IngestTxOutcome(t, inbox, mail, files, match', drawn, now).value;
      drawn.message in t'.messages && ShowsReceived(t, t', t.inboxes[inbox].org, inbox, mail, drawn, now)
  {
    IngestDelivers(t, inbox, mail, files, match', drawn, now);
    var everyone := [mail.from] + mail.to + mail.cc;
    var people := EmailInbound.BuildParticipants(mail);
    ParticipantsOnce(everyone);
    IngestCounts(t, inbox, mail, files, match', drawn, now);
    var th := EmailInbound.JoinThread(t, inbox, mail, match', drawn, now).value.1;
    if th in t.threads {
      MergedJoined(t.threads[th].participants, people, everyone);
    }
  }

  lemma IngestThread(t: Tables, address: Bytes, inbox: Id, mail: EmailInbound.Mail, match': Id, drawn: Drawn, now: Time,
                     stored: nat -> bool)
    requires Inv(t) && EmailInbound.IngestOutcome(t, address, inbox, mail, match', drawn, now, stored).Success?
    requires inbox in t.inboxes && t.inboxes[inbox].email == address && t.inboxes[inbox].active
    ensures
      var t' := EmailInbound.IngestOutcome(t, address, inbox, mail, match', drawn, now, stored).value;
      drawn.message in t'.messages && ShowsReceived(t, t', t.inboxes[inbox].org, inbox, mail, drawn, now)
  {
    ReceivedShows(t, inbox, mail, EmailInbound.InboundFiles(mail.parts, |mail.parts|, stored), match', drawn, now);
  }
}
