/**
  Whole runs of the platform: any sequence of operations over the shared tables, each committed or
  lost to a failure anywhere in its transaction.
 */
module Runs {
  import opened Wrappers
  import opened Text
  import opened Database
  import opened TableInvariants
  import DraftStore
  import DraftService
  import MessageService
  import EmailInbound
  import OutboundStatus
  import StoredRows
  import Uploads

  datatype Op =
    | CreateDraft(org: Id, create: DraftService.CreateRequest, draft: Id, drawn: Drawn, now: Time)
    | UpdateDraft(org: Id, draft: Id, update: DraftService.UpdateRequest, drawn: Drawn, now: Time)
    | DeleteDraft(org: Id, draft: Id)
    | ApproveDraft(org: Id, draft: Id, note: Bytes, reviewer: Id, drawn: Drawn, now: Time)
    | RejectDraft(org: Id, draft: Id, note: Bytes, reviewer: Id, now: Time)
    | SendMessage(org: Id, inbox: Id, send: MessageService.SendRequest, drawn: Drawn, now: Time)
    | ReplyToAll(org: Id, inbox: Id, original: Id, reply: MessageService.ReplyAllRequest, fold: Bytes -> Bytes,
                 drawn: Drawn, now: Time)
    | Ingest(address: Bytes, inbox: Id, mail: EmailInbound.Mail, match': Id, drawn: Drawn, now: Time,
             stored: nat -> bool)
    | StartSending(org: Id, message: Id)
    | FinishSending(message: Id, now: Time)
    | NoticeSes(header: Bytes, notice: OutboundStatus.Notice, now: Time)

  /** The tables after the operation commits, or the reason it cannot. */
  ghost function Apply(op: Op, t: Tables, valid: DraftService.AddressCheck): Result<Tables, Error>
  {
    match op
    case CreateDraft(org, req, draft, drawn, now) => DraftService.CreateOutcome(t, org, req, draft, drawn, now, valid)
    case UpdateDraft(org, draft, req, drawn, now) => DraftService.UpdateOutcome(t, org, draft, req, drawn, now, valid)
    case DeleteDraft(org, draft) => t.DeleteDraft(org, draft)
    case ApproveDraft(org, draft, note, reviewer, drawn, now) =>
      DraftService.ApproveOutcome(t, org, draft, note, reviewer, drawn, now)
    case RejectDraft(org, draft, note, reviewer, now) => DraftService.RejectOutcome(t, org, draft, note, reviewer, now)
    case SendMessage(org, inbox, req, drawn, now) => MessageService.SendOutcome(t, org, inbox, req, drawn, now)
    case ReplyToAll(org, inbox, original, req, fold, drawn, now) =>
      MessageService.ReplyAllOutcome(t, org, inbox, original, req, fold, drawn, now)
    case Ingest(address, inbox, mail, match', drawn, now, stored) =>
      EmailInbound.IngestOutcome(t, address, inbox, mail, match', drawn, now, stored)
    case StartSending(org, message) => OutboundStatus.StartOutcome(t, org, message)
    case FinishSending(message, now) => OutboundStatus.WithSentAt(t, message, now)
    case NoticeSes(header, notice, now) => Success(OutboundStatus.WithNotice(t, header, notice, now))
  }

  /** states[i + 1] follows states[i]: the i-th operation committed, or failed and left no trace. */
  ghost predicate IsRun(states: seq<Tables>, ops: seq<Op>, committed: seq<bool>, valid: DraftService.AddressCheck)
  {
    && |states| == |ops| + 1 == |committed| + 1
    && forall i :: 0 <= i < |ops| ==> Follows(states[i], states[i + 1], ops[i], committed[i], valid)
  }

  ghost predicate Follows(t: Tables, t': Tables, op: Op, committed: bool, valid: DraftService.AddressCheck)
  {
    if committed then Apply(op, t, valid) == Success(t') else t' == t
  }

  lemma StepKeeps(t: Tables, op: Op, valid: DraftService.AddressCheck)
    requires Inv(t) && Apply(op, t, valid).Success?
    ensures Inv(Apply(op, t, valid).value)
  {
    match op
    case CreateDraft(org, req, draft, drawn, now) => CreateKeeps(t, org, req, draft, drawn, now, valid);
    case UpdateDraft(org, draft, req, drawn, now) => UpdateKeeps(t, org, draft, req, drawn, now, valid);
    case DeleteDraft(org, draft) => DeleteKeeps(t, org, draft);
    case ApproveDraft(org, draft, note, reviewer, drawn, now) =>
      ApproveStepKeeps(t, org, draft, note, reviewer, drawn, now);
    case RejectDraft(org, draft, note, reviewer, now) => RejectKeeps(t, org, draft, note, reviewer, now);
    case SendMessage(org, inbox, req, drawn, now) => SendKeeps(t, org, inbox, req, drawn, now);
    case ReplyToAll(org, inbox, original, req, fold, drawn, now) =>
      ReplyKeeps(t, org, inbox, original, req, fold, drawn, now);
    case Ingest(address, inbox, mail, match', drawn, now, stored) =>
      IngestKeeps(t, address, inbox, mail, match', drawn, now, stored);
    case StartSending(org, message) => StatusOpKeeps(t, op, valid);
    case FinishSending(message, now) => StatusOpKeeps(t, op, valid);
    case NoticeSes(header, notice, now) => StatusOpKeeps(t, op, valid);
  }

  lemma StatusOpKeeps(t: Tables, op: Op, valid: DraftService.AddressCheck)
    requires op.StartSending? || op.FinishSending? || op.NoticeSes?
    requires Inv(t) && Apply(op, t, valid).Success?
    ensures Inv(Apply(op, t, valid).value)
  {
    OnlyStatusesChange(t, op, valid);
    StatusKeeps(t, Apply(op, t, valid).value);
  }

  lemma OnlyStatusesChange(t: Tables, op: Op, valid: DraftService.AddressCheck)
    requires op.StartSending? || op.FinishSending? || op.NoticeSes?
    requires Apply(op, t, valid).Success?
    ensures OnlyStatuses(t, Apply(op, t, valid).value)
  {
  }

  lemma ReplyKeeps(t: Tables, org: Id, inbox: Id, original: Id, req: MessageService.ReplyAllRequest,
                   fold: Bytes -> Bytes, drawn: Drawn, now: Time)
    requires Inv(t) && MessageService.ReplyAllOutcome(t, org, inbox, original, req, fold, drawn, now).Success?
    ensures Inv(MessageService.ReplyAllOutcome(t, org, inbox, original, req, fold, drawn, now).value)
  {
    SendKeeps(t, org, inbox, MessageService.ReplyAllSend(t.messages[original], original, t.inboxes[inbox], req, fold),
              drawn, now);
  }

  lemma ApproveStepKeeps(t: Tables, org: Id, draft: Id, note: Bytes, reviewer: Id, drawn: Drawn, now: Time)
    requires Inv(t) && DraftService.ApproveOutcome(t, org, draft, note, reviewer, drawn, now).Success?
    ensures Inv(DraftService.ApproveOutcome(t, org, draft, note, reviewer, drawn, now).value)
  {
    ApproveShape(t, org, draft, note, reviewer, drawn, now);
    ApproveKeeps(t, DraftService.ApproveOutcome(t, org, draft, note, reviewer, drawn, now).value, org, draft,
                 drawn.message, drawn.header);
  }

  lemma IngestKeeps(t: Tables, address: Bytes, inbox: Id, mail: EmailInbound.Mail, match': Id, drawn: Drawn, now: Time,
                    stored: nat -> bool)
    requires Inv(t) && EmailInbound.IngestOutcome(t, address, inbox, mail, match', drawn, now, stored).Success?
    ensures Inv(EmailInbound.IngestOutcome(t, address, inbox, mail, match', drawn, now, stored).value)
  {
    if EmailInbound.Addressed(t, inbox, address) {
      IngestDelivers(t, inbox, mail, EmailInbound.InboundFiles(mail.parts, |mail.parts|, stored), match', drawn, now);
      DeliverKeeps(t, EmailInbound.IngestOutcome(t, address, inbox, mail, match', drawn, now, stored).value,
                   drawn.message);
    }
  }

  lemma SendKeeps(t: Tables, org: Id, inbox: Id, req: MessageService.SendRequest, drawn: Drawn, now: Time)
    requires Inv(t) && MessageService.SendOutcome(t, org, inbox, req, drawn, now).Success?
    ensures Inv(MessageService.SendOutcome(t, org, inbox, req, drawn, now).value)
  {
    var files := Uploads.Files(req.attachments, |req.attachments|).value;
    SendDelivers(t, org, inbox, req, files, drawn, now);
    DeliverKeeps(t, MessageService.SendOutcome(t, org, inbox, req, drawn, now).value, drawn.message);
  }

  /**
    Every state of every run from a sound start satisfies the invariant: thread counters are exact
    and positive, drafts and messages correspond, attachments have one owner, flags tell the truth.
   */
  lemma {:induction false} RunKeepsInvariant(states: seq<Tables>, ops: seq<Op>, committed: seq<bool>,
                                             valid: DraftService.AddressCheck, i: nat)
    requires IsRun(states, ops, committed, valid) && Inv(states[0]) && i < |states|
    ensures Inv(states[i])
  {
    if i > 0 {
      RunKeepsInvariant(states, ops, committed, valid, i - 1);
      assert Follows(states[i - 1], states[i], ops[i - 1], committed[i - 1], valid);
      if committed[i - 1] {
        StepKeeps(states[i - 1], ops[i - 1], valid);
      }
    }
  }

  /** Tables with inboxes and nothing else are a sound start. */
  lemma EmptyIsSound(inboxes: map<Id, Inbox>)
    ensures Inv(Tables(inboxes, map[], map[], map[], map[]))
  {
  }

  // ---- Drafts over a run ----

  /** Between two states of a draft: a decided draft keeps its decision, its message and its contents. */
  ghost predicate Advances(before: Draft, after: Draft)
  {
    && after.org == before.org
    && (before.status != Pending ==> after == before)
    && (before.status == Pending ==> after.status in {Pending, Approved, Rejected})
  }

  /** Sends, replies to all and ingest post one message, if they change anything. */
  lemma OpDelivers(t: Tables, op: Op, valid: DraftService.AddressCheck)
    requires op.SendMessage? || op.ReplyToAll? || op.Ingest?
    requires Inv(t) && Apply(op, t, valid).Success?
    ensures
      var t' := Apply(op, t, valid).value;
      t' == t || Delivers(t, t', op.drawn.message)
  {
    match op
    case SendMessage(org, inbox, req, drawn, now) =>
      SendDelivers(t, org, inbox, req, Uploads.Files(req.attachments, |req.attachments|).value, drawn, now);
    case ReplyToAll(org, inbox, original, req, fold, drawn, now) =>
      var send := MessageService.ReplyAllSend(t.messages[original], original, t.inboxes[inbox], req, fold);
      SendDelivers(t, org, inbox, send, Uploads.Files(send.attachments, |send.attachments|).value, drawn, now);
    case Ingest(address, inbox, mail, match', drawn, now, stored) =>
      if EmailInbound.Addressed(t, inbox, address) {
        IngestDelivers(t, inbox, mail, EmailInbound.InboundFiles(mail.parts, |mail.parts|, stored), match', drawn, now);
      }
  }

  lemma StepAdvances(t: Tables, op: Op, valid: DraftService.AddressCheck, d: Id)
    requires Inv(t) && Apply(op, t, valid).Success?
    requires d in t.drafts && d in Apply(op, t, valid).value.drafts
    ensures Advances(t.drafts[d], Apply(op, t, valid).value.drafts[d])
  {
    match op
    case CreateDraft(org, req, draft, drawn, now) => CreateLeavesDrafts(t, org, req, draft, drawn, now, valid, d);
    case UpdateDraft(org, draft, req, drawn, now) => UpdateAdvances(t, org, draft, req, drawn, now, valid, d);
    case DeleteDraft(org, draft) =>
    case ApproveDraft(org, draft, note, reviewer, drawn, now) =>
      ApproveShape(t, org, draft, note, reviewer, drawn, now);
    case RejectDraft(org, draft, note, reviewer, now) =>
    case SendMessage(_, _, _, _, _) => OpDelivers(t, op, valid);
    case ReplyToAll(_, _, _, _, _, _, _) => OpDelivers(t, op, valid);
    case Ingest(_, _, _, _, _, _, _) => OpDelivers(t, op, valid);
    case StartSending(org, message) =>
    case FinishSending(message, now) =>
    case NoticeSes(header, notice, now) =>
  }

  lemma CreateLeavesDrafts(t: Tables, org: Id, req: DraftService.CreateRequest, id: Id, drawn: Drawn, now: Time,
                           valid: DraftService.AddressCheck, d: Id)
    requires DraftService.CreateOutcome(t, org, req, id, drawn, now, valid).Success? && d in t.drafts
    ensures
      var t' := DraftService.CreateOutcome(t, org, req, id, drawn, now, valid).value;
      d in t'.drafts && t'.drafts[d] == t.drafts[d]
  {
    var files := Uploads.Files(req.attachments, |req.attachments|).value;
    AddFilesOwned(t.InsertDraft(id, DraftService.NewDraft(org, req, now)).value, org, None, Some(id), files,
                  drawn.attachments, 0, now);
  }

  lemma UpdateAdvances(t: Tables, org: Id, id: Id, req: DraftService.UpdateRequest, drawn: Drawn, now: Time,
                       valid: DraftService.AddressCheck, d: Id)
    requires Inv(t) && DraftService.UpdateOutcome(t, org, id, req, drawn, now, valid).Success? && d in t.drafts
    ensures
      var t' := DraftService.UpdateOutcome(t, org, id, req, drawn, now, valid).value;
      d in t'.drafts && Advances(t.drafts[d], t'.drafts[d])
  {
    UpdateDrafts(t, org, id, req, drawn, now, valid);
  }

  lemma FollowsAdvances(t: Tables, t': Tables, op: Op, committed: bool, valid: DraftService.AddressCheck, d: Id)
    requires Inv(t) && Follows(t, t', op, committed, valid) && d in t.drafts && d in t'.drafts
    ensures Advances(t.drafts[d], t'.drafts[d])
  {
    assert t.drafts[d].status != ReviewSent;
    if committed {
      StepAdvances(t, op, valid, d);
    }
  }

  lemma UpdateDrafts(t: Tables, org: Id, id: Id, req: DraftService.UpdateRequest, drawn: Drawn, now: Time,
                     valid: DraftService.AddressCheck)
    requires DraftService.UpdateOutcome(t, org, id, req, drawn, now, valid).Success?
    ensures
      var t' := DraftService.UpdateOutcome(t, org, id, req, drawn, now, valid).value;
      && id in t.drafts && t.drafts[id].status == Pending
      && t'.drafts == t.drafts[id := DraftStore.Patched(t.drafts[id], DraftService.ContentPatch(req), now)]
      && t'.messages == t.messages && t'.threads == t.threads
  {
    UpdateShape(t, org, id, req, drawn, now, valid);
  }

  /** While a draft exists its review moves once at most, from pending, and then nothing about it changes. */
  lemma {:induction false} DraftsAdvance(states: seq<Tables>, ops: seq<Op>, committed: seq<bool>,
                                         valid: DraftService.AddressCheck, d: Id, i: nat, j: nat)
    requires IsRun(states, ops, committed, valid) && Inv(states[0]) && i <= j < |states|
    requires forall k :: i <= k <= j ==> d in states[k].drafts
    ensures Advances(states[i].drafts[d], states[j].drafts[d])
    decreases j - i
  {
    if i < j {
      DraftsAdvance(states, ops, committed, valid, d, i, j - 1);
      RunKeepsInvariant(states, ops, committed, valid, j - 1);
      FollowsAdvances(states[j - 1], states[j], ops[j - 1], committed[j - 1], valid, d);
    } else {
      RunKeepsInvariant(states, ops, committed, valid, i);
    }
  }

  /**
    The In-Reply-To of a create request reaches the approved message exactly when it was empty:
    the drafts table keeps none.
   */
  lemma ReplyHeaderReaches(states: seq<Tables>, ops: seq<Op>, committed: seq<bool>, valid: DraftService.AddressCheck,
                           i: nat, j: nat)
    requires IsRun(states, ops, committed, valid) && Inv(states[0]) && i < j < |ops|
    requires committed[i] && ops[i].CreateDraft? && committed[j] && ops[j].ApproveDraft? && ops[j].draft == ops[i].draft
    ensures
      var m := ops[j].drawn.message;
      m in states[j + 1].messages
      && (states[j + 1].messages[m].inReplyTo == ops[i].create.inReplyTo <==> ops[i].create.inReplyTo == [])
  {
    RunKeepsInvariant(states, ops, committed, valid, j);
    assert Follows(states[j], states[j + 1], ops[j], committed[j], valid);
    ApproveShape(states[j], ops[j].org, ops[j].draft, ops[j].note, ops[j].reviewer, ops[j].drawn, ops[j].now);
  }

  /**
    From its approval on, while the draft exists, its message is there and says what the draft said when it was
    approved.
   */
  lemma ApprovalStands(states: seq<Tables>, ops: seq<Op>, committed: seq<bool>, valid: DraftService.AddressCheck,
                       i: nat, j: nat)
    requires IsRun(states, ops, committed, valid) && Inv(states[0]) && i < j < |states|
    requires committed[i] && ops[i].ApproveDraft? && forall k :: i < k <= j ==> ops[i].draft in states[k].drafts
    ensures
      var d, m := ops[i].draft, ops[i].drawn.message;
      && d in states[i].drafts && states[i].drafts[d].status == Pending
      && states[j].drafts[d].status == Approved && states[j].drafts[d].message == Some(m)
      && m !in states[i].messages && m in states[j].messages && Carries(states[j].messages[m], states[i].drafts[d])
  {
    RunKeepsInvariant(states, ops, committed, valid, i);
    assert Follows(states[i], states[i + 1], ops[i], committed[i], valid);
    ApproveShape(states[i], ops[i].org, ops[i].draft, ops[i].note, ops[i].reviewer, ops[i].drawn, ops[i].now);
    DraftsAdvance(states, ops, committed, valid, ops[i].draft, i + 1, j);
    RunKeepsInvariant(states, ops, committed, valid, j);
  }

  /**
    A committed rejection found the draft pending, and from then on the draft is rejected, with the reviewer's reason:
    in every later state, while it exists, it is the same row, and it can be neither approved nor rejected again.
   */
  lemma RejectionStands(states: seq<Tables>, ops: seq<Op>, committed: seq<bool>, valid: DraftService.AddressCheck,
                        i: nat, j: nat, note: Bytes, reviewer: Id, drawn: Drawn, now: Time)
    requires IsRun(states, ops, committed, valid) && Inv(states[0]) && i < j < |states|
    requires committed[i] && ops[i].RejectDraft? && forall k :: i < k <= j ==> ops[i].draft in states[k].drafts
    ensures
      var op, d := ops[i], ops[i].draft;
      && d in states[i].drafts && states[i].drafts[d].org == op.org && states[i].drafts[d].status == Pending
      && states[j].drafts[d] ==
         states[i].drafts[d].(status := Rejected, note := op.note, reviewedAt := Some(op.now),
                              reviewedBy := Some(op.reviewer), updatedAt := op.now)
      && DraftService.ApproveOutcome(states[j], op.org, d, note, reviewer, drawn, now) ==
         Failure(InvalidReviewStatus)
      && DraftService.RejectOutcome(states[j], op.org, d, note, reviewer, now) == Failure(InvalidReviewStatus)
  {
    RunKeepsInvariant(states, ops, committed, valid, i);
    assert Follows(states[i], states[i + 1], ops[i], committed[i], valid);
    StoredRows.RejectStores(states[i], ops[i].org, ops[i].draft, ops[i].note, ops[i].reviewer, ops[i].now);
    DraftsAdvance(states, ops, committed, valid, ops[i].draft, i + 1, j);
  }

  /** Create demands a recipient; a committed update keeps one exactly when it does not give an empty list. */
  lemma UpdateKeepsRecipientsIff(t: Tables, org: Id, id: Id, req: DraftService.UpdateRequest, drawn: Drawn, now: Time,
                                 valid: DraftService.AddressCheck)
    requires DraftService.UpdateOutcome(t, org, id, req, drawn, now, valid).Success?
    requires id in t.drafts && t.drafts[id].to != []
    ensures
      var t' := DraftService.UpdateOutcome(t, org, id, req, drawn, now, valid).value;
      id in t'.drafts && (t'.drafts[id].to != [] <==> req.to != Some([]))
  {
    UpdateDrafts(t, org, id, req, drawn, now, valid);
  }
}
