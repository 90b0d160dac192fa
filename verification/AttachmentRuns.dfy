/** What becomes of an attachment row over whole runs: conservation, and who may take it away. */
module AttachmentRuns {
  import opened Wrappers
  import opened Text
  import opened Database
  import opened TableInvariants
  import opened Runs
  import DraftService
  import DraftStore
  import EmailInbound
  import MessageService
  import OutboundStatus
  import Uploads

  /** The operations after which a row of draft d is the draft's no longer, or replaced. */
  ghost predicate Releases(op: Op, committed: bool, d: Id)
  {
    && committed && (op.ApproveDraft? || op.DeleteDraft? || (op.UpdateDraft? && op.update.attachments.Some?))
    && op.draft == d
  }

  /** The row after one operation: it stays, unless its draft is approved, deleted or given other attachments. */
  ghost predicate RowMoves(t: Tables, t': Tables, op: Op, committed: bool, a: Id)
    requires a in t.attachments
  {
    var row := t.attachments[a];
    if row.draft.None? || !Releases(op, committed, row.draft.value) then a in t'.attachments && t'.attachments[a] == row
    else if op.ApproveDraft? then
      a in t'.attachments && t'.attachments[a] == row.(message := Some(op.drawn.message), draft := None)
    else if op.DeleteDraft? then a !in t'.attachments
    else a in t'.attachments ==> t'.attachments[a].draft == row.draft
  }

  lemma UpdateMoves(t: Tables, op: Op, valid: DraftService.AddressCheck, a: Id)
    requires op.UpdateDraft? && Inv(t) && Apply(op, t, valid).Success? && a in t.attachments
    ensures RowMoves(t, Apply(op, t, valid).value, op, true, a)
  {
    var req := op.update;
    if req.attachments.Some? {
      var row := DraftStore.Patched(t.drafts[op.draft], DraftService.ContentPatch(req), op.now);
      var cleared := t.PutDraft(op.draft, row).DeleteDraftAttachments(op.org, op.draft);
      var files := Uploads.Files(DraftService.Given(req.attachments), |DraftService.Given(req.attachments)|).value;
      AddFilesOwned(cleared, op.org, None, Some(op.draft), files, op.drawn.attachments, 0, op.now);
    }
  }

  lemma StepRow(t: Tables, op: Op, valid: DraftService.AddressCheck, a: Id)
    requires Inv(t) && Apply(op, t, valid).Success? && a in t.attachments
    ensures RowMoves(t, Apply(op, t, valid).value, op, true, a)
  {
    match op
    case CreateDraft(org, req, draft, drawn, now) => CreateShape(t, org, req, draft, drawn, now, valid);
    case UpdateDraft(org, draft, req, drawn, now) => UpdateMoves(t, op, valid, a);
    case DeleteDraft(org, draft) =>
    case ApproveDraft(org, draft, note, reviewer, drawn, now) =>
      ApproveShape(t, org, draft, note, reviewer, drawn, now);
    case RejectDraft(org, draft, note, reviewer, now) =>
    case SendMessage(_, _, _, _, _) => OpDelivers(t, op, valid);
    case ReplyToAll(_, _, _, _, _, _, _) => OpDelivers(t, op, valid);
    case Ingest(_, _, _, _, _, _, _) => OpDelivers(t, op, valid);
    case StartSending(org, message) =>
    case FinishSending(message, now) =>
    case NoticeSes(header, notice, now) =>
  }

  lemma FollowsRow(states: seq<Tables>, ops: seq<Op>, committed: seq<bool>, valid: DraftService.AddressCheck, a: Id,
                   k: nat)
    requires IsRun(states, ops, committed, valid) && Inv(states[0]) && k < |ops| && a in states[k].attachments
    ensures RowMoves(states[k], states[k + 1], ops[k], committed[k], a)
  {
    RunKeepsInvariant(states, ops, committed, valid, k);
    assert Follows(states[k], states[k + 1], ops[k], committed[k], valid);
    if committed[k] {
      StepRow(states[k], ops[k], valid, a);
    }
  }

  ghost predicate RowStays(states: seq<Tables>, a: Id, i: nat, j: nat)
  {
    && i <= j < |states| && a in states[i].attachments
    && forall l :: i <= l <= j ==> a in states[l].attachments && states[l].attachments[a] == states[i].attachments[a]
  }

  /** An attachment of a message never changes and never goes. */
  lemma {:induction false} MessageFilesStay(states: seq<Tables>, ops: seq<Op>, committed: seq<bool>,
                                            valid: DraftService.AddressCheck, a: Id, i: nat, j: nat)
    requires IsRun(states, ops, committed, valid) && Inv(states[0]) && i <= j < |states|
    requires a in states[i].attachments && states[i].attachments[a].message.Some?
    ensures RowStays(states, a, i, j)
    decreases j - i
  {
    if i < j {
      MessageFilesStay(states, ops, committed, valid, a, i, j - 1);
      RunKeepsInvariant(states, ops, committed, valid, j - 1);
      FollowsRow(states, ops, committed, valid, a, j - 1);
    }
  }

  /**
    A draft's attachment stays as it is until the first approval, deletion or new attachments of the draft, if there
    is one before state j. From an approval on it is the message's, and nothing else about it changes; a deletion
    takes it away.
   */
  lemma {:induction false} DraftFileFate(states: seq<Tables>, ops: seq<Op>, committed: seq<bool>,
                                         valid: DraftService.AddressCheck, a: Id, d: Id, i: nat, j: nat)
    returns (k: nat)
    requires IsRun(states, ops, committed, valid) && Inv(states[0]) && i <= j < |states|
    requires a in states[i].attachments && states[i].attachments[a].draft == Some(d)
    ensures i <= k <= j && RowStays(states, a, i, k)
    ensures forall l :: i <= l < k ==> !Releases(ops[l], committed[l], d)
    ensures k < j ==> Releases(ops[k], committed[k], d)
    ensures k < j && ops[k].ApproveDraft? ==>
              && a in states[j].attachments
              && states[j].attachments[a] ==
                  states[i].attachments[a].(message := Some(ops[k].drawn.message), draft := None)
    ensures k < j && ops[k].DeleteDraft? ==> a !in states[k + 1].attachments
    decreases j - i
  {
    k := i;
    if i < j && !Releases(ops[i], committed[i], d) {
      FollowsRow(states, ops, committed, valid, a, i);
      k := DraftFileFate(states, ops, committed, valid, a, d, i + 1, j);
    } else if i < j {
      FollowsRow(states, ops, committed, valid, a, i);
      if ops[i].ApproveDraft? {
        MessageFilesStay(states, ops, committed, valid, a, i + 1, j);
      }
    }
  }
}
