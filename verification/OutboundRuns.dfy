/** The status of one message along whole runs of the platform: the outbound protocol, with everything else going on. */
module OutboundRuns {
  import opened Wrappers
  import opened Text
  import opened Database
  import opened TableInvariants
  import opened Runs
  import opened OutboundProtocol
  import DraftService
  import DraftStore
  import EmailInbound
  import MessageService
  import OutboundStatus
  import Uploads

  /** What an operation of a run is to message m, which carries the given header. */
  function StepFor(op: Op, committed: bool, m: Id, header: Bytes): seq<Step>
  {
    if !committed then []
    else
      match op
      case StartSending(_, message) => if message == m then [Begin] else []
      case FinishSending(message, _) => if message == m then [Record] else []
      case NoticeSes(h, notice, _) => if h == header then [StepOf(notice)] else []
      case _ => []
  }

  /** The steps of message m among the operations from the i-th up to the j-th. */
  function Projected(ops: seq<Op>, committed: seq<bool>, m: Id, header: Bytes, i: nat, j: nat): seq<Step>
    requires i <= j <= |ops| == |committed|
  {
    if i == j then []
    else Projected(ops, committed, m, header, i, j - 1) + StepFor(ops[j - 1], committed[j - 1], m, header)
  }

  ghost predicate Moves(before: Message, after: Message, steps: seq<Step>)
  {
    after.header == before.header
    && after.status == if steps == [] then before.status else StatusStep(before.status, steps[0])
  }

  lemma StatusOpMoves(t: Tables, op: Op, valid: DraftService.AddressCheck, m: Id)
    requires op.StartSending? || op.FinishSending? || op.NoticeSes?
    requires Apply(op, t, valid).Success? && m in t.messages
    ensures
      var t' := Apply(op, t, valid).value;
      m in t'.messages && Moves(t.messages[m], t'.messages[m], StepFor(op, true, m, t.messages[m].header))
  {
  }

  /** The other operations write no row of a message that is there. */
  lemma OthersKeepMessages(t: Tables, op: Op, valid: DraftService.AddressCheck, m: Id)
    requires !op.StartSending? && !op.FinishSending? && !op.NoticeSes?
    requires Inv(t) && Apply(op, t, valid).Success? && m in t.messages
    ensures
      var t' := Apply(op, t, valid).value;
      m in t'.messages && t'.messages[m] == t.messages[m]
  {
    match op
    case CreateDraft(org, req, draft, drawn, now) => CreateShape(t, org, req, draft, drawn, now, valid);
    case UpdateDraft(org, draft, req, drawn, now) => UpdateDrafts(t, org, draft, req, drawn, now, valid);
    case DeleteDraft(org, draft) =>
    case ApproveDraft(org, draft, note, reviewer, drawn, now) =>
      ApproveShape(t, org, draft, note, reviewer, drawn, now);
    case RejectDraft(org, draft, note, reviewer, now) =>
    case SendMessage(_, _, _, _, _) => OpDelivers(t, op, valid);
    case ReplyToAll(_, _, _, _, _, _, _) => OpDelivers(t, op, valid);
    case Ingest(_, _, _, _, _, _, _) => OpDelivers(t, op, valid);
  }

  lemma StepMoves(t: Tables, t': Tables, op: Op, committed: bool, valid: DraftService.AddressCheck, m: Id)
    requires Inv(t) && Follows(t, t', op, committed, valid) && m in t.messages
    ensures m in t'.messages && Moves(t.messages[m], t'.messages[m], StepFor(op, committed, m, t.messages[m].header))
  {
    if committed {
      if op.StartSending? || op.FinishSending? || op.NoticeSes? {
        StatusOpMoves(t, op, valid, m);
      } else {
        OthersKeepMessages(t, op, valid, m);
      }
    }
  }

  lemma StatusAfterPush(steps: seq<Step>, more: seq<Step>)
    requires |more| <= 1
    ensures StatusAfter(steps + more) ==
            if more == [] then StatusAfter(steps) else StatusStep(StatusAfter(steps), more[0])
  {
    if more == [] {
      assert steps + more == steps;
    } else {
      assert (steps + more)[..|steps|] == steps;
    }
  }

  /**
    A message that is being sent at one state has, at any later one, the status that its own steps in between lead to.
   */
  lemma {:induction false} StatusOverRun(states: seq<Tables>, ops: seq<Op>, committed: seq<bool>,
                                         valid: DraftService.AddressCheck, m: Id, i: nat, j: nat)
    requires IsRun(states, ops, committed, valid) && Inv(states[0]) && i <= j < |states|
    requires m in states[i].messages && states[i].messages[m].status == Sending
    ensures m in states[j].messages && states[j].messages[m].header == states[i].messages[m].header
    ensures states[j].messages[m].status ==
            StatusAfter(Projected(ops, committed, m, states[i].messages[m].header, i, j))
    decreases j - i
  {
    if i < j {
      StatusOverRun(states, ops, committed, valid, m, i, j - 1);
      RunKeepsInvariant(states, ops, committed, valid, j - 1);
      assert Follows(states[j - 1], states[j], ops[j - 1], committed[j - 1], valid);
      StepMoves(states[j - 1], states[j], ops[j - 1], committed[j - 1], valid, m);
      var header := states[i].messages[m].header;
      StatusAfterPush(Projected(ops, committed, m, header, i, j - 1), StepFor(ops[j - 1], committed[j - 1], m, header));
    }
  }

  ghost predicate Posting(op: Op)
  {
    op.ApproveDraft? || op.SendMessage? || op.ReplyToAll?
  }

  /** Approvals and sends leave their message as one to be sent. */
  lemma PostedSending(t: Tables, op: Op, valid: DraftService.AddressCheck)
    requires Posting(op) && Inv(t) && Apply(op, t, valid).Success?
    ensures
      var t', m := Apply(op, t, valid).value, op.drawn.message;
      m in t'.messages && t'.messages[m].status == Sending && t'.messages[m].header == op.drawn.header
  {
    match op
    case ApproveDraft(org, draft, note, reviewer, drawn, now) =>
      ApproveShape(t, org, draft, note, reviewer, drawn, now);
    case SendMessage(org, inbox, req, drawn, now) =>
      SendDelivers(t, org, inbox, req, Uploads.Files(req.attachments, |req.attachments|).value, drawn, now);
    case ReplyToAll(org, inbox, original, req, fold, drawn, now) =>
      var send := MessageService.ReplyAllSend(t.messages[original], original, t.inboxes[inbox], req, fold);
      SendDelivers(t, org, inbox, send, Uploads.Files(send.attachments, |send.attachments|).value, drawn, now);
  }

  /**
    From the operation that posts a message on, whatever else the platform does in between, the message has the
    status that the order of its starts, records and notices explains.
   */
  lemma RunExplained(states: seq<Tables>, ops: seq<Op>, committed: seq<bool>, valid: DraftService.AddressCheck,
                     i: nat, j: nat, b: int, status: MessageStatus)
    requires IsRun(states, ops, committed, valid) && Inv(states[0]) && i < j < |states|
    requires committed[i] && Posting(ops[i])
    requires LastStart(Projected(ops, committed, ops[i].drawn.message, ops[i].drawn.header, i + 1, j), b)
    ensures
      var m := ops[i].drawn.message;
      var steps := Projected(ops, committed, m, ops[i].drawn.header, i + 1, j);
      m in states[j].messages && (states[j].messages[m].status == status <==> Explained(steps, b, status))
  {
    var m := ops[i].drawn.message;
    RunKeepsInvariant(states, ops, committed, valid, i);
    assert Follows(states[i], states[i + 1], ops[i], committed[i], valid);
    PostedSending(states[i], ops[i], valid);
    StatusOverRun(states, ops, committed, valid, m, i + 1, j);
    StatusExplained(Projected(ops, committed, m, ops[i].drawn.header, i + 1, j), b, status);
  }
}
