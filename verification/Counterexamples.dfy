/**
  Concrete runs and mails in which a promise of the platform is broken; the conditions are proved with the operations.
 */
module Counterexamples {
  import opened Wrappers
  import opened Text
  import opened Database
  import opened TableInvariants
  import opened Runs
  import DraftService
  import DraftScheduler
  import EmailInbound

  const REPLY: DraftService.CreateRequest :=
    DraftService.CreateRequest(1, None, [], [Address(['@'], [])], [], [], [], [], ['r'], None, None, [])

  const NO_RECIPIENTS: DraftService.UpdateRequest :=
    DraftService.UpdateRequest(None, Some([]), None, None, None, None, None, None, None)

  /** Two inboxes of organisation 7. */
  function TwoInboxes(): Tables
  {
    Tables(map[1 := Inbox(7, ['i'], [], true), 2 := Inbox(7, ['j'], [], true)], map[], map[], map[], map[])
  }

  /** Approval of a draft of organisation 7 as the scheduler does it. */
  function Approval(drawn: Drawn): Op
  {
    ApproveDraft(7, 5, DraftScheduler.NOTE, DraftScheduler.NOBODY, drawn, 0)
  }

  /** After the creation of draft 5. */
  function Created(): Tables
  {
    TwoInboxes().(drafts := map[5 := DraftService.NewDraft(7, REPLY, 0)])
  }

  lemma CreatesReply(drawn: Drawn, valid: DraftService.AddressCheck)
    requires valid(['@'])
    ensures Inv(TwoInboxes()) && Inv(Created())
    ensures Follows(TwoInboxes(), Created(), CreateDraft(7, REPLY, 5, drawn, 0), true, valid)
  {
    EmptyIsSound(TwoInboxes().inboxes);
    assert DraftService.CreateOutcome(TwoInboxes(), 7, REPLY, 5, drawn, 0, valid) == Success(Created());
    CreateKeeps(TwoInboxes(), 7, REPLY, 5, drawn, 0, valid);
  }

  lemma EmptiesRecipients(drawn: Drawn, valid: DraftService.AddressCheck) returns (t: Tables)
    requires valid(['@'])
    ensures Inv(t) && Follows(Created(), t, UpdateDraft(7, 5, NO_RECIPIENTS, drawn, 0), true, valid)
    ensures t.inboxes == TwoInboxes().inboxes && t.threads == map[] && t.messages == map[]
    ensures 5 in t.drafts && t.drafts[5] == DraftService.NewDraft(7, REPLY, 0).(to := [])
  {
    CreatesReply(drawn, valid);
    t := DraftService.UpdateOutcome(Created(), 7, 5, NO_RECIPIENTS, drawn, 0, valid).value;
    UpdateKeeps(Created(), 7, 5, NO_RECIPIENTS, drawn, 0, valid);
  }

  /** Draft 5 goes through; its message says what the draft says, and replies to nothing. */
  lemma Approves5(t: Tables, drawn: Drawn, valid: DraftService.AddressCheck) returns (t': Tables)
    requires Inv(t) && t.inboxes == TwoInboxes().inboxes && t.threads == map[] && t.messages == map[]
    requires 5 in t.drafts && exists to :: t.drafts[5] == DraftService.NewDraft(7, REPLY, 0).(to := to)
    ensures Follows(t, t', Approval(drawn), true, valid)
    ensures drawn.message in t'.messages && Carries(t'.messages[drawn.message], t.drafts[5])
  {
    DraftScheduler.ApprovalSucceedsIff(t, DraftScheduler.DueDraft(5, 7), drawn, 0);
    ApproveShape(t, 7, 5, DraftScheduler.NOTE, DraftScheduler.NOBODY, drawn, 0);
    t' := DraftService.ApproveOutcome(t, 7, 5, DraftScheduler.NOTE, DraftScheduler.NOBODY, drawn, 0).value;
  }

  lemma ThreeSteps(a: Tables, b: Tables, c: Tables, d: Tables, x: Op, y: Op, z: Op, valid: DraftService.AddressCheck)
    requires Follows(a, b, x, true, valid) && Follows(b, c, y, true, valid) && Follows(c, d, z, true, valid)
    ensures IsRun([a, b, c, d], [x, y, z], [true, true, true], valid)
  {
  }

  /** A draft created in reply to something is approved, and the message replies to nothing. */
  lemma ReplyHeaderLost(drawn: Drawn, valid: DraftService.AddressCheck) returns (states: seq<Tables>, ops: seq<Op>)
    requires valid(['@'])
    ensures IsRun(states, ops, [true, true], valid) && Inv(states[0])
    ensures |ops| == 2 && ops[0].CreateDraft? && ops[0].create.inReplyTo != []
    ensures ops[1].ApproveDraft? && ops[1].draft == ops[0].draft
    ensures
      var m := ops[1].drawn.message;
      m in states[2].messages && states[2].messages[m].inReplyTo == []
  {
    CreatesReply(drawn, valid);
    assert Created().drafts[5] == DraftService.NewDraft(7, REPLY, 0).(to := REPLY.to);
    var t := Approves5(Created(), drawn, valid);
    states, ops := [TwoInboxes(), Created(), t], [CreateDraft(7, REPLY, 5, drawn, 0), Approval(drawn)];
  }

  /** A draft that was created with a recipient is approved to nobody. */
  lemma RecipientsEmptied(drawn: Drawn, valid: DraftService.AddressCheck) returns (states: seq<Tables>, ops: seq<Op>)
    requires valid(['@'])
    ensures IsRun(states, ops, [true, true, true], valid) && Inv(states[0])
    ensures |ops| == 3 && ops[0].CreateDraft? && ops[0].create.to != [] && ops[1].UpdateDraft?
            && ops[1].draft == ops[0].draft
    ensures ops[2].ApproveDraft? && ops[2].draft == ops[0].draft
    ensures
      var m := ops[2].drawn.message;
      m in states[3].messages && states[3].messages[m].outbound && states[3].messages[m].to == []
  {
    CreatesReply(drawn, valid);
    var t := EmptiesRecipients(drawn, valid);
    var t' := Approves5(t, drawn, valid);
    var create, update := CreateDraft(7, REPLY, 5, drawn, 0), UpdateDraft(7, 5, NO_RECIPIENTS, drawn, 0);
    ThreeSteps(TwoInboxes(), Created(), t, t', create, update, Approval(drawn), valid);
    states, ops := [TwoInboxes(), Created(), t, t'], [create, update, Approval(drawn)];
  }

  /** Organisation 7 has sent message 20, with id "h", from inbox 1. */
  function OneSent(): Tables
  {
    TwoInboxes().(
      threads := map[10 := Thread(7, 1, [], [], Open, true, false, 1, [], Some(0), 0)],
      messages := map[20 := Message(7, 1, 10, ['h'], [], [], true, Sent, Address(['i'], []), [], [], [], [], [], false,
                                    Some(0), 0)])
  }

  /** A reply to it that reaches the organisation's other inbox opens a thread of its own. */
  lemma ReplyElsewhere(match': Id, drawn: Drawn)
    requires drawn.thread != 10 && drawn.message != 20
    ensures
      var t, mail := OneSent(), EmailInbound.Mail(['r'], ['h'], [], Address([], []), [], [], [], [], []);
      var r := EmailInbound.IngestTxOutcome(t, 2, mail, [], match', drawn, 1);
      && Inv(t) && r.Success? && drawn.message in r.value.messages
      && r.value.messages[drawn.message].thread != t.messages[20].thread
  {
    var t, mail := OneSent(), EmailInbound.Mail(['r'], ['h'], [], Address([], []), [], [], [], [], []);
    assert InThread(t.messages, 10) == {20};
    assert Linked(t) && Counted(t) && Reviewed(t);
    assert Faithful(t) && Owned(t) && Flagged(t);
    assert EmailInbound.Matches(t, 7, 2, EmailInbound.LookupIds(mail)) == {};
  }
}
