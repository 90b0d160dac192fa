/**
  One message row between the outbound worker, which may be redelivered its job, and the event
  consumer, whose updates may come at any moment.
 */
module OutboundProtocol {
  import opened Wrappers
  import opened Text
  import opened Database
  import opened OutboundStatus

  /**
    Begin: the first transaction commits. Accepted, Refused: SES answers. Record: the second transaction commits.
    Abandon: processRecord returns an error (a failed transaction, or the rollback after a refusal) and the job waits
    for redelivery; a finished job may be delivered again. Bounce, Complaint, Delivery: an event's update.
   */
  datatype Step = Begin | Accepted | Refused | Record | Abandon | Bounce | Complaint | Delivery

  datatype Worker = Waiting | Calling | Recording | Failing | Done

  datatype State = State(worker: Worker, status: MessageStatus)

  /** A message as Send and Approve create it. */
  const START := State(Waiting, Sending)

  function StatusStep(s: MessageStatus, step: Step): MessageStatus
  {
    match step
    case Begin => Sending
    case Bounce => Bounced
    case Complaint => Failed
    case Record => Settle(s)
    case Delivery => Settle(s)
    case _ => s
  }

  /** The worker's next position, if the step is its to take now. */
  function WorkerStep(w: Worker, step: Step): Option<Worker>
  {
    match (w, step)
    case (_, Bounce) => Some(w)
    case (_, Complaint) => Some(w)
    case (_, Delivery) => Some(w)
    case (Waiting, Begin) => Some(Calling)
    case (Done, Begin) => Some(Calling)
    case (Waiting, Abandon) => Some(Waiting)
    case (Calling, Accepted) => Some(Recording)
    case (Calling, Refused) => Some(Failing)
    case (Recording, Record) => Some(Done)
    case (Recording, Abandon) => Some(Waiting)
    case (Failing, Abandon) => Some(Waiting)
    case (_, _) => None
  }

  /** The state after an interleaving, if it is one. */
  function Run(steps: seq<Step>): Option<State>
  {
    if steps == [] then Some(START)
    else
      var n := |steps| - 1;
      match Run(steps[..n])
      case None => None
      case Some(s) =>
        match WorkerStep(s.worker, steps[n])
        case None => None
        case Some(w) => Some(State(w, StatusStep(s.status, steps[n])))
  }

  /** The status alone, after steps in this order. */
  function StatusAfter(steps: seq<Step>): MessageStatus
  {
    if steps == [] then Sending else StatusStep(StatusAfter(steps[..|steps| - 1]), steps[|steps| - 1])
  }

  lemma {:induction false} RunStatus(steps: seq<Step>)
    requires Run(steps).Some?
    ensures Run(steps).value.status == StatusAfter(steps)
  {
    if steps != [] {
      RunStatus(steps[..|steps| - 1]);
    }
  }

  const NEGATIVE: set<Step> := {Bounce, Complaint}
  const SETTLING: set<Step> := {Record, Delivery}

  /** No step after position i is one of the given; position -1 is the creation of the message. */
  ghost predicate NoneAfter(steps: seq<Step>, i: int, kinds: set<Step>)
  {
    forall j :: 0 <= j < |steps| && j > i ==> steps[j] !in kinds
  }

  ghost predicate SomeAfter(steps: seq<Step>, i: int, kinds: set<Step>)
  {
    exists j :: 0 <= j < |steps| && j > i && steps[j] in kinds
  }

  /** Position i starts the last attempt: the creation of the message or the last first transaction. */
  ghost predicate LastStart(steps: seq<Step>, i: int)
  {
    && -1 <= i < |steps|
    && (i >= 0 ==> steps[i] == Begin)
    && NoneAfter(steps, i, {Begin})
  }

  /** The last step of one kind, with nothing after it that would overwrite its status. */
  ghost predicate Standing(steps: seq<Step>, kind: Step, overwriting: set<Step>)
  {
    exists i :: 0 <= i < |steps| && steps[i] == kind && NoneAfter(steps, i, overwriting)
  }

  /** What the status is, told from the order of the steps alone. */
  ghost predicate Explained(steps: seq<Step>, b: int, status: MessageStatus)
  {
    match status
    case Bounced => Standing(steps, Bounce, {Begin, Complaint})
    case Failed => Standing(steps, Complaint, {Begin, Bounce})
    case Sent => NoneAfter(steps, b, NEGATIVE) && SomeAfter(steps, b, SETTLING)
    case Sending => NoneAfter(steps, b, NEGATIVE) && NoneAfter(steps, b, SETTLING)
    case Received => false
  }

  lemma {:induction false} LastStartExists(steps: seq<Step>) returns (b: int)
    ensures LastStart(steps, b)
  {
    if steps == [] {
      b := -1;
    } else {
      var n := |steps| - 1;
      b := LastStartExists(steps[..n]);
      if steps[n] == Begin {
        b := n;
      } else {
        assert forall j :: 0 <= j < n ==> steps[..n][j] == steps[j];
      }
    }
  }

  lemma NoneAfterGrows(steps: seq<Step>, i: int, kinds: set<Step>)
    requires steps != [] && i < |steps| - 1
    ensures NoneAfter(steps, i, kinds) <==> NoneAfter(steps[..|steps| - 1], i, kinds) && steps[|steps| - 1] !in kinds
  {
    var n := |steps| - 1;
    assert forall j :: 0 <= j < n ==> steps[..n][j] == steps[j];
  }

  lemma StandingGrows(steps: seq<Step>, kind: Step, overwriting: set<Step>)
    requires steps != [] && kind !in overwriting
    ensures Standing(steps, kind, overwriting) <==>
            steps[|steps| - 1] == kind
            || (Standing(steps[..|steps| - 1], kind, overwriting) && steps[|steps| - 1] !in overwriting)
  {
    var n := |steps| - 1;
    if steps[n] == kind {
      assert NoneAfter(steps, n, overwriting);
    }
    if steps[n] != kind && Standing(steps, kind, overwriting) {
      var i :| 0 <= i < |steps| && steps[i] == kind && NoneAfter(steps, i, overwriting);
      NoneAfterGrows(steps, i, overwriting);
      assert steps[..n][i] == kind;
    }
    if Standing(steps[..n], kind, overwriting) && steps[n] !in overwriting {
      var i :| 0 <= i < |steps[..n]| && steps[..n][i] == kind && NoneAfter(steps[..n], i, overwriting);
      NoneAfterGrows(steps, i, overwriting);
      assert steps[i] == kind;
    }
  }

  lemma SomeAfterGrows(steps: seq<Step>, i: int, kinds: set<Step>)
    requires steps != [] && i < |steps| - 1
    ensures SomeAfter(steps, i, kinds) <==> SomeAfter(steps[..|steps| - 1], i, kinds) || steps[|steps| - 1] in kinds
  {
    var n := |steps| - 1;
    assert forall j :: 0 <= j < n ==> steps[..n][j] == steps[j];
    if SomeAfter(steps[..n], i, kinds) {
      var j :| 0 <= j < n && j > i && steps[..n][j] in kinds;
      assert steps[j] in kinds;
    }
    if steps[n] in kinds {
      assert SomeAfter(steps, i, kinds);
    }
  }

  /** Over every interleaving with any redeliveries, the status is the one the order of the steps explains. */
  lemma {:induction false} StatusExplained(steps: seq<Step>, b: int, status: MessageStatus)
    requires LastStart(steps, b)
    ensures StatusAfter(steps) == status <==> Explained(steps, b, status)
    decreases |steps|
  {
    if steps != [] {
      var n := |steps| - 1;
      if status == Bounced {
        StandingGrows(steps, Bounce, {Begin, Complaint});
      }
      if status == Failed {
        StandingGrows(steps, Complaint, {Begin, Bounce});
      }
      if b < n {
        NoneAfterGrows(steps, b, {Begin});
        assert b >= 0 ==> steps[..n][b] == Begin;
        StatusExplained(steps[..n], b, status);
        if status == Sent || status == Sending {
          NoneAfterGrows(steps, b, NEGATIVE);
          NoneAfterGrows(steps, b, SETTLING);
          SomeAfterGrows(steps, b, SETTLING);
        }
        if status == Sent {
          StatusExplained(steps[..n], b, Sending);
        }
      }
    }
  }

  /**
    One attempt: a message that got a bounce or a complaint after the first transaction never ends
    as sent, and one that got neither and whose acceptance was recorded always does.
   */
  lemma OneAttempt(steps: seq<Step>, b: nat)
    requires Run(steps).Some?
    requires b < |steps| && steps[b] == Begin && NoneAfter(steps, b, {Begin})
    ensures SomeAfter(steps, b, NEGATIVE) ==> Run(steps).value.status in {Bounced, Failed}
    ensures NoneAfter(steps, b, NEGATIVE) && Run(steps).value.worker == Done ==> Run(steps).value.status == Sent
  {
    RunStatus(steps);
    StatusExplained(steps, b, Sent);
    StatusExplained(steps, b, Sending);
    StatusExplained(steps, b, Received);
    if Run(steps).value.worker == Done {
      DoneRecorded(steps, b);
    }
  }

  /** A finished worker recorded its acceptance after the last start. */
  lemma {:induction false} DoneRecorded(steps: seq<Step>, b: int)
    requires Run(steps).Some? && LastStart(steps, b)
    ensures Run(steps).value.worker == Done ==> SomeAfter(steps, b, SETTLING)
    decreases |steps|
  {
    if steps != [] && b < |steps| - 1 {
      var n := |steps| - 1;
      NoneAfterGrows(steps, b, {Begin});
      assert b >= 0 ==> steps[..n][b] == Begin;
      DoneRecorded(steps[..n], b);
      SomeAfterGrows(steps, b, SETTLING);
    }
  }

  /**
    With redelivery, a message that got a bounce or a complaint keeps that outcome if and only if no first
    transaction commits after its last bounce or complaint.
   */
  lemma NegativeKeptIff(steps: seq<Step>, last: nat)
    requires Run(steps).Some?
    requires last < |steps| && steps[last] in NEGATIVE && NoneAfter(steps, last, NEGATIVE)
    ensures Run(steps).value.status in {Bounced, Failed} <==> NoneAfter(steps, last, {Begin})
  {
    RunStatus(steps);
    var b := LastStartExists(steps);
    StatusExplained(steps, b, Bounced);
    StatusExplained(steps, b, Failed);
    if NoneAfter(steps, last, {Begin}) {
      assert Standing(steps, steps[last], {Begin} + NEGATIVE - {steps[last]}) by {
        assert NoneAfter(steps, last, {Begin} + NEGATIVE - {steps[last]});
      }
      assert {Begin} + NEGATIVE - {Bounce} == {Begin, Complaint};
      assert {Begin} + NEGATIVE - {Complaint} == {Begin, Bounce};
    } else {
      var j :| 0 <= j < |steps| && j > last && steps[j] == Begin;
      NotStanding(steps, Bounce, {Begin, Complaint}, last, j);
      NotStanding(steps, Complaint, {Begin, Bounce}, last, j);
    }
  }

  lemma NotStanding(steps: seq<Step>, kind: Step, overwriting: set<Step>, last: nat, j: nat)
    requires last < j < |steps| && steps[j] in overwriting && kind in NEGATIVE && NoneAfter(steps, last, NEGATIVE)
    ensures !Standing(steps, kind, overwriting)
  {
    forall i | 0 <= i < |steps| && steps[i] == kind
      ensures !NoneAfter(steps, i, overwriting)
    {
      assert i <= last;
    }
  }

  /** The overwrite happens: SES accepts, the record is lost, the mail bounces, the job is redelivered. */
  lemma BounceCanBeLost()
    ensures Run([Begin, Accepted, Abandon, Bounce, Begin, Accepted, Record]) == Some(State(Done, Sent))
  {
    var s1 := [Begin];
    RunPush([], Begin);
    assert [] + [Begin] == s1;
    RunPush(s1, Accepted);
    var s3 := s1 + [Accepted] + [Abandon];
    RunPush(s1 + [Accepted], Abandon);
    RunPush(s3, Bounce);
    var s5 := s3 + [Bounce] + [Begin];
    RunPush(s3 + [Bounce], Begin);
    RunPush(s5, Accepted);
    RunPush(s5 + [Accepted], Record);
    assert s5 + [Accepted] + [Record] == [Begin, Accepted, Abandon, Bounce, Begin, Accepted, Record];
  }

  lemma RunPush(steps: seq<Step>, step: Step)
    requires Run(steps).Some? && WorkerStep(Run(steps).value.worker, step).Some?
    ensures Run(steps + [step]) ==
            Some(State(WorkerStep(Run(steps).value.worker, step).value, StatusStep(Run(steps).value.status, step)))
  {
    assert (steps + [step])[..|steps|] == steps;
  }

  /** A refusal by SES is never recorded: a row ends as failed only after a complaint event. */
  lemma RefusalLeavesNoFailure(steps: seq<Step>)
    requires Run(steps).Some? && Run(steps).value.status == Failed
    ensures Complaint in steps
  {
    RunStatus(steps);
    var b := LastStartExists(steps);
    StatusExplained(steps, b, Failed);
  }

  /** SES refuses the only attempt, and the row goes on saying that it is being sent. */
  lemma RefusedStaysSending()
    ensures Run([Begin, Refused, Abandon]) == Some(State(Waiting, Sending))
  {
    RunPush([], Begin);
    assert [] + [Begin] == [Begin];
    RunPush([Begin], Refused);
    RunPush([Begin] + [Refused], Abandon);
    assert [Begin] + [Refused] + [Abandon] == [Begin, Refused, Abandon];
  }

  // ---- The table updates move one row as the protocol says ----

  /** t' is t with another row for message id. */
  ghost predicate OneRow(t: Tables, t': Tables, id: Id, row: Message)
  {
    id in t.messages && t' == t.(messages := t.messages[id := row])
  }

  /** The first transaction: the organisation's message starts an attempt, and nothing else changes. */
  lemma StartIsBegin(t: Tables, org: Id, id: Id)
    requires StartOutcome(t, org, id).Success?
    ensures id in t.messages && t.messages[id].org == org
    ensures
      var before := t.messages[id];
      OneRow(t, StartOutcome(t, org, id).value, id, before.(status := StatusStep(before.status, Begin)))
  {
  }

  /** The second transaction of an accepted message: the record and its time, and nothing else. */
  lemma SentAtIsRecord(t: Tables, id: Id, now: Time)
    requires WithSentAt(t, id, now).Success?
    ensures id in t.messages
    ensures
      var before := t.messages[id];
      OneRow(t, WithSentAt(t, id, now).value, id,
             before.(status := StatusStep(before.status, Record), sentAt := Some(now)))
  {
  }

  function StepOf(n: Notice): Step
  {
    match n
    case BounceNotice => Bounce
    case ComplaintNotice => Complaint
    case DeliveryNotice => Delivery
  }

  /** An event reaches exactly the rows that carry its header. */
  lemma NoticeIsStep(t: Tables, header: Bytes, n: Notice, now: Time, id: Id)
    requires id in t.messages
    ensures
      var t' := WithNotice(t, header, n, now);
      && id in t'.messages
      && t'.messages[id].status ==
         (if t.messages[id].header == header then StatusStep(t.messages[id].status, StepOf(n))
          else t.messages[id].status)
  {
  }

  const NOTICED: set<Bytes> :=
    {"Email Bounced", "Email Complaint Received", "Email Rejected", "Email Rendering Failed", "Email Delivered"}

  /** The types of notifications and the machine's steps. */
  lemma EventIsStep(t: Tables, t': Tables, kind: Bytes, header: Bytes, now: Time, id: Id)
    requires OnlyTold(t, t', kind, header, now) && id in t.messages && t.messages[id].header == header
    ensures id in t'.messages
    ensures
      var before, after := t.messages[id].status, t'.messages[id].status;
      && (kind == "Email Bounced" ==> after == StatusStep(before, Bounce))
      && (kind in {"Email Complaint Received", "Email Rejected", "Email Rendering Failed"} ==>
            after == StatusStep(before, Complaint))
      && (kind == "Email Delivered" ==> after == StatusStep(before, Delivery))
      && (kind !in NOTICED ==> after == before)
  {
  }
}
