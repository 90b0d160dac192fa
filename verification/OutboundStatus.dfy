/** The two transactions of the outbound worker and the status updates of the SES event consumer. */
module OutboundStatus {
  import opened Wrappers
  import opened Text
  import opened Database

  // ---- Row updates ----

  /** CASE WHEN status = 'sending' THEN 'sent' ELSE status END */
  function Settle(s: MessageStatus): MessageStatus
  {
    if s == Sending then Sent else s
  }

  datatype Notice = BounceNotice | ComplaintNotice | DeliveryNotice

  function Noticed(m: Message, n: Notice, now: Time): Message
  {
    match n
    case BounceNotice => m.(status := Bounced)
    case ComplaintNotice => m.(status := Failed)
    case DeliveryNotice => m.(sentAt := Some(now), status := Settle(m.status))
  }

  /** UpdateMessageStatus */
  function WithStatus(t: Tables, id: Id, status: MessageStatus): Result<Tables, Error>
  {
    if id !in t.messages then Failure(NotFound)
    else Success(t.(messages := t.messages[id := t.messages[id].(status := status)]))
  }

  /** UpdateMessageSentAt */
  function WithSentAt(t: Tables, id: Id, now: Time): Result<Tables, Error>
  {
    if id !in t.messages then Failure(NotFound)
    else
      var m := t.messages[id];
      Success(t.(messages := t.messages[id := m.(status := Settle(m.status), sentAt := Some(now))]))
  }

  /** The UPDATE of the event consumer: every row that carries the header. */
  function WithNotice(t: Tables, header: Bytes, n: Notice, now: Time): Tables
  {
    t.(messages := map id | id in t.messages ::
                     if t.messages[id].header == header then Noticed(t.messages[id], n, now) else t.messages[id])
  }

  // ---- The outbound worker ----

  function StartOutcome(t: Tables, org: Id, id: Id): Result<Tables, Error>
  {
    var _ :- t.GetMessage(org, id);
    WithStatus(t, id, Sending)
  }

  /** The transaction before the call to SES: load the message and mark it as sending. */
  method StartSending(db: Connection, org: Id, id: Id) returns (r: Result<Message, Error>)
    modifies db
    ensures r.Success? ==> StartOutcome(old(db.tables), org, id) == Success(db.tables)
    ensures r.Failure? ==> db.tables == old(db.tables)
    ensures db.Reliable() && r.Failure? ==> StartOutcome(old(db.tables), org, id) == Failure(r.error)
  {
    var begun := db.Begin();
    if !begun {
      return Failure(Unavailable);
    }
    r := db.Query(db.tables.GetMessage(org, id));
    if r.Failure? {
      db.Rollback();
      return;
    }
    var done := db.Exec(WithStatus(db.tables, id, Sending));
    if done.Failure? {
      db.Rollback();
      return Failure(done.error);
    }
    var committed := db.Commit();
    if !committed {
      r := Failure(Unavailable);
    }
  }

  /**
    The transaction after the call to SES. After a rejection it writes 'failed' and then returns
    the rejection as its error, so the write is rolled back.
   */
  method FinishSending(db: Connection, id: Id, accepted: bool, now: Time) returns (r: Result<(), Error>)
    modifies db
    ensures !accepted ==> r.Failure?
    ensures r.Success? ==> WithSentAt(old(db.tables), id, now) == Success(db.tables)
    ensures r.Failure? ==> db.tables == old(db.tables)
    ensures db.Reliable() && accepted && r.Failure? ==> WithSentAt(old(db.tables), id, now) == Failure(r.error)
  {
    var begun := db.Begin();
    if !begun {
      return Failure(Unavailable);
    }
    if !accepted {
      var marked := db.Exec(WithStatus(db.tables, id, Failed));
      db.Rollback();
      return Failure(if marked.Failure? then marked.error else BadRequest);
    }
    r := db.Exec(WithSentAt(db.tables, id, now));
    if r.Failure? {
      db.Rollback();
      return;
    }
    var committed := db.Commit();
    if !committed {
      r := Failure(Unavailable);
    }
  }

  /** A record of the queue; anything that does not parse is dropped as done. */
  datatype Job = Malformed | Job(org: Id, message: Id)

  /** processRecord when nothing else touches the row: retry says that the record is reported as failed. */
  method ProcessRecord(db: Connection, job: Job, accepted: bool, now: Time) returns (retry: bool)
    modifies db
    ensures job.Malformed? ==> !retry && db.tables == old(db.tables)
    ensures job.Job? && !retry ==>
              && accepted
              && job.message in db.tables.messages
              && db.tables.messages[job.message].status == Sent
              && db.tables ==
                  old(db.tables).(messages := old(db.tables).messages[job.message := db.tables.messages[job.message]])
    ensures job.Job? && retry ==>
            db.tables == old(db.tables) || StartOutcome(old(db.tables), job.org, job.message) == Success(db.tables)
    ensures job.Job? && !accepted ==> retry
    ensures db.Reliable() && job.Job? && accepted && old(db.tables).GetMessage(job.org, job.message).Success? ==> !retry
  {
    if job.Malformed? {
      return false;
    }
    var started := StartSending(db, job.org, job.message);
    if started.Failure? {
      return true;
    }
    var finished := FinishSending(db, job.message, accepted, now);
    retry := finished.Failure?;
  }

  // ---- The SES event consumer ----

  datatype MailHeader = MailHeader(name: Bytes, value: Bytes)

  datatype SesEvent = MalformedEvent | SesEvent(detailType: Bytes, headers: seq<MailHeader>)

  ghost predicate IsMessageIdName(name: Bytes)
  {
    name in {"Message-ID", "Message-Id"}
  }

  ghost function StripBrackets(v: Bytes): Bytes
  {
    if |v| > 2 && v[0] == '<' then v[1..|v| - 1] else v
  }

  ghost predicate FirstNamed(headers: seq<MailHeader>, i: nat)
  {
    && i < |headers| && IsMessageIdName(headers[i].name)
    && forall j :: 0 <= j < i ==> !IsMessageIdName(headers[j].name)
  }

  /** The loop over the headers: the first Message-ID, without its brackets. */
  method FindMessageId(headers: seq<MailHeader>) returns (id: Bytes)
    ensures forall i: nat :: FirstNamed(headers, i) ==> id == StripBrackets(headers[i].value)
    ensures (forall i :: 0 <= i < |headers| ==> !IsMessageIdName(headers[i].name)) ==> id == []
  {
    id := [];
    for i := 0 to |headers|
      invariant id == [] && forall j :: 0 <= j < i ==> !IsMessageIdName(headers[j].name)
    {
      if headers[i].name == "Message-ID" || headers[i].name == "Message-Id" {
        id := headers[i].value;
        if |id| > 2 && id[0] == '<' {
          id := id[1..|id| - 1];
        }
        assert FirstNamed(headers, i);
        break;
      }
    }
  }

  /** The header that the mail builder writes for a non-empty id is read back as that id. */
  lemma BracketsUndone(id: Bytes)
    requires id != []
    ensures StripBrackets(['<'] + id + ['>']) == id
  {
    var v: Bytes := ['<'] + id + ['>'];
    assert v[1..|v| - 1] == id;
  }

  /** The status change a notification type stands for, if any. */
  function NoticeOf(detailType: Bytes): Option<Notice>
  {
    if detailType == "Email Bounced" then Some(BounceNotice)
    else if detailType == "Email Complaint Received" || detailType == "Email Rejected"
    || detailType == "Email Rendering Failed"
    then Some(ComplaintNotice)
    else if detailType == "Email Delivered" then Some(DeliveryNotice)
    else None
  }

  /** The row of a message after a notification of the given type that names it. */
  function Told(before: Message, kind: Bytes, now: Time): Message
  {
    if kind == "Email Bounced" then before.(status := Bounced)
    else if kind in {"Email Complaint Received", "Email Rejected", "Email Rendering Failed"}
        then before.(status := Failed)
    else if kind == "Email Delivered" then
      before.(sentAt := Some(now), status := if before.status == Sending then Sent else before.status)
    else before
  }

  /** Exactly the messages with the header are told, and nothing else about them or any other row changes. */
  ghost predicate OnlyTold(t: Tables, t': Tables, kind: Bytes, header: Bytes, now: Time)
  {
    && t' == t.(messages := t'.messages) && t'.messages.Keys == t.messages.Keys
    && forall m :: m in t.messages ==>
         t'.messages[m] == if t.messages[m].header == header then Told(t.messages[m], kind, now) else t.messages[m]
  }

  lemma NoticeTells(t: Tables, kind: Bytes, header: Bytes, now: Time)
    ensures OnlyTold(t, if NoticeOf(kind).None? then t
                     else WithNotice(t, header, NoticeOf(kind).value, now), kind, header,
                     now)
  {
  }

  method ProcessEvent(db: Connection, event: SesEvent, now: Time) returns (retry: bool)
    modifies db
    ensures event.MalformedEvent? ==> !retry && db.tables == old(db.tables)
    ensures retry ==> db.tables == old(db.tables)
    ensures db.Reliable() ==> !retry
    ensures event.SesEvent? && (forall i :: 0 <= i < |event.headers| ==> !IsMessageIdName(event.headers[i].name)) ==>
              !retry && db.tables == old(db.tables)
    ensures event.SesEvent? && !retry ==>
              forall i: nat :: FirstNamed(event.headers, i) ==>
                var id := StripBrackets(event.headers[i].value);
                if id == [] then db.tables == old(db.tables)
                else OnlyTold(old(db.tables), db.tables, event.detailType, id, now)
  {
    if event.MalformedEvent? {
      return false;
    }
    var id := FindMessageId(event.headers);
    if id == [] {
      return false;
    }
    NoticeTells(db.tables, event.detailType, id, now);
    var notice := NoticeOf(event.detailType);
    if notice.None? {
      return false;
    }
    var up := db.Alone();
    if !up {
      return true;
    }
    db.tables := WithNotice(db.tables, id, notice.value, now);
    retry := false;
  }
}
