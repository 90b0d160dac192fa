/** Sending, replying to all and forwarding. */
module MessageService {
  import opened Wrappers
  import opened Text
  import opened Database
  import opened Uploads
  import DraftService
  import Recipients

  type Drawn = DraftService.Drawn

  const MAX_ATTACHMENT_BYTES := 10 * 1024 * 1024

  datatype SendRequest = SendRequest(
    to: seq<Address>, cc: seq<Address>, bcc: seq<Address>, subject: Bytes, bodyText: Bytes, bodyHtml: Bytes,
    replyTo: Option<Id>, metadata: Option<Bytes>, attachments: seq<AttachmentRequest>)

  predicate SmallEnough(files: seq<File>)
  {
    forall i :: 0 <= i < |files| ==> files[i].size <= MAX_ATTACHMENT_BYTES
  }

  /** The attachments of a request that may be sent. */
  predicate AttachableAll(atts: seq<AttachmentRequest>)
  {
    var files := Files(atts, |atts|);
    files.Success? && SmallEnough(files.value)
  }

  /** The checks before anything is stored. */
  predicate Sendable(req: SendRequest)
  {
    && req.to != []
    && (forall i :: 0 <= i < |req.to| ==> req.to[i].email != [] && '@' in req.to[i].email)
    && (req.bodyText != [] || req.bodyHtml != [])
    && AttachableAll(req.attachments)
  }

  ghost function NewThread(org: Id, inbox: Id, row: Inbox, req: SendRequest, now: Time): Thread
  {
    Thread(org, inbox, req.subject, DraftService.SnippetFrom(req.bodyText), Open, true, false, 0,
           Recipients.Participants([Address(row.email, row.displayName)] + req.to + req.cc), None, now)
  }

  /** The thread and threading headers of the new message. */
  datatype Placement = Placement(tables: Tables, thread: Id, inReplyTo: Bytes, references: seq<Bytes>)

  ghost function Place(t: Tables, org: Id, inbox: Id, row: Inbox, req: SendRequest, drawn: Drawn,
                       now: Time): Result<Placement, Error>
  {
    match req.replyTo
    case Some(p) =>
      var parent :- t.GetMessage(org, p);
      var _ :- t.GetThread(org, parent.thread);
      Success(Placement(t, parent.thread, parent.header, parent.references + [parent.header]))
    case None =>
      var t' :- t.InsertThread(drawn.thread, NewThread(org, inbox, row, req, now));
      Success(Placement(t', drawn.thread, [], []))
  }

  function OutboundMessage(org: Id, inbox: Id, row: Inbox, req: SendRequest, thread: Id, inReplyTo: Bytes,
                           references: seq<Bytes>, header: Bytes, hasAttachments: bool, now: Time): Message
  {
    Message(org, inbox, thread, header, inReplyTo, references, true, Sending, Address(row.email, row.displayName),
            req.to, req.cc, req.bcc, req.subject,
            if req.metadata.Some? then req.metadata.value else DraftService.NO_METADATA,
            hasAttachments, Some(now), now)
  }

  /** What the transaction of Send does, with the files already stored. */
  ghost function SendTxOutcome(t: Tables, org: Id, inbox: Id, req: SendRequest, files: seq<File>, drawn: Drawn,
                               now: Time): Result<Tables, Error>
  {
    var row :- t.GetInbox(org, inbox);
    var place :- Place(t, org, inbox, row, req, drawn, now);
    var msg := OutboundMessage(org, inbox, row, req, place.thread, place.inReplyTo, place.references, drawn.header,
                               files != [], now);
    var created :- place.tables.InsertMessage(drawn.message, msg);
    var attached :- AddFiles(created, org, Some(drawn.message), None, files, drawn.attachments, 0, now);
    Success(attached.BumpThread(place.thread, now, DraftService.SnippetFrom(req.bodyText)))
  }

  ghost function SendOutcome(t: Tables, org: Id, inbox: Id, req: SendRequest, drawn: Drawn,
                             now: Time): Result<Tables, Error>
  {
    if !Sendable(req) then Failure(BadRequest)
    else SendTxOutcome(t, org, inbox, req, Files(req.attachments, |req.attachments|).value, drawn, now)
  }

  method CheckAttachments(atts: seq<AttachmentRequest>) returns (ok: bool)
    ensures ok <==> AttachableAll(atts)
  {
    ghost var sofar: seq<File> := [];
    for i := 0 to |atts|
      invariant Files(atts, i) == Success(sofar) && SmallEnough(sofar)
    {
      var file := FileOf(atts[i]);
      if file.Failure? {
        FilesFailEarly(atts, i + 1, |atts|);
        return false;
      }
      if file.value.size > MAX_ATTACHMENT_BYTES {
        ghost var next := sofar + [file.value];
        assert Files(atts, i + 1) == Success(next) && next[i] == file.value by {
          FilesLength(atts, i);
        }
        TooBig(atts, i + 1, |atts|);
        return false;
      }
      sofar := sofar + [file.value];
    }
    ok := true;
  }

  lemma {:induction false} FilesLength(atts: seq<AttachmentRequest>, n: nat)
    requires n <= |atts|
    ensures Files(atts, n).Success? ==> |Files(atts, n).value| == n
  {
    if n > 0 {
      FilesLength(atts, n - 1);
    }
  }

  method CheckRequest(req: SendRequest) returns (ok: bool)
    ensures ok <==> Sendable(req)
  {
    if req.to == [] {
      return false;
    }
    for i := 0 to |req.to|
      invariant forall j :: 0 <= j < i ==> req.to[j].email != [] && '@' in req.to[j].email
    {
      if req.to[i].email == [] || '@' !in req.to[i].email {
        return false;
      }
    }
    if req.bodyText == [] && req.bodyHtml == [] {
      return false;
    }
    ok := CheckAttachments(req.attachments);
  }

  lemma OneFileMore(atts: seq<AttachmentRequest>, n: nat)
    requires 0 < n <= |atts| && Files(atts, n).Success?
    ensures Files(atts, n - 1).Success? && FileOf(atts[n - 1]).Success?
    ensures Files(atts, n).value == Files(atts, n - 1).value + [FileOf(atts[n - 1]).value]
  {
  }

  lemma StaysTooBig(files: seq<File>, more: File)
    requires !SmallEnough(files)
    ensures !SmallEnough(files + [more])
  {
    var i :| 0 <= i < |files| && files[i].size > MAX_ATTACHMENT_BYTES;
    assert (files + [more])[i] == files[i];
  }

  /** One file over the limit stays so, whatever follows it. */
  lemma {:induction false} TooBig(atts: seq<AttachmentRequest>, n: nat, m: nat)
    requires n <= m <= |atts|
    requires Files(atts, n).Success? && !SmallEnough(Files(atts, n).value)
    ensures Files(atts, m).Success? ==> !SmallEnough(Files(atts, m).value)
  {
    if n < m && Files(atts, m).Success? {
      TooBig(atts, n, m - 1);
      OneFileMore(atts, m);
      StaysTooBig(Files(atts, m - 1).value, FileOf(atts[m - 1]).value);
    }
  }

  method PlaceTx(db: Connection, org: Id, inbox: Id, row: Inbox, req: SendRequest, drawn: Drawn, now: Time)
    returns (r: Result<(Id, Bytes, seq<Bytes>), Error>)
    requires !db.aborted && !db.faulted
    modifies db
    ensures db.saved == old(db.saved)
    ensures db.Reliable() ==> !db.faulted
    ensures r.Success? ==>
              && !db.aborted && !db.faulted
              && Place(old(db.tables), org, inbox, row, req, drawn, now) ==
                  Success(Placement(db.tables, r.value.0, r.value.1, r.value.2))
    ensures r.Failure? ==> db.faulted || Place(old(db.tables), org, inbox, row, req, drawn, now) == Failure(r.error)
  {
    if req.replyTo.Some? {
      var parent := db.Query(db.tables.GetMessage(org, req.replyTo.value));
      if parent.Failure? {
        return Failure(parent.error);
      }
      var thread := db.Query(db.tables.GetThread(org, parent.value.thread));
      if thread.Failure? {
        return Failure(thread.error);
      }
      r := Success((parent.value.thread, parent.value.header, parent.value.references + [parent.value.header]));
    } else {
      var people := Recipients.Distinct([Address(row.email, row.displayName)] + req.to + req.cc, Recipients.Exactly,
                                        {});
      var created := db.Exec(db.tables.InsertThread(drawn.thread,
                                                    Thread(org, inbox, req.subject,
                                                           DraftService.SnippetFrom(req.bodyText), Open, true, false,
                                                           0, people, None, now)));
      r := if created.Failure? then Failure(created.error) else Success((drawn.thread, [], []));
    }
  }

  method SendTx(db: Connection, org: Id, inbox: Id, req: SendRequest, files: seq<File>, drawn: Drawn, now: Time)
    returns (r: Result<Message, Error>)
    requires !db.aborted && !db.faulted
    modifies db
    ensures db.saved == old(db.saved)
    ensures db.Reliable() ==> !db.faulted
    ensures r.Success? ==>
            !db.aborted && !db.faulted
            && SendTxOutcome(old(db.tables), org, inbox, req, files, drawn, now) == Success(db.tables)
    ensures r.Failure? ==>
            db.faulted || SendTxOutcome(old(db.tables), org, inbox, req, files, drawn, now) == Failure(r.error)
  {
    var row := db.Query(db.tables.GetInbox(org, inbox));
    if row.Failure? {
      return Failure(row.error);
    }
    var place := PlaceTx(db, org, inbox, row.value, req, drawn, now);
    if place.Failure? {
      return Failure(place.error);
    }
    var (thread, inReplyTo, references) := place.value;
    var msg := OutboundMessage(org, inbox, row.value, req, thread, inReplyTo, references, drawn.header, files != [],
                               now);
    var created := db.Exec(db.tables.InsertMessage(drawn.message, msg));
    if created.Failure? {
      return Failure(created.error);
    }
    var attached := InsertFiles(db, org, Some(drawn.message), None, files, drawn.attachments, now);
    if attached.Failure? {
      return Failure(attached.error);
    }
    var bumped := db.Exec(Success(db.tables.BumpThread(thread, now, DraftService.SnippetFrom(req.bodyText))));
    if bumped.Failure? {
      return Failure(bumped.error);
    }
    r := Success(msg);
  }

  method Send(db: Connection, org: Id, inbox: Id, req: SendRequest, drawn: Drawn, now: Time, stored: nat -> bool)
    returns (r: Result<Message, Error>)
    modifies db
    ensures r.Success? ==> SendOutcome(old(db.tables), org, inbox, req, drawn, now) == Success(db.tables)
    ensures r.Failure? ==> db.tables == old(db.tables)
    ensures db.Reliable() && StorageUp(stored) && r.Failure? ==>
            SendOutcome(old(db.tables), org, inbox, req, drawn, now) == Failure(r.error)
  {
    var ok := CheckRequest(req);
    if !ok {
      return Failure(BadRequest);
    }
    var files := UploadAll(req.attachments, stored);
    if files.Failure? {
      return Failure(files.error);
    }
    var begun := db.Begin();
    if !begun {
      return Failure(Unavailable);
    }
    r := SendTx(db, org, inbox, req, files.value, drawn, now);
    if r.Failure? {
      db.Rollback();
      return;
    }
    var committed := db.Commit();
    if !committed {
      r := Failure(Unavailable);
    }
  }

  // ---- Reply to all ----

  datatype ReplyAllRequest = ReplyAllRequest(bodyText: Bytes, bodyHtml: Bytes, attachments: seq<AttachmentRequest>)

  /** Everyone on the original mail, by folded address, without the inbox itself. */
  ghost function ReplyAllRecipients(orig: Message, inbox: Inbox, fold: Bytes -> Bytes): seq<Address>
  {
    var everyone := [orig.from] + orig.to + orig.cc;
    Recipients.FirstOccurrences(everyone, |everyone|, fold, {fold(inbox.email)})
  }

  ghost function ReplyAllSend(orig: Message, msg: Id, inbox: Inbox, req: ReplyAllRequest,
                              fold: Bytes -> Bytes): SendRequest
  {
    SendRequest(ReplyAllRecipients(orig, inbox, fold), [], [], orig.subject, req.bodyText, req.bodyHtml, Some(msg),
                None, req.attachments)
  }

  ghost function ReplyAllOutcome(t: Tables, org: Id, inbox: Id, msg: Id, req: ReplyAllRequest, fold: Bytes -> Bytes,
                                 drawn: Drawn, now: Time): Result<Tables, Error>
  {
    var orig :- t.GetMessage(org, msg);
    var row :- t.GetInbox(org, inbox);
    if ReplyAllRecipients(orig, row, fold) == [] then Failure(BadRequest)
    else SendOutcome(t, org, inbox, ReplyAllSend(orig, msg, row, req, fold), drawn, now)
  }

  /** fold is the lower-casing of addresses. */
  method ReplyAll(db: Connection, org: Id, inbox: Id, msg: Id, req: ReplyAllRequest, fold: Bytes -> Bytes, drawn: Drawn,
                  now: Time, stored: nat -> bool)
    returns (r: Result<Message, Error>)
    modifies db
    ensures r.Success? ==> ReplyAllOutcome(old(db.tables), org, inbox, msg, req, fold, drawn, now) == Success(db.tables)
    ensures r.Failure? ==> db.tables == old(db.tables)
    ensures db.Reliable() && StorageUp(stored) && r.Failure? ==>
              ReplyAllOutcome(old(db.tables), org, inbox, msg, req, fold, drawn, now) == Failure(r.error)
  {
    var orig := ReadOnly(db, db.tables.GetMessage(org, msg));
    if orig.Failure? {
      return Failure(orig.error);
    }
    var row := ReadOnly(db, db.tables.GetInbox(org, inbox));
    if row.Failure? {
      return Failure(row.error);
    }
    var to := Recipients.Distinct([orig.value.from] + orig.value.to + orig.value.cc, fold, {fold(row.value.email)});
    if to == [] {
      return Failure(BadRequest);
    }
    r := Send(db, org, inbox,
              SendRequest(to, [], [], orig.value.subject, req.bodyText, req.bodyHtml, Some(msg), None, req.attachments),
              drawn, now, stored);
  }

  /** A transaction of one query. */
  method ReadOnly<T>(db: Connection, answer: Result<T, Error>) returns (r: Result<T, Error>)
    modifies db
    ensures db.tables == old(db.tables)
    ensures r.Success? ==> r == answer
    ensures db.Reliable() ==> r == answer
  {
    var begun := db.Begin();
    if !begun {
      return Failure(Unavailable);
    }
    r := db.Query(answer);
    if r.Failure? {
      db.Rollback();
      return;
    }
    var committed := db.Commit();
    if !committed {
      r := Failure(Unavailable);
    }
  }

  /**
    A reply-all goes to addresses of the original only, never to the sending inbox, to no
    address twice, and to every other non-empty address of From, To and Cc.
   */
  lemma ReplyAllReachesEveryoneOnce(orig: Message, inbox: Inbox, fold: Bytes -> Bytes)
    ensures
      var to := ReplyAllRecipients(orig, inbox, fold);
      var everyone := [orig.from] + orig.to + orig.cc;
      && (forall a :: a in to ==> a in everyone && a.email != [] && fold(a.email) != fold(inbox.email))
      && (forall i, j :: 0 <= i < j < |to| ==> fold(to[i].email) != fold(to[j].email))
      && (forall a :: a in everyone && a.email != [] && fold(a.email) != fold(inbox.email) ==>
            exists b :: b in to && fold(b.email) == fold(a.email))
  {
    Recipients.KeptOnce([orig.from] + orig.to + orig.cc, fold, {fold(inbox.email)});
  }
}
