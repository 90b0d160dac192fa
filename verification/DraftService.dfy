/** Draft creation, update, deletion and review. */
module DraftService {
  import opened Wrappers
  import opened Text
  import opened Database
  import opened Uploads
  import DraftStore
  import Recipients

  const NO_METADATA: Bytes := "{}"

  /** What a create request carries; in_reply_to is accepted but has no column to go to. */
  datatype CreateRequest = CreateRequest(
    inbox: Id, thread: Option<Id>, subject: Bytes, to: seq<Address>, cc: seq<Address>, bcc: seq<Address>,
    textBody: Bytes, htmlBody: Bytes, inReplyTo: Bytes, scheduledAt: Option<Time>, metadata: Option<Bytes>,
    attachments: seq<AttachmentRequest>)

  /** Absent fields keep their column; given attachments replace the present ones. */
  datatype UpdateRequest = UpdateRequest(
    subject: Option<Bytes>, to: Option<seq<Address>>, cc: Option<seq<Address>>, bcc: Option<seq<Address>>,
    textBody: Option<Bytes>, htmlBody: Option<Bytes>, scheduledAt: Option<Time>, metadata: Option<Bytes>,
    attachments: Option<seq<AttachmentRequest>>)

  /** Identifiers drawn for one operation: uuid.New and generateMessageID. */
  datatype Drawn = Drawn(thread: Id, message: Id, header: Bytes, attachments: nat -> Id)

  /** What the address parser of net/mail accepts. */
  type AddressCheck = Bytes -> bool

  function SnippetFrom(body: Bytes): Bytes
  {
    if |body| <= 200 then body else body[..200]
  }

  predicate ValidAddresses(addrs: seq<Address>, valid: AddressCheck)
  {
    forall i :: 0 <= i < |addrs| ==> addrs[i].email != [] && valid(addrs[i].email)
  }

  method ValidateEmailAddresses(addrs: seq<Address>, valid: AddressCheck) returns (ok: bool)
    ensures ok <==> ValidAddresses(addrs, valid)
  {
    for i := 0 to |addrs|
      invariant forall j :: 0 <= j < i ==> addrs[j].email != [] && valid(addrs[j].email)
    {
      if addrs[i].email == [] || !valid(addrs[i].email) {
        return false;
      }
    }
    ok := true;
  }

  function Given<T>(o: Option<seq<T>>): seq<T>
  {
    match o
    case Some(s) => s
    case None => []
  }

  // ---- Create ----

  function NewDraft(org: Id, req: CreateRequest, now: Time): Draft
  {
    Draft(org, req.inbox, req.thread, req.subject, req.to, req.cc, req.bcc, req.textBody, req.htmlBody, req.scheduledAt,
          Pending, [], None, None, None, if req.metadata.Some? then req.metadata.value else NO_METADATA, now, now)
  }

  function CreateOutcome(t: Tables, org: Id, req: CreateRequest, id: Id, drawn: Drawn, now: Time,
                         valid: AddressCheck): Result<Tables, Error>
  {
    if req.to == [] || !ValidAddresses(req.to, valid) || !ValidAddresses(req.cc, valid)
    || !ValidAddresses(req.bcc, valid)
    then Failure(BadRequest)
    else
      var files :- Files(req.attachments, |req.attachments|);
      var inserted :- t.InsertDraft(id, NewDraft(org, req, now));
      AddFiles(inserted, org, None, Some(id), files, drawn.attachments, 0, now)
  }

  method Create(db: Connection, org: Id, req: CreateRequest, id: Id, drawn: Drawn, now: Time, valid: AddressCheck,
                stored: nat -> bool)
    returns (r: Result<Draft, Error>)
    modifies db
    ensures r.Success? ==> CreateOutcome(old(db.tables), org, req, id, drawn, now, valid) == Success(db.tables)
    ensures r.Success? ==> r.value == NewDraft(org, req, now)
    ensures r.Failure? ==> db.tables == old(db.tables)
    ensures db.Reliable() && StorageUp(stored) && r.Failure? ==>
              CreateOutcome(old(db.tables), org, req, id, drawn, now, valid) == Failure(r.error)
  {
    if req.to == [] {
      return Failure(BadRequest);
    }
    var okTo := ValidateEmailAddresses(req.to, valid);
    var okCc := ValidateEmailAddresses(req.cc, valid);
    var okBcc := ValidateEmailAddresses(req.bcc, valid);
    if !okTo || !okCc || !okBcc {
      return Failure(BadRequest);
    }
    var files := UploadAll(req.attachments, stored);
    if files.Failure? {
      return Failure(files.error);
    }
    var draft := NewDraft(org, req, now);
    var begun := db.Begin();
    if !begun {
      return Failure(Unavailable);
    }
    var inserted := db.Exec(db.tables.InsertDraft(id, draft));
    if inserted.Failure? {
      db.Rollback();
      return Failure(inserted.error);
    }
    var added := InsertFiles(db, org, None, Some(id), files.value, drawn.attachments, now);
    if added.Failure? {
      db.Rollback();
      return Failure(added.error);
    }
    var committed := db.Commit();
    r := if committed then Success(draft) else Failure(Unavailable);
  }

  // ---- Update ----

  function ContentPatch(req: UpdateRequest): DraftStore.Patch
  {
    DraftStore.Patch(req.subject, req.to, req.cc, req.bcc, req.textBody, req.htmlBody, req.scheduledAt,
                     None, None, None, None, None, req.metadata)
  }

  /** What the transaction of Update does, with the new files already stored. */
  function UpdateTxOutcome(t: Tables, org: Id, id: Id, req: UpdateRequest, files: seq<File>, drawn: Drawn,
                           now: Time): Result<Tables, Error>
  {
    var existing :- t.GetDraft(org, id);
    if existing.status != Pending then Failure(InvalidReviewStatus)
    else
      var patched :- DraftStore.UpdateOutcome(t, org, id, ContentPatch(req), now);
      if req.attachments.None? then Success(patched)
      else AddFiles(patched.DeleteDraftAttachments(org, id), org, None, Some(id), files, drawn.attachments, 0, now)
  }

  function UpdateOutcome(t: Tables, org: Id, id: Id, req: UpdateRequest, drawn: Drawn, now: Time,
                         valid: AddressCheck): Result<Tables, Error>
  {
    if !ValidAddresses(Given(req.to), valid) || !ValidAddresses(Given(req.cc), valid)
    || !ValidAddresses(Given(req.bcc), valid)
    then Failure(BadRequest)
    else
      var files :- Files(Given(req.attachments), |Given(req.attachments)|);
      UpdateTxOutcome(t, org, id, req, files, drawn, now)
  }

  method UpdateTx(db: Connection, org: Id, id: Id, req: UpdateRequest, files: seq<File>, drawn: Drawn, now: Time)
    returns (r: Result<Draft, Error>)
    requires !db.aborted && !db.faulted
    modifies db
    ensures db.saved == old(db.saved)
    ensures db.Reliable() ==> !db.faulted
    ensures r.Success? ==>
            !db.aborted && !db.faulted
            && UpdateTxOutcome(old(db.tables), org, id, req, files, drawn, now) == Success(db.tables)
    ensures r.Failure? ==>
            db.faulted || UpdateTxOutcome(old(db.tables), org, id, req, files, drawn, now) == Failure(r.error)
  {
    var existing := db.Query(db.tables.GetDraft(org, id));
    if existing.Failure? {
      return Failure(existing.error);
    }
    if existing.value.status != Pending {
      return Failure(InvalidReviewStatus);
    }
    r := DraftStore.Update(db, org, id, ContentPatch(req), now);
    if r.Failure? {
      return;
    }
    if req.attachments.Some? {
      var deleted := db.Exec(Success(db.tables.DeleteDraftAttachments(org, id)));
      if deleted.Failure? {
        return Failure(deleted.error);
      }
      var added := InsertFiles(db, org, None, Some(id), files, drawn.attachments, now);
      if added.Failure? {
        return Failure(added.error);
      }
    }
  }

  method Update(db: Connection, org: Id, id: Id, req: UpdateRequest, drawn: Drawn, now: Time, valid: AddressCheck,
                stored: nat -> bool)
    returns (r: Result<Draft, Error>)
    modifies db
    ensures r.Success? ==> UpdateOutcome(old(db.tables), org, id, req, drawn, now, valid) == Success(db.tables)
    ensures r.Failure? ==> db.tables == old(db.tables)
    ensures db.Reliable() && StorageUp(stored) && r.Failure? ==>
              UpdateOutcome(old(db.tables), org, id, req, drawn, now, valid) == Failure(r.error)
  {
    var okTo := ValidateEmailAddresses(Given(req.to), valid);
    var okCc := ValidateEmailAddresses(Given(req.cc), valid);
    var okBcc := ValidateEmailAddresses(Given(req.bcc), valid);
    if !okTo || !okCc || !okBcc {
      return Failure(BadRequest);
    }
    var files := UploadAll(Given(req.attachments), stored);
    if files.Failure? {
      return Failure(files.error);
    }
    var begun := db.Begin();
    if !begun {
      return Failure(Unavailable);
    }
    r := UpdateTx(db, org, id, req, files.value, drawn, now);
    r := Finish(db, r);
  }

  /** The end of WithTx: commit what succeeded, roll back what failed. */
  method Finish(db: Connection, answer: Result<Draft, Error>) returns (r: Result<Draft, Error>)
    requires answer.Success? ==> !db.aborted && !db.faulted
    modifies db
    ensures db.saved == old(db.saved)
    ensures r.Success? ==> r == answer && db.tables == old(db.tables)
    ensures r.Failure? ==> db.tables == db.saved
    ensures db.Reliable() ==> r == answer
  {
    if answer.Failure? {
      db.Rollback();
      return answer;
    }
    var committed := db.Commit();
    r := if committed then answer else Failure(Unavailable);
  }

  // ---- Delete ----

  method Delete(db: Connection, org: Id, id: Id) returns (r: Result<(), Error>)
    modifies db
    ensures r.Success? ==> old(db.tables).DeleteDraft(org, id) == Success(db.tables)
    ensures r.Failure? ==> db.tables == old(db.tables)
    ensures db.Reliable() && r.Failure? ==> old(db.tables).DeleteDraft(org, id) == Failure(r.error)
  {
    var begun := db.Begin();
    if !begun {
      return Failure(Unavailable);
    }
    r := db.Exec(db.tables.DeleteDraft(org, id));
    if r.Failure? {
      db.Rollback();
      return;
    }
    var committed := db.Commit();
    r := if committed then Success(()) else Failure(Unavailable);
  }

  // ---- Approve ----

  /** A draft as scanDraft loads it: InReplyTo is a field of the struct that no column fills. */
  datatype LoadedDraft = LoadedDraft(row: Draft, inReplyTo: Bytes)

  function ScanDraft(row: Draft): LoadedDraft
  {
    LoadedDraft(row, [])
  }

  ghost function ApprovalThread(org: Id, d: Draft, inbox: Inbox, now: Time): Thread
  {
    Thread(org, d.inbox, d.subject, SnippetFrom(d.textBody), Open, true, false, 0,
           Recipients.Participants([Address(inbox.email, inbox.displayName)] + d.to + d.cc), None, now)
  }

  function ApprovalMessage(org: Id, d: Draft, inReplyTo: Bytes, inbox: Inbox, thread: Id, header: Bytes,
                           hasAttachments: bool, now: Time): Message
  {
    Message(org, d.inbox, thread, header, inReplyTo, if inReplyTo != [] then [inReplyTo] else [], true, Sending,
            Address(inbox.email, inbox.displayName), d.to, d.cc, d.bcc, d.subject, d.metadata, hasAttachments,
            Some(now), now)
  }

  function ApprovalPatch(note: Bytes, reviewer: Id, msg: Id, now: Time): DraftStore.Patch
  {
    DraftStore.NO_PATCH.(status := Some(Approved), note := Some(note), reviewedAt := Some(now),
                         reviewedBy := Some(reviewer), message := Some(msg))
  }

  /** The draft's thread, created when it has none. */
  ghost function OpenThread(t: Tables, org: Id, d: Draft, inbox: Inbox, drawn: Drawn, now: Time): Result<Tables, Error>
  {
    match d.thread
    case Some(th) =>
      var _ :- t.GetThread(org, th);
      Success(t)
    case None => t.InsertThread(drawn.thread, ApprovalThread(org, d, inbox, now))
  }

  function ThreadOf(d: Draft, drawn: Drawn): Id
  {
    match d.thread
    case Some(th) => th
    case None => drawn.thread
  }

  ghost function ApproveOutcome(t: Tables, org: Id, id: Id, note: Bytes, reviewer: Id, drawn: Drawn,
                                now: Time): Result<Tables, Error>
  {
    var row :- t.GetDraft(org, id);
    var existing := ScanDraft(row);
    if row.status != Pending then Failure(InvalidReviewStatus)
    else
      var inbox :- t.GetInbox(org, row.inbox);
      var started :- OpenThread(t, org, row, inbox, drawn, now);
      var thread := ThreadOf(row, drawn);
      var has := started.DraftAttachments(org, id) != {};
      var msg := ApprovalMessage(org, row, existing.inReplyTo, inbox, thread, drawn.header, has, now);
      var created :- started.InsertMessage(drawn.message, msg);
      var linked :- if has then created.LinkDraftAttachments(id, drawn.message) else Success(created);
      var bumped := linked.BumpThread(thread, now, SnippetFrom(row.textBody));
      DraftStore.UpdateOutcome(bumped, org, id, ApprovalPatch(note, reviewer, drawn.message, now), now)
  }

  method OpenThreadTx(db: Connection, org: Id, d: Draft, inbox: Inbox, drawn: Drawn, now: Time)
    returns (r: Result<(), Error>)
    requires !db.aborted && !db.faulted
    modifies db
    ensures db.saved == old(db.saved)
    ensures db.Reliable() ==> !db.faulted
    ensures r.Success? ==>
            !db.aborted && !db.faulted && OpenThread(old(db.tables), org, d, inbox, drawn, now) == Success(db.tables)
    ensures r.Failure? ==> db.faulted || OpenThread(old(db.tables), org, d, inbox, drawn, now) == Failure(r.error)
  {
    if d.thread.Some? {
      var thread := db.Query(db.tables.GetThread(org, d.thread.value));
      r := if thread.Failure? then Failure(thread.error) else Success(());
      return;
    }
    var people := Recipients.Distinct([Address(inbox.email, inbox.displayName)] + d.to + d.cc, Recipients.Exactly, {});
    r := db.Exec(db.tables.InsertThread(drawn.thread,
                                        Thread(org, d.inbox, d.subject, SnippetFrom(d.textBody), Open, true, false, 0,
                                               people, None, now)));
  }

  method ApproveTx(db: Connection, org: Id, id: Id, note: Bytes, reviewer: Id, drawn: Drawn, now: Time)
    returns (r: Result<Draft, Error>)
    requires !db.aborted && !db.faulted
    modifies db
    ensures db.saved == old(db.saved)
    ensures db.Reliable() ==> !db.faulted
    ensures r.Success? ==>
            !db.aborted && !db.faulted
            && ApproveOutcome(old(db.tables), org, id, note, reviewer, drawn, now) == Success(db.tables)
    ensures r.Failure? ==>
            db.faulted || ApproveOutcome(old(db.tables), org, id, note, reviewer, drawn, now) == Failure(r.error)
  {
    var loaded := db.Query(db.tables.GetDraft(org, id));
    if loaded.Failure? {
      return Failure(loaded.error);
    }
    var existing := ScanDraft(loaded.value);
    if existing.row.status != Pending {
      return Failure(InvalidReviewStatus);
    }
    var inbox := db.Query(db.tables.GetInbox(org, existing.row.inbox));
    if inbox.Failure? {
      return Failure(inbox.error);
    }
    var started := OpenThreadTx(db, org, existing.row, inbox.value, drawn, now);
    if started.Failure? {
      return Failure(started.error);
    }
    var thread := ThreadOf(existing.row, drawn);
    var listed := db.Query(Success(db.tables.DraftAttachments(org, id)));
    if listed.Failure? {
      return Failure(listed.error);
    }
    var msg := ApprovalMessage(org, existing.row, existing.inReplyTo, inbox.value, thread, drawn.header,
                               listed.value != {}, now);
    var created := db.Exec(db.tables.InsertMessage(drawn.message, msg));
    if created.Failure? {
      return Failure(created.error);
    }
    if listed.value != {} {
      var linked := db.Exec(db.tables.LinkDraftAttachments(id, drawn.message));
      if linked.Failure? {
        return Failure(linked.error);
      }
    }
    var bumped := db.Exec(Success(db.tables.BumpThread(thread, now, SnippetFrom(existing.row.textBody))));
    if bumped.Failure? {
      return Failure(bumped.error);
    }
    r := DraftStore.Update(db, org, id, ApprovalPatch(note, reviewer, drawn.message, now), now);
  }

  method Approve(db: Connection, org: Id, id: Id, note: Bytes, reviewer: Id, drawn: Drawn, now: Time)
    returns (r: Result<Draft, Error>)
    modifies db
    ensures r.Success? ==> ApproveOutcome(old(db.tables), org, id, note, reviewer, drawn, now) == Success(db.tables)
    ensures r.Failure? ==> db.tables == old(db.tables)
    ensures db.Reliable() && r.Failure? ==>
            ApproveOutcome(old(db.tables), org, id, note, reviewer, drawn, now) == Failure(r.error)
  {
    var begun := db.Begin();
    if !begun {
      return Failure(Unavailable);
    }
    r := ApproveTx(db, org, id, note, reviewer, drawn, now);
    r := Finish(db, r);
  }

  // ---- Reject ----

  function RejectPatch(reason: Bytes, reviewer: Id, now: Time): DraftStore.Patch
  {
    DraftStore.NO_PATCH.(status := Some(Rejected), note := Some(reason), reviewedAt := Some(now),
                         reviewedBy := Some(reviewer))
  }

  function RejectOutcome(t: Tables, org: Id, id: Id, reason: Bytes, reviewer: Id, now: Time): Result<Tables, Error>
  {
    var existing :- t.GetDraft(org, id);
    if existing.status != Pending then Failure(InvalidReviewStatus)
    else DraftStore.UpdateOutcome(t, org, id, RejectPatch(reason, reviewer, now), now)
  }

  method Reject(db: Connection, org: Id, id: Id, reason: Bytes, reviewer: Id, now: Time)
    returns (r: Result<Draft, Error>)
    modifies db
    ensures r.Success? ==> RejectOutcome(old(db.tables), org, id, reason, reviewer, now) == Success(db.tables)
    ensures r.Failure? ==> db.tables == old(db.tables)
    ensures db.Reliable() && r.Failure? ==>
            RejectOutcome(old(db.tables), org, id, reason, reviewer, now) == Failure(r.error)
  {
    var begun := db.Begin();
    if !begun {
      return Failure(Unavailable);
    }
    r := RejectTx(db, org, id, reason, reviewer, now);
    r := Finish(db, r);
  }

  method RejectTx(db: Connection, org: Id, id: Id, reason: Bytes, reviewer: Id, now: Time)
    returns (r: Result<Draft, Error>)
    requires !db.aborted && !db.faulted
    modifies db
    ensures db.saved == old(db.saved)
    ensures db.Reliable() ==> !db.faulted
    ensures r.Success? ==>
            !db.aborted && !db.faulted
            && RejectOutcome(old(db.tables), org, id, reason, reviewer, now) == Success(db.tables)
    ensures r.Failure? ==>
            db.faulted || RejectOutcome(old(db.tables), org, id, reason, reviewer, now) == Failure(r.error)
  {
    var existing := db.Query(db.tables.GetDraft(org, id));
    if existing.Failure? {
      return Failure(existing.error);
    }
    if existing.value.status != Pending {
      return Failure(InvalidReviewStatus);
    }
    r := DraftStore.Update(db, org, id, RejectPatch(reason, reviewer, now), now);
  }
}
