/** Ingest of a received mail for one recipient. */
module EmailInbound {
  import opened Wrappers
  import opened Text
  import opened Database
  import opened Uploads
  import opened MimeTypes
  import DraftService
  import Recipients

  type Drawn = DraftService.Drawn

  /** The fields of a parsed mail that ingest uses. */
  datatype Mail = Mail(
    messageId: Bytes, inReplyTo: Bytes, references: seq<Bytes>, from: Address, to: seq<Address>, cc: seq<Address>,
    subject: Bytes, snippet: Bytes, parts: seq<Part>)

  /** Message ids by which a thread is looked up. */
  function LookupIds(mail: Mail): seq<Bytes>
  {
    (if mail.inReplyTo != [] then [mail.inReplyTo] else []) + mail.references
  }

  /** The messages of the inbox's threads that carry a looked-up id. */
  function Matches(t: Tables, org: Id, inbox: Id, ids: seq<Bytes>): set<Id>
  {
    set m | m in t.messages && t.messages[m].thread in t.threads
            && t.threads[t.messages[m].thread].org == org && t.threads[t.messages[m].thread].inbox == inbox
            && t.messages[m].header in ids
  }

  ghost function BuildParticipants(mail: Mail): seq<Address>
  {
    Recipients.Participants([mail.from] + mail.to + mail.cc)
  }

  ghost function NewThread(org: Id, inbox: Id, mail: Mail, now: Time): Thread
  {
    Thread(org, inbox, mail.subject, mail.snippet, Open, false, false, 0, BuildParticipants(mail), None, now)
  }

  function InboundMessage(org: Id, inbox: Id, mail: Mail, thread: Id, hasAttachments: bool, now: Time): Message
  {
    Message(org, inbox, thread, mail.messageId, mail.inReplyTo, mail.references, false, Received, mail.from,
            mail.to, mail.cc, [], mail.subject, DraftService.NO_METADATA, hasAttachments, None, now)
  }

  /** A file per named or inline part whose upload succeeded. */
  function InboundFiles(parts: seq<Part>, n: nat, stored: nat -> bool): seq<File>
    requires n <= |parts|
  {
    if n == 0 then []
    else
      var p := parts[n - 1];
      InboundFiles(parts, n - 1, stored)
      + if (p.filename == [] && !p.isInline) || !stored(n - 1) then []
        else [File(if p.filename == [] then p.contentId else p.filename, p.contentType, |p.data|, p.contentId,
                   p.isInline)]
  }

  method UploadParts(parts: seq<Part>, stored: nat -> bool) returns (files: seq<File>)
    ensures files == InboundFiles(parts, |parts|, stored)
  {
    files := [];
    for i := 0 to |parts|
      invariant files == InboundFiles(parts, i, stored)
    {
      var p := parts[i];
      if !(p.filename == [] && !p.isInline) && stored(i) {
        var filename := p.filename;
        if filename == [] {
          filename := p.contentId;
        }
        files := files + [File(filename, p.contentType, |p.data|, p.contentId, p.isInline)];
      }
    }
  }

  /** The participants that a merge appends: those whose email is not there yet. */
  function Newcomers(present: seq<Address>, more: seq<Address>): seq<Address>
  {
    if more == [] then []
    else if exists i :: 0 <= i < |present| && present[i].email == more[0].email then Newcomers(present, more[1..])
    else [more[0]] + Newcomers(present, more[1..])
  }

  function MergeParticipants(t: Tables, thread: Id, more: seq<Address>): Tables
  {
    if thread !in t.threads then t
    else t.SetParticipants(thread, t.threads[thread].participants + Newcomers(t.threads[thread].participants, more))
  }

  /** The thread a mail joins; match is the row that LIMIT 1 picks. */
  ghost function JoinThread(t: Tables, inbox: Id, mail: Mail, match': Id, drawn: Drawn,
                            now: Time): Result<(Tables, Id), Error>
    requires inbox in t.inboxes
  {
    var org := t.inboxes[inbox].org;
    var matches := Matches(t, org, inbox, LookupIds(mail));
    if matches == {} then
      var t' :- t.InsertThread(drawn.thread, NewThread(org, inbox, mail, now));
      Success((t', drawn.thread))
    else if match' in matches then Success((t, t.messages[match'].thread))
    else Failure(Unavailable)
  }

  /** What the ingest transaction does. */
  ghost function IngestTxOutcome(t: Tables, inbox: Id, mail: Mail, files: seq<File>, match': Id, drawn: Drawn,
                                 now: Time): Result<Tables, Error>
    requires inbox in t.inboxes
  {
    var org := t.inboxes[inbox].org;
    var joined :- JoinThread(t, inbox, mail, match', drawn, now);
    var (started, thread) := joined;
    var created :- started.InsertMessage(drawn.message, InboundMessage(org, inbox, mail, thread, files != [], now));
    var attached :- AddFiles(created, org, Some(drawn.message), None, files, drawn.attachments, 0, now);
    if thread !in attached.threads then Failure(NotFound)
    else
      var bumped := attached.BumpThread(thread, now, mail.snippet);
      if Matches(t, org, inbox, LookupIds(mail)) == {} then Success(bumped)
      else Success(MergeParticipants(bumped, thread, BuildParticipants(mail)))
  }

  /** Inserts rows whose errors are only logged; a failed one leaves the transaction aborted. */
  method TryInsertFiles(db: Connection, org: Id, msg: Id, files: seq<File>, ids: nat -> Id, now: Time)
    requires !db.aborted && !db.faulted
    modifies db
    ensures db.saved == old(db.saved)
    ensures db.Reliable() ==> !db.faulted
    ensures db.faulted ==> db.aborted
    ensures !db.aborted ==> AddFiles(old(db.tables), org, Some(msg), None, files, ids, 0, now) == Success(db.tables)
    ensures db.aborted ==> db.faulted || AddFiles(old(db.tables), org, Some(msg), None, files, ids, 0, now).Failure?
  {
    for k := 0 to |files|
      invariant db.saved == old(db.saved) && (db.faulted ==> db.aborted) && (db.Reliable() ==> !db.faulted)
      invariant !db.aborted ==>
                AddFiles(old(db.tables), org, Some(msg), None, files, ids, 0, now) ==
                    AddFiles(db.tables, org, Some(msg), None, files, ids, k, now)
      invariant db.aborted ==> db.faulted || AddFiles(old(db.tables), org, Some(msg), None, files, ids, 0, now).Failure?
    {
      var _ := db.Exec(db.tables.InsertAttachment(ids(k), Attachment(org, Some(msg), None, files[k], now)));
    }
  }

  method IngestTx(db: Connection, inbox: Id, mail: Mail, files: seq<File>, match': Id, drawn: Drawn, now: Time)
    returns (r: Result<(), Error>)
    requires !db.aborted && !db.faulted && inbox in db.tables.inboxes
    requires
      var matches := Matches(db.tables, db.tables.inboxes[inbox].org, inbox, LookupIds(mail));
      matches != {} ==> match' in matches
    modifies db
    ensures db.saved == old(db.saved)
    ensures db.Reliable() ==> !db.faulted
    ensures db.faulted ==> db.aborted
    ensures r.Success? && !db.aborted ==>
            IngestTxOutcome(old(db.tables), inbox, mail, files, match', drawn, now) == Success(db.tables)
    ensures r.Failure? || db.aborted ==>
            db.faulted || IngestTxOutcome(old(db.tables), inbox, mail, files, match', drawn, now).Failure?
  {
    var org := db.tables.inboxes[inbox].org;
    var ids := LookupIds(mail);
    var thread: Option<Id> := None;
    if |ids| > 0 {
      var matches := Matches(db.tables, org, inbox, ids);
      var found := db.Query(if matches == {} then Failure(NotFound) else Success(match'));
      if found.Failure? && found.error != NotFound {
        return Failure(found.error);
      }
      if found.Success? {
        thread := Some(db.tables.messages[found.value].thread);
      }
    }
    var isNewThread := thread.None?;
    var people := Recipients.Distinct([mail.from] + mail.to + mail.cc, Recipients.Exactly, {});
    if isNewThread {
      var created := db.Exec(db.tables.InsertThread(drawn.thread,
                                                    Thread(org, inbox, mail.subject, mail.snippet, Open, false, false,
                                                           0, people, None, now)));
      if created.Failure? {
        return Failure(created.error);
      }
      thread := Some(drawn.thread);
    }
    var inserted := db.Exec(db.tables.InsertMessage(drawn.message,
                                                    InboundMessage(org, inbox, mail, thread.value, files != [], now)));
    if inserted.Failure? {
      return Failure(inserted.error);
    }
    TryInsertFiles(db, org, drawn.message, files, drawn.attachments, now);
    var bumped := db.Exec(if thread.value in db.tables.threads
                          then Success(db.tables.BumpThread(thread.value, now, mail.snippet)) else Failure(NotFound));
    if bumped.Failure? {
      return Failure(bumped.error);
    }
    if !isNewThread {
      var _ := db.Exec(Success(MergeParticipants(db.tables, thread.value, people)));
    }
    r := Success(());
  }

  predicate Addressed(t: Tables, inbox: Id, address: Bytes)
  {
    inbox in t.inboxes && t.inboxes[inbox].email == address && t.inboxes[inbox].active
  }

  ghost function IngestOutcome(t: Tables, address: Bytes, inbox: Id, mail: Mail, match': Id, drawn: Drawn, now: Time,
                               stored: nat -> bool): Result<Tables, Error>
  {
    if !Addressed(t, inbox, address) then Success(t)
    else IngestTxOutcome(t, inbox, mail, InboundFiles(mail.parts, |mail.parts|, stored), match', drawn, now)
  }

  /**
    processForRecipient. inbox and match' are the rows that the two LIMIT-1 lookups pick, when
    there is one to pick; a recipient without an inbox is skipped.
   */
  method ProcessForRecipient(db: Connection, address: Bytes, inbox: Id, mail: Mail, match': Id, drawn: Drawn, now: Time,
                             stored: nat -> bool)
    returns (r: Result<(), Error>)
    requires (exists i :: Addressed(db.tables, i, address)) ==> Addressed(db.tables, inbox, address)
    requires Addressed(db.tables, inbox, address) ==>
               var matches := Matches(db.tables, db.tables.inboxes[inbox].org, inbox, LookupIds(mail));
               matches != {} ==> match' in matches
    modifies db
    ensures r.Success? ==>
            IngestOutcome(old(db.tables), address, inbox, mail, match', drawn, now, stored) == Success(db.tables)
    ensures r.Failure? ==> db.tables == old(db.tables)
    ensures db.Reliable() && r.Failure? ==>
            IngestOutcome(old(db.tables), address, inbox, mail, match', drawn, now, stored).Failure?
  {
    var lookedUp := db.Alone();
    if !lookedUp {
      return Failure(Unavailable);
    }
    if !Addressed(db.tables, inbox, address) {
      return Success(());
    }
    var files := UploadParts(mail.parts, stored);
    var begun := db.Begin();
    if !begun {
      return Failure(Unavailable);
    }
    r := IngestTx(db, inbox, mail, files, match', drawn, now);
    if r.Failure? {
      db.Rollback();
      return;
    }
    var committed := db.Commit();
    if !committed {
      r := Failure(Unavailable);
    }
  }
}
