/**
  The PostgreSQL tables that the inbox and email services share, the statements those services
  send, and the transaction they wrap them in (pkg/db).
 */
module Database {
  import opened Wrappers
  import opened Text

  type Id = int
  type Time = int

  datatype Error = BadRequest | NotFound | InvalidReviewStatus | Violation | Unavailable

  datatype Address = Address(email: Bytes, name: Bytes)

  datatype Inbox = Inbox(org: Id, email: Bytes, displayName: Bytes, active: bool)

  datatype ThreadStatus = Open | Closed | Spam | Trash

  datatype Thread = Thread(
    org: Id, inbox: Id, subject: Bytes, snippet: Bytes, status: ThreadStatus, isRead: bool, isStarred: bool,
    messageCount: int, participants: seq<Address>, lastMessageAt: Option<Time>, createdAt: Time)

  datatype MessageStatus = Received | Sending | Sent | Failed | Bounced

  datatype Message = Message(
    org: Id, inbox: Id, thread: Id, header: Bytes, inReplyTo: Bytes, references: seq<Bytes>,
    outbound: bool, status: MessageStatus, from: Address, to: seq<Address>, cc: seq<Address>, bcc: seq<Address>,
    subject: Bytes, metadata: Bytes, hasAttachments: bool, sentAt: Option<Time>, createdAt: Time)

  datatype ReviewStatus = Pending | Approved | Rejected | ReviewSent

  /** A row of drafts. There is no in_reply_to column. */
  datatype Draft = Draft(
    org: Id, inbox: Id, thread: Option<Id>, subject: Bytes, to: seq<Address>, cc: seq<Address>, bcc: seq<Address>,
    textBody: Bytes, htmlBody: Bytes, scheduledAt: Option<Time>, status: ReviewStatus, note: Bytes,
    reviewedAt: Option<Time>, reviewedBy: Option<Id>, message: Option<Id>, metadata: Bytes,
    createdAt: Time, updatedAt: Time)

  /** What an attachment row says besides its owner. */
  datatype File = File(filename: Bytes, contentType: Bytes, size: nat, contentId: Bytes, inline: bool)

  datatype Attachment = Attachment(org: Id, message: Option<Id>, draft: Option<Id>, file: File, createdAt: Time)

  /** Rows are keyed by their id; keys, references and checks are enforced by the insert functions. */
  datatype Tables = Tables(
    inboxes: map<Id, Inbox>, threads: map<Id, Thread>, messages: map<Id, Message>,
    drafts: map<Id, Draft>, attachments: map<Id, Attachment>)
  {
    function GetInbox(org: Id, id: Id): Result<Inbox, Error>
    {
      if id in inboxes && inboxes[id].org == org then Success(inboxes[id]) else Failure(NotFound)
    }

    function GetThread(org: Id, id: Id): Result<Thread, Error>
    {
      if id in threads && threads[id].org == org then Success(threads[id]) else Failure(NotFound)
    }

    function GetMessage(org: Id, id: Id): Result<Message, Error>
    {
      if id in messages && messages[id].org == org then Success(messages[id]) else Failure(NotFound)
    }

    function GetDraft(org: Id, id: Id): Result<Draft, Error>
    {
      if id in drafts && drafts[id].org == org then Success(drafts[id]) else Failure(NotFound)
    }

    function InsertThread(id: Id, row: Thread): Result<Tables, Error>
    {
      if id in threads || row.inbox !in inboxes then Failure(Violation)
      else Success(this.(threads := threads[id := row]))
    }

    function InsertMessage(id: Id, row: Message): Result<Tables, Error>
    {
      if id in messages || row.inbox !in inboxes || row.thread !in threads then Failure(Violation)
      else Success(this.(messages := messages[id := row]))
    }

    function InsertDraft(id: Id, row: Draft): Result<Tables, Error>
    {
      if || id in drafts || row.inbox !in inboxes
         || (row.thread.Some? && row.thread.value !in threads)
         || (row.message.Some? && row.message.value !in messages)
      then Failure(Violation)
      else Success(this.(drafts := drafts[id := row]))
    }

    function InsertAttachment(id: Id, row: Attachment): Result<Tables, Error>
    {
      if || id in attachments
         || (row.message.None? && row.draft.None?)
         || (row.message.Some? && row.message.value !in messages)
         || (row.draft.Some? && row.draft.value !in drafts)
      then Failure(Violation)
      else Success(this.(attachments := attachments[id := row]))
    }

    /** UPDATE threads SET message_count = message_count + 1 …: no error when no row matches. */
    function BumpThread(id: Id, at: Time, text: Bytes): Tables
    {
      if id !in threads then this
      else
        var t := threads[id];
        this.(threads := threads[id := t.(messageCount := t.messageCount + 1, lastMessageAt := Some(at),
                                          snippet := text)])
    }

    function SetParticipants(id: Id, people: seq<Address>): Tables
    {
      if id !in threads then this else this.(threads := threads[id := threads[id].(participants := people)])
    }

    function DraftAttachments(org: Id, draft: Id): set<Id>
    {
      set a | a in attachments && attachments[a].org == org && attachments[a].draft == Some(draft)
    }

    function LinkDraftAttachments(draft: Id, msg: Id): Result<Tables, Error>
    {
      if msg !in messages then Failure(Violation)
      else Success(this.(attachments := map a | a in attachments ::
                                          if attachments[a].draft == Some(draft)
                                          then attachments[a].(message := Some(msg), draft := None)
                                          else attachments[a]))
    }

    function DeleteDraftAttachments(org: Id, draft: Id): Tables
    {
      this.(attachments := attachments - DraftAttachments(org, draft))
    }

    /** DELETE FROM drafts, with the cascade to attachments of the draft. */
    function DeleteDraft(org: Id, id: Id): Result<Tables, Error>
    {
      if id !in drafts || drafts[id].org != org then Failure(NotFound)
      else
        var orphans := set a | a in attachments && attachments[a].draft == Some(id);
        Success(this.(drafts := drafts - {id}, attachments := attachments - orphans))
    }

    function PutDraft(id: Id, row: Draft): Tables
    {
      this.(drafts := drafts[id := row])
    }
  }

  /** The rows.Next loop over the rows of an answer. */
  method Collect<T>(answer: seq<T>) returns (rows: seq<T>)
    ensures rows == answer
  {
    rows := [];
    for i := 0 to |answer|
      invariant rows == answer[..i]
    {
      rows := rows + [answer[i]];
    }
  }

  /**
    One connection. A statement may fail for reasons of its own (faults, by position), and a failed
    statement aborts the transaction: everything after it fails, and committing rolls back.
   */
  class Connection {
    var tables: Tables
    var saved: Tables
    var aborted: bool
    var sent: nat
    ghost var faulted: bool
    const faults: nat -> bool

    constructor (tables: Tables, faults: nat -> bool)
      ensures this.tables == tables && this.faults == faults
    {
      this.tables, this.saved, this.aborted, this.sent, this.faulted := tables, tables, false, 0, false;
      this.faults := faults;
    }

    ghost predicate Reliable()
    {
      forall n :: !faults(n)
    }

    method Send() returns (ok: bool)
      modifies this`sent, this`aborted, this`faulted
      ensures ok == !aborted
      ensures aborted == (old(aborted) || faults(old(sent)))
      ensures faulted == (old(faulted) || (!old(aborted) && faults(old(sent))))
    {
      ghost var broken := !aborted && faults(sent);
      aborted := aborted || faults(sent);
      faulted := faulted || broken;
      sent := sent + 1;
      ok := !aborted;
    }

    /** A SELECT, with the answer the tables give. */
    method Query<T>(answer: Result<T, Error>) returns (r: Result<T, Error>)
      modifies this`sent, this`aborted, this`faulted
      ensures !old(aborted) ==> faulted == (old(faulted) || aborted)
      ensures Reliable() && !old(faulted) ==> !faulted
      ensures old(aborted) ==> aborted
      ensures r == if aborted then Failure(Unavailable) else answer
    {
      var ok := Send();
      r := if ok then answer else Failure(Unavailable);
    }

    /** A statement that changes rows, with the tables it would leave; a violated constraint aborts. */
    method Exec(next: Result<Tables, Error>) returns (r: Result<(), Error>)
      requires faulted ==> aborted
      modifies this`tables, this`sent, this`aborted, this`faulted
      ensures faulted ==> aborted
      ensures Reliable() && !old(faulted) ==> !faulted
      ensures old(faulted) ==> faulted
      ensures aborted == (old(aborted) || faulted || next == Failure(Violation))
      ensures r == if faulted || old(aborted) then Failure(Unavailable)
                   else if next.Success? then Success(()) else Failure(next.error)
      ensures tables == if r.Success? then next.value else old(tables)
    {
      var ok := Send();
      if !ok {
        aborted := true;
        return Failure(Unavailable);
      }
      match next {
        case Success(t) =>
          tables := t;
          r := Success(());
        case Failure(e) =>
          aborted := e == Violation;
          r := Failure(e);
      }
    }

    /** A query outside any transaction. */
    method Alone() returns (ok: bool)
      modifies this`sent
      ensures Reliable() ==> ok
    {
      ok := !faults(sent);
      sent := sent + 1;
    }

    method Begin() returns (ok: bool)
      modifies this
      ensures tables == saved == old(tables)
      ensures faulted == aborted == !ok
      ensures Reliable() ==> ok
    {
      saved, aborted, faulted := tables, false, false;
      ok := Send();
    }

    method Rollback()
      modifies this`tables
      ensures tables == saved
    {
      tables := saved;
    }

    /** Committing an aborted transaction rolls it back and reports an error. */
    method Commit() returns (ok: bool)
      modifies this
      ensures saved == old(saved)
      ensures tables == if ok then old(tables) else saved
      ensures old(aborted) ==> !ok
      ensures !old(aborted) ==> faulted == (old(faulted) || !ok)
      ensures old(aborted) ==> faulted == old(faulted)
      ensures Reliable() && !old(faulted) ==> !faulted
    {
      ok := Send();
      if !ok {
        tables := saved;
      }
    }
  }
}
