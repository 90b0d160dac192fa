/** When each operation succeeds: conditions on the request, the rows it names and the ids drawn for it. */
module SuccessConditions {
  import opened Wrappers
  import opened Text
  import opened Database
  import opened StoredRows
  import opened TableInvariants
  import opened Uploads
  import Base64
  import DraftService
  import DraftStore
  import EmailInbound
  import MessageService
  import ReplyChains

  // ---- Attachment rows ----

  /** The ids from the k-th to the n-th are not taken, and no two of them are the same. */
  ghost predicate Unused(taken: map<Id, Attachment>, ids: nat -> Id, k: nat, n: nat)
  {
    && (forall i: nat :: k <= i < n ==> ids(i) !in taken)
    && forall i: nat, j: nat :: k <= i < j < n ==> ids(i) != ids(j)
  }

  lemma UnusedStep(taken: map<Id, Attachment>, ids: nat -> Id, k: nat, n: nat, row: Attachment)
    requires k < n
    ensures Unused(taken, ids, k, n) <==> ids(k) !in taken && Unused(taken[ids(k) := row], ids, k + 1, n)
  {
  }

  /** Inserting files goes through exactly when their ids are unused; the owner is there. */
  lemma {:induction false} FilesInsertedIff(t: Tables, org: Id, msg: Option<Id>, draft: Option<Id>, files: seq<File>,
                                            ids: nat -> Id, k: nat, now: Time)
    requires k <= |files| && (msg.Some? || draft.Some?)
    requires (msg.Some? ==> msg.value in t.messages) && (draft.Some? ==> draft.value in t.drafts)
    ensures AddFiles(t, org, msg, draft, files, ids, k, now).Success? <==> Unused(t.attachments, ids, k, |files|)
    decreases |files| - k
  {
    if k < |files| {
      var row := Attachment(org, msg, draft, files[k], now);
      UnusedStep(t.attachments, ids, k, |files|, row);
      if ids(k) !in t.attachments {
        FilesInsertedIff(t.InsertAttachment(ids(k), row).value, org, msg, draft, files, ids, k + 1, now);
      }
    }
  }

  // ---- Drafts ----

  /** The attachments of a request all decode. */
  predicate AllDecode(atts: seq<AttachmentRequest>)
  {
    forall i :: 0 <= i < |atts| ==> Decodes(atts[i])
  }

  /**
    Creating a draft succeeds exactly for a request with recipients, valid addresses and attachments that decode, whose
    inbox and thread are there, under new ids. Whose inbox and thread they are is not asked.
   */
  lemma CreateSucceedsIff(t: Tables, org: Id, req: DraftService.CreateRequest, id: Id, drawn: Drawn, now: Time,
                          valid: DraftService.AddressCheck)
    ensures DraftService.CreateOutcome(t, org, req, id, drawn, now, valid).Success? <==>
            && req.to != [] && AllValid(req.to, valid) && AllValid(req.cc, valid) && AllValid(req.bcc, valid)
            && AllDecode(req.attachments) && id !in t.drafts && req.inbox in t.inboxes
            && (req.thread.Some? ==> req.thread.value in t.threads)
            && Unused(t.attachments, drawn.attachments, 0, |req.attachments|)
  {
    FilesMean(req.attachments, |req.attachments|);
    var row := DraftService.NewDraft(org, req, now);
    if AllDecode(req.attachments) && t.InsertDraft(id, row).Success? {
      var files := Files(req.attachments, |req.attachments|).value;
      FilesInsertedIff(t.InsertDraft(id, row).value, org, None, Some(id), files, drawn.attachments, 0, now);
    }
    assert DraftService.ValidAddresses(req.to, valid) <==> AllValid(req.to, valid);
    assert DraftService.ValidAddresses(req.cc, valid) <==> AllValid(req.cc, valid);
    assert DraftService.ValidAddresses(req.bcc, valid) <==> AllValid(req.bcc, valid);
  }

  ghost predicate GivenValid(addrs: Option<seq<Address>>, valid: DraftService.AddressCheck)
  {
    addrs.Some? ==> AllValid(addrs.value, valid)
  }

  lemma PatchSucceeds(t: Tables, org: Id, id: Id, req: DraftService.UpdateRequest, now: Time)
    requires id in t.drafts && t.drafts[id].org == org
    ensures
      var patched := DraftStore.UpdateOutcome(t, org, id, DraftService.ContentPatch(req), now);
      patched.Success? && id in patched.value.drafts && patched.value.attachments == t.attachments
  {
  }

  lemma UpdateTxSucceedsIff(t: Tables, org: Id, id: Id, req: DraftService.UpdateRequest, files: seq<File>,
                            drawn: Drawn, now: Time)
    ensures DraftService.UpdateTxOutcome(t, org, id, req, files, drawn, now).Success? <==>
            && id in t.drafts && t.drafts[id].org == org && t.drafts[id].status == Pending
            && (req.attachments.Some? ==>
                  Unused(t.attachments - t.DraftAttachments(org, id), drawn.attachments, 0, |files|))
  {
    if id in t.drafts && t.drafts[id].org == org {
      PatchSucceeds(t, org, id, req, now);
      var patched := DraftStore.UpdateOutcome(t, org, id, DraftService.ContentPatch(req), now).value;
      assert patched.DraftAttachments(org, id) == t.DraftAttachments(org, id);
      FilesInsertedIff(patched.DeleteDraftAttachments(org, id), org, None, Some(id), files, drawn.attachments, 0, now);
    }
  }

  lemma GivenIsValid(addrs: Option<seq<Address>>, valid: DraftService.AddressCheck)
    ensures DraftService.ValidAddresses(DraftService.Given(addrs), valid) <==> GivenValid(addrs, valid)
  {
  }

  /**
    Updating succeeds exactly for a pending draft of the organisation and a request whose addresses are valid and whose
    attachments decode, when the ids drawn for these are not those of attachments that stay.
   */
  lemma UpdateSucceedsIff(t: Tables, org: Id, id: Id, req: DraftService.UpdateRequest, drawn: Drawn, now: Time,
                          valid: DraftService.AddressCheck)
    ensures DraftService.UpdateOutcome(t, org, id, req, drawn, now, valid).Success? <==>
            && GivenValid(req.to, valid) && GivenValid(req.cc, valid) && GivenValid(req.bcc, valid)
            && id in t.drafts && t.drafts[id].org == org && t.drafts[id].status == Pending
            && (req.attachments.Some? ==>
                  && AllDecode(req.attachments.value)
                  && Unused(t.attachments - t.DraftAttachments(org, id), drawn.attachments, 0, |req.attachments.value|))
  {
    var given := DraftService.Given(req.attachments);
    FilesMean(given, |given|);
    GivenIsValid(req.to, valid);
    GivenIsValid(req.cc, valid);
    GivenIsValid(req.bcc, valid);
    if AllDecode(given) {
      UpdateTxSucceedsIff(t, org, id, req, Files(given, |given|).value, drawn, now);
    }
  }

  // ---- Messages ----

  /** An attachment that may be sent decodes, to ten megabytes at most. */
  predicate Attachable(a: AttachmentRequest)
  {
    Decodes(a) && |Base64.Decode(a.content).value| <= 10 * 1024 * 1024
  }

  /** What a request to send must have before anything is looked up. */
  predicate Complete(req: MessageService.SendRequest)
  {
    && req.to != [] && (forall i :: 0 <= i < |req.to| ==> req.to[i].email != [] && '@' in req.to[i].email)
    && (req.bodyText != [] || req.bodyHtml != [])
    && forall i :: 0 <= i < |req.attachments| ==> Attachable(req.attachments[i])
  }

  lemma SendableIffComplete(req: MessageService.SendRequest)
    ensures MessageService.Sendable(req) <==> Complete(req)
  {
    FilesMean(req.attachments, |req.attachments|);
    if Files(req.attachments, |req.attachments|).Success? {
      var files := Files(req.attachments, |req.attachments|).value;
      forall i | 0 <= i < |files|
        ensures files[i].size <= MessageService.MAX_ATTACHMENT_BYTES <==> Attachable(req.attachments[i])
      {
        assert IsFileOf(files[i], req.attachments[i]);
      }
    }
  }

  /** The parent is the organisation's, and so is its thread; without a parent, the thread's id is new. */
  ghost predicate Placeable(t: Tables, org: Id, replyTo: Option<Id>, thread: Id)
  {
    match replyTo
    case Some(p) =>
      && p in t.messages && t.messages[p].org == org
      && t.messages[p].thread in t.threads && t.threads[t.messages[p].thread].org == org
    case None => thread !in t.threads
  }

  lemma SendTxSucceedsIff(t: Tables, org: Id, inbox: Id, req: MessageService.SendRequest, files: seq<File>,
                          drawn: Drawn, now: Time)
    ensures MessageService.SendTxOutcome(t, org, inbox, req, files, drawn, now).Success? <==>
            && inbox in t.inboxes && t.inboxes[inbox].org == org && Placeable(t, org, req.replyTo, drawn.thread)
            && drawn.message !in t.messages && Unused(t.attachments, drawn.attachments, 0, |files|)
  {
    if t.GetInbox(org, inbox).Success? {
      var row := t.GetInbox(org, inbox).value;
      var place := MessageService.Place(t, org, inbox, row, req, drawn, now);
      assert place.Success? <==> Placeable(t, org, req.replyTo, drawn.thread);
      if place.Success? && drawn.message !in t.messages {
        var p := place.value;
        var msg := MessageService.OutboundMessage(org, inbox, row, req, p.thread, p.inReplyTo, p.references,
                                                  drawn.header, files != [], now);
        var created := p.tables.InsertMessage(drawn.message, msg);
        FilesInsertedIff(created.value, org, Some(drawn.message), None, files, drawn.attachments, 0, now);
      }
    }
  }

  /**
    Sending succeeds exactly for a complete request, from an inbox of the organisation, as a reply to one of its
    messages or to none, under new ids.
   */
  lemma SendSucceedsIff(t: Tables, org: Id, inbox: Id, req: MessageService.SendRequest, drawn: Drawn, now: Time)
    ensures MessageService.SendOutcome(t, org, inbox, req, drawn, now).Success? <==>
            && Complete(req) && inbox in t.inboxes && t.inboxes[inbox].org == org
            && Placeable(t, org, req.replyTo, drawn.thread) && drawn.message !in t.messages
            && Unused(t.attachments, drawn.attachments, 0, |req.attachments|)
  {
    SendableIffComplete(req);
    FilesMean(req.attachments, |req.attachments|);
    if MessageService.Sendable(req) {
      SendTxSucceedsIff(t, org, inbox, req, Files(req.attachments, |req.attachments|).value, drawn, now);
    }
  }

  /** Some message of the inbox's threads carries an id that the mail names. */
  ghost predicate HasMatch(t: Tables, inbox: Id, mail: EmailInbound.Mail)
    requires inbox in t.inboxes
  {
    exists m :: ReplyChains.NamedBy(t, mail, m) && ReplyChains.InInbox(t, inbox, m)
  }

  lemma MatchesIff(t: Tables, inbox: Id, mail: EmailInbound.Mail)
    requires inbox in t.inboxes
    ensures HasMatch(t, inbox, mail) <==>
            EmailInbound.Matches(t, t.inboxes[inbox].org, inbox, EmailInbound.LookupIds(mail)) != {}
  {
    var matches := EmailInbound.Matches(t, t.inboxes[inbox].org, inbox, EmailInbound.LookupIds(mail));
    Inhabited(matches);
    if HasMatch(t, inbox, mail) {
      var m :| ReplyChains.NamedBy(t, mail, m) && ReplyChains.InInbox(t, inbox, m);
      ReplyChains.MatchesAreNamed(t, inbox, mail, m);
    } else if matches != {} {
      var m :| m in matches;
      ReplyChains.MatchesAreNamed(t, inbox, mail, m);
    }
  }

  /**
    Storing a received mail succeeds exactly when the row that the lookup picked is a match, or the thread's id is new
    if there is none, and the ids of message and attachments are new.
   */
  lemma IngestSucceedsIff(t: Tables, inbox: Id, mail: EmailInbound.Mail, files: seq<File>, match': Id, drawn: Drawn,
                          now: Time)
    requires inbox in t.inboxes
    ensures EmailInbound.IngestTxOutcome(t, inbox, mail, files, match', drawn, now).Success? <==>
            && (if HasMatch(t, inbox, mail)
                then ReplyChains.NamedBy(t, mail, match') && ReplyChains.InInbox(t, inbox, match')
                else drawn.thread !in t.threads)
            && drawn.message !in t.messages && Unused(t.attachments, drawn.attachments, 0, |files|)
  {
    MatchesIff(t, inbox, mail);
    ReplyChains.MatchesAreNamed(t, inbox, mail, match');
    var joined := EmailInbound.JoinThread(t, inbox, mail, match', drawn, now);
    if joined.Success? && drawn.message !in t.messages {
      var (started, thread) := joined.value;
      var msg := EmailInbound.InboundMessage(t.inboxes[inbox].org, inbox, mail, thread, files != [], now);
      var created := started.InsertMessage(drawn.message, msg).value;
      FilesInsertedIff(created, t.inboxes[inbox].org, Some(drawn.message), None, files, drawn.attachments, 0, now);
      if Unused(t.attachments, drawn.attachments, 0, |files|) {
        AddFilesOwned(created, t.inboxes[inbox].org, Some(drawn.message), None, files, drawn.attachments, 0, now);
      }
    }
  }
}
