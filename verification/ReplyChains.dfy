/** Threading headers over runs: chains of replies, and where a received reply lands. */
module ReplyChains {
  import opened Wrappers
  import opened Text
  import opened Database
  import opened TableInvariants
  import opened Runs
  import DraftService
  import MessageService
  import EmailInbound
  import OutboundStatus
  import Uploads

  // ---- Messages never move ----

  /** The parts of a message that threading depends on. */
  ghost predicate SameMail(a: Message, b: Message)
  {
    && a.org == b.org && a.inbox == b.inbox && a.thread == b.thread && a.header == b.header
    && a.inReplyTo == b.inReplyTo && a.references == b.references
  }

  ghost predicate SamePlace(a: Thread, b: Thread)
  {
    a.org == b.org && a.inbox == b.inbox
  }

  /** Messages and threads stay, with their threading data; so do inboxes. */
  ghost predicate Settled(t: Tables, t': Tables)
  {
    && (forall m :: m in t.messages ==> m in t'.messages && SameMail(t.messages[m], t'.messages[m]))
    && (forall th :: th in t.threads ==> th in t'.threads && SamePlace(t.threads[th], t'.threads[th]))
    && t'.inboxes == t.inboxes
  }

  lemma PostsSettles(t: Tables, t': Tables, m: Id)
    requires m in t'.messages && Posts(t, t', t'.messages[m].thread, m) && t'.inboxes == t.inboxes
    ensures Settled(t, t')
  {
  }

  lemma StepSettles(t: Tables, op: Op, valid: DraftService.AddressCheck)
    requires Inv(t) && Apply(op, t, valid).Success?
    ensures Settled(t, Apply(op, t, valid).value)
  {
    match op
    case CreateDraft(org, req, draft, drawn, now) => CreateSettles(t, org, req, draft, drawn, now, valid);
    case UpdateDraft(org, draft, req, drawn, now) => UpdateSettles(t, org, draft, req, drawn, now, valid);
    case DeleteDraft(org, draft) =>
    case ApproveDraft(org, draft, note, reviewer, drawn, now) =>
      ApproveSettles(t, org, draft, note, reviewer, drawn, now);
    case RejectDraft(org, draft, note, reviewer, now) => RejectSettles(t, org, draft, note, reviewer, now);
    case SendMessage(org, inbox, req, drawn, now) => SendSettles(t, org, inbox, req, drawn, now);
    case ReplyToAll(org, inbox, original, req, fold, drawn, now) =>
      SendSettles(t, org, inbox,
                  MessageService.ReplyAllSend(t.messages[original], original, t.inboxes[inbox], req, fold), drawn, now);
    case Ingest(address, inbox, mail, match', drawn, now, stored) =>
      IngestSettles(t, address, inbox, mail, match', drawn, now, stored);
    case StartSending(org, message) => StatusOpSettles(t, op, valid);
    case FinishSending(message, now) => StatusOpSettles(t, op, valid);
    case NoticeSes(header, notice, now) => StatusOpSettles(t, op, valid);
  }

  lemma StatusOpSettles(t: Tables, op: Op, valid: DraftService.AddressCheck)
    requires op.StartSending? || op.FinishSending? || op.NoticeSes?
    requires Apply(op, t, valid).Success?
    ensures Settled(t, Apply(op, t, valid).value)
  {
    OnlyStatusesChange(t, op, valid);
    var t' := Apply(op, t, valid).value;
    forall m | m in t.messages
      ensures m in t'.messages && SameMail(t.messages[m], t'.messages[m])
    {
    }
  }

  lemma ApproveSettles(t: Tables, org: Id, draft: Id, note: Bytes, reviewer: Id, drawn: Drawn, now: Time)
    requires Inv(t) && DraftService.ApproveOutcome(t, org, draft, note, reviewer, drawn, now).Success?
    ensures Settled(t, DraftService.ApproveOutcome(t, org, draft, note, reviewer, drawn, now).value)
  {
    ApproveShape(t, org, draft, note, reviewer, drawn, now);
    PostsSettles(t, DraftService.ApproveOutcome(t, org, draft, note, reviewer, drawn, now).value, drawn.message);
  }

  lemma IngestSettles(t: Tables, address: Bytes, inbox: Id, mail: EmailInbound.Mail, match': Id, drawn: Drawn,
                      now: Time, stored: nat -> bool)
    requires Inv(t) && EmailInbound.IngestOutcome(t, address, inbox, mail, match', drawn, now, stored).Success?
    ensures Settled(t, EmailInbound.IngestOutcome(t, address, inbox, mail, match', drawn, now, stored).value)
  {
    if EmailInbound.Addressed(t, inbox, address) {
      IngestDelivers(t, inbox, mail, EmailInbound.InboundFiles(mail.parts, |mail.parts|, stored), match', drawn, now);
      PostsSettles(t, EmailInbound.IngestOutcome(t, address, inbox, mail, match', drawn, now, stored).value,
                   drawn.message);
    }
  }

  lemma CreateSettles(t: Tables, org: Id, req: DraftService.CreateRequest, id: Id, drawn: Drawn, now: Time,
                      valid: DraftService.AddressCheck)
    requires DraftService.CreateOutcome(t, org, req, id, drawn, now, valid).Success?
    ensures Settled(t, DraftService.CreateOutcome(t, org, req, id, drawn, now, valid).value)
  {
    var files := Uploads.Files(req.attachments, |req.attachments|).value;
    AddFilesOwned(t.InsertDraft(id, DraftService.NewDraft(org, req, now)).value, org, None, Some(id), files,
                  drawn.attachments, 0, now);
  }

  lemma RejectSettles(t: Tables, org: Id, id: Id, reason: Bytes, reviewer: Id, now: Time)
    requires DraftService.RejectOutcome(t, org, id, reason, reviewer, now).Success?
    ensures Settled(t, DraftService.RejectOutcome(t, org, id, reason, reviewer, now).value)
  {
  }

  lemma SendSettles(t: Tables, org: Id, inbox: Id, req: MessageService.SendRequest, drawn: Drawn, now: Time)
    requires Inv(t) && MessageService.SendOutcome(t, org, inbox, req, drawn, now).Success?
    ensures Settled(t, MessageService.SendOutcome(t, org, inbox, req, drawn, now).value)
  {
    SendDelivers(t, org, inbox, req, Uploads.Files(req.attachments, |req.attachments|).value, drawn, now);
    PostsSettles(t, MessageService.SendOutcome(t, org, inbox, req, drawn, now).value, drawn.message);
  }

  lemma UpdateSettles(t: Tables, org: Id, id: Id, req: DraftService.UpdateRequest, drawn: Drawn, now: Time,
                      valid: DraftService.AddressCheck)
    requires DraftService.UpdateOutcome(t, org, id, req, drawn, now, valid).Success?
    ensures Settled(t, DraftService.UpdateOutcome(t, org, id, req, drawn, now, valid).value)
  {
    UpdateDrafts(t, org, id, req, drawn, now, valid);
    if req.attachments.Some? {
      var patched := t.PutDraft(id, DraftService.DraftStore.Patched(t.drafts[id], DraftService.ContentPatch(req), now));
      var files := Uploads.Files(DraftService.Given(req.attachments), |DraftService.Given(req.attachments)|).value;
      AddFilesOwned(patched.DeleteDraftAttachments(org, id), org, None, Some(id), files, drawn.attachments, 0, now);
    }
  }

  lemma FollowsSettles(t: Tables, t': Tables, op: Op, committed: bool, valid: DraftService.AddressCheck)
    requires Inv(t) && Follows(t, t', op, committed, valid)
    ensures Settled(t, t')
  {
    if committed {
      StepSettles(t, op, valid);
    }
  }

  lemma {:induction false} RunSettles(states: seq<Tables>, ops: seq<Op>, committed: seq<bool>,
                                      valid: DraftService.AddressCheck, i: nat, j: nat)
    requires IsRun(states, ops, committed, valid) && Inv(states[0]) && i <= j < |states|
    ensures Settled(states[i], states[j])
    decreases j - i
  {
    if i < j {
      RunSettles(states, ops, committed, valid, i, j - 1);
      RunKeepsInvariant(states, ops, committed, valid, j - 1);
      FollowsSettles(states[j - 1], states[j], ops[j - 1], committed[j - 1], valid);
      SettledTransitive(states[i], states[j - 1], states[j]);
    }
  }

  lemma SettledTransitive(a: Tables, b: Tables, c: Tables)
    requires Settled(a, b) && Settled(b, c)
    ensures Settled(a, c)
  {
  }

  // ---- Chains ----

  /** The request that Send receives from an operation, if it sends. */
  ghost function Request(op: Op, t: Tables): Option<MessageService.SendRequest>
  {
    match op
    case SendMessage(_, _, send, _, _) => Some(send)
    case ReplyToAll(org, inbox, original, reply, fold, _, _) =>
      if t.GetMessage(org, original).Success? && t.GetInbox(org, inbox).Success?
      then Some(MessageService.ReplyAllSend(t.messages[original], original, t.inboxes[inbox], reply, fold))
      else None
    case _ => None
  }

  ghost predicate AreSends(ops: seq<Op>, steps: seq<nat>)
  {
    forall k :: 0 <= k < |steps| ==> steps[k] < |ops| && (ops[steps[k]].SendMessage? || ops[steps[k]].ReplyToAll?)
  }

  /**
    steps are the positions of sends in a run: a fresh send, and then at each step a committed reply, by Send or
    by reply-all, to the message of the step before.
   */
  ghost predicate IsChain(states: seq<Tables>, ops: seq<Op>, committed: seq<bool>, valid: DraftService.AddressCheck,
                          steps: seq<nat>)
    requires IsRun(states, ops, committed, valid)
  {
    && steps != [] && AreSends(ops, steps)
    && (forall n :: 0 <= n < |steps| ==> committed[steps[n]] && Request(ops[steps[n]], states[steps[n]]).Some?)
    && (forall n :: 0 < n < |steps| ==> steps[n - 1] < steps[n])
    && Request(ops[steps[0]], states[steps[0]]).value.replyTo == None
    && (forall n :: 0 < n < |steps| ==>
          Request(ops[steps[n]], states[steps[n]]).value.replyTo == Some(ops[steps[n - 1]].drawn.message))
  }

  ghost function Headers(ops: seq<Op>, steps: seq<nat>, n: nat): seq<Bytes>
    requires n <= |steps|
    requires AreSends(ops, steps)
  {
    seq(n, k requires 0 <= k < n => ops[steps[k]].drawn.header)
  }

  /** A message that replies to the parent in t, or begins the given thread. */
  ghost predicate Answers(m: Message, t: Tables, parent: Option<Id>, thread: Id)
  {
    match parent
    case None => m.references == [] && m.inReplyTo == [] && m.thread == thread
    case Some(p) =>
      && p in t.messages
      && m.references == t.messages[p].references + [t.messages[p].header]
      && m.inReplyTo == t.messages[p].header && m.thread == t.messages[p].thread
  }

  /** What one committed send writes, in terms of the message it replies to. */
  lemma SendWrites(t: Tables, op: Op, valid: DraftService.AddressCheck)
    requires Inv(t) && Request(op, t).Some? && Apply(op, t, valid).Success?
    ensures
      var t', m := Apply(op, t, valid).value, op.drawn.message;
      && m in t'.messages && t'.messages[m].header == op.drawn.header
      && Answers(t'.messages[m], t, Request(op, t).value.replyTo, op.drawn.thread)
  {
    var send := Request(op, t).value;
    SendDelivers(t, op.org, op.inbox, send, Uploads.Files(send.attachments, |send.attachments|).value, op.drawn,
                 op.now);
  }

  /** The message that a step of a chain writes, at any later state, in terms of the state it was written in. */
  lemma StepWritten(states: seq<Tables>, ops: seq<Op>, committed: seq<bool>, valid: DraftService.AddressCheck, i: nat,
                    j: nat)
    requires IsRun(states, ops, committed, valid) && Inv(states[0]) && i < j < |states|
    requires committed[i] && Request(ops[i], states[i]).Some?
    ensures
      var t, m := states[i], ops[i].drawn.message;
      && m in states[j].messages && states[j].messages[m].header == ops[i].drawn.header
      && Answers(states[j].messages[m], t, Request(ops[i], t).value.replyTo, ops[i].drawn.thread)
  {
    RunKeepsInvariant(states, ops, committed, valid, i);
    assert Follows(states[i], states[i + 1], ops[i], committed[i], valid);
    SendWrites(states[i], ops[i], valid);
    RunSettles(states, ops, committed, valid, i + 1, j);
  }

  /**
    The mail of the n-th step: its References are the ids of all ancestors, oldest first, and In-Reply-To the last of
    them.
   */
  ghost predicate Chained(m: Message, ops: seq<Op>, steps: seq<nat>, n: nat)
    requires AreSends(ops, steps) && n < |steps|
  {
    && m.header == ops[steps[n]].drawn.header && m.references == Headers(ops, steps, n)
    && m.inReplyTo == (if n == 0 then [] else ops[steps[n - 1]].drawn.header)
    && m.thread == ops[steps[0]].drawn.thread
  }

  lemma ChainBegins(m: Message, t: Tables, ops: seq<Op>, steps: seq<nat>)
    requires AreSends(ops, steps) && steps != []
    requires m.header == ops[steps[0]].drawn.header && Answers(m, t, None, ops[steps[0]].drawn.thread)
    ensures Chained(m, ops, steps, 0)
  {
  }

  lemma ChainGoesOn(m: Message, t: Tables, ops: seq<Op>, steps: seq<nat>, n: nat, thread: Id)
    requires AreSends(ops, steps) && 0 < n < |steps|
    requires m.header == ops[steps[n]].drawn.header && Answers(m, t, Some(ops[steps[n - 1]].drawn.message), thread)
    requires Chained(t.messages[ops[steps[n - 1]].drawn.message], ops, steps, n - 1)
    ensures Chained(m, ops, steps, n)
  {
    assert Headers(ops, steps, n) == Headers(ops, steps, n - 1) + [ops[steps[n - 1]].drawn.header];
  }

  /** The n-th message of a chain is there in every later state, and names all its ancestors. */
  lemma {:induction false} ChainReferences(states: seq<Tables>, ops: seq<Op>, committed: seq<bool>,
                                           valid: DraftService.AddressCheck, steps: seq<nat>, n: nat, j: nat)
    requires IsRun(states, ops, committed, valid) && Inv(states[0]) && IsChain(states, ops, committed, valid, steps)
    requires n < |steps| && steps[n] < j < |states|
    ensures
      var m := ops[steps[n]].drawn.message;
      m in states[j].messages && Chained(states[j].messages[m], ops, steps, n)
    decreases n
  {
    var i := steps[n];
    StepWritten(states, ops, committed, valid, i, j);
    var m := states[j].messages[ops[i].drawn.message];
    if n == 0 {
      ChainBegins(m, states[i], ops, steps);
    } else {
      ChainReferences(states, ops, committed, valid, steps, n - 1, i);
      ChainGoesOn(m, states[i], ops, steps, n, ops[i].drawn.thread);
    }
  }

  /** With ids drawn once, References repeats nothing and ends in In-Reply-To. */
  lemma ChainReferencesDistinct(states: seq<Tables>, ops: seq<Op>, committed: seq<bool>,
                                valid: DraftService.AddressCheck, steps: seq<nat>, n: nat, j: nat)
    requires IsRun(states, ops, committed, valid) && Inv(states[0]) && IsChain(states, ops, committed, valid, steps)
    requires forall k, l :: 0 <= k < l < |steps| ==> ops[steps[k]].drawn.header != ops[steps[l]].drawn.header
    requires n < |steps| && steps[n] < j < |states|
    ensures
      var m := ops[steps[n]].drawn.message;
      m in states[j].messages &&
      var references := states[j].messages[m].references;
      && |references| == n
      && (forall k, l :: 0 <= k < l < |references| ==> references[k] != references[l])
      && (n > 0 ==> references[n - 1] == states[j].messages[m].inReplyTo)
      && states[j].messages[m].header !in references
  {
    ChainReferences(states, ops, committed, valid, steps, n, j);
  }

  // ---- Received replies ----

  /** The ids that a mail names: its In-Reply-To, if there is one, and its References. */
  ghost predicate NamesId(mail: EmailInbound.Mail, id: Bytes)
  {
    (mail.inReplyTo != [] && id == mail.inReplyTo) || id in mail.references
  }

  lemma NamedIsLookedUp(mail: EmailInbound.Mail, id: Bytes)
    ensures NamesId(mail, id) <==> id in EmailInbound.LookupIds(mail)
  {
  }

  /** Message m carries an id that the mail names. */
  ghost predicate NamedBy(t: Tables, mail: EmailInbound.Mail, m: Id)
  {
    m in t.messages && NamesId(mail, t.messages[m].header)
  }

  /** Message m is in a thread of the inbox, and of the inbox's organisation. */
  ghost predicate InInbox(t: Tables, inbox: Id, m: Id)
    requires inbox in t.inboxes
  {
    && m in t.messages && t.messages[m].thread in t.threads
    && t.threads[t.messages[m].thread].org == t.inboxes[inbox].org && t.threads[t.messages[m].thread].inbox == inbox
  }

  lemma MatchesAreNamed(t: Tables, inbox: Id, mail: EmailInbound.Mail, m: Id)
    requires inbox in t.inboxes
    ensures m in EmailInbound.Matches(t, t.inboxes[inbox].org, inbox, EmailInbound.LookupIds(mail)) <==>
            NamedBy(t, mail, m) && InInbox(t, inbox, m)
  {
    if m in t.messages {
      NamedIsLookedUp(mail, t.messages[m].header);
    }
  }

  /** A received mail opens a new thread exactly when no message of the inbox's threads carries an id that it names. */
  lemma NewThreadIffNoMatch(t: Tables, inbox: Id, mail: EmailInbound.Mail, files: seq<File>, match': Id, drawn: Drawn,
                            now: Time)
    requires Inv(t) && inbox in t.inboxes
    requires EmailInbound.IngestTxOutcome(t, inbox, mail, files, match', drawn, now).Success?
    ensures
      var t' := EmailInbound.IngestTxOutcome(t, inbox, mail, files, match', drawn, now).value;
      && drawn.message in t'.messages
      && (t'.messages[drawn.message].thread !in t.threads <==>
          forall m :: NamedBy(t, mail, m) ==> !InInbox(t, inbox, m))
      && (t'.messages[drawn.message].thread in t.threads ==>
            && NamedBy(t, mail, match') && InInbox(t, inbox, match')
            && t'.messages[drawn.message].thread == t.messages[match'].thread)
  {
    IngestDelivers(t, inbox, mail, files, match', drawn, now);
    var matches := EmailInbound.Matches(t, t.inboxes[inbox].org, inbox, EmailInbound.LookupIds(mail));
    Inhabited(matches);
    forall m
      ensures m in matches <==> NamedBy(t, mail, m) && InInbox(t, inbox, m)
    {
      MatchesAreNamed(t, inbox, mail, m);
    }
  }

  /**
    A reply to a message of thread th, when the ids that it names are carried only in th: it joins th, whichever row
    LIMIT 1 picks, if and only if th is a thread of the inbox that receives the reply and of its organisation.
   */
  lemma ReplyJoinsIff(t: Tables, inbox: Id, mail: EmailInbound.Mail, files: seq<File>, match': Id, drawn: Drawn,
                      now: Time, th: Id, parent: Id)
    requires Inv(t) && inbox in t.inboxes
    requires EmailInbound.IngestTxOutcome(t, inbox, mail, files, match', drawn, now).Success?
    requires NamedBy(t, mail, parent)
    requires forall m :: NamedBy(t, mail, m) ==> t.messages[m].thread == th
    ensures
      var t' := EmailInbound.IngestTxOutcome(t, inbox, mail, files, match', drawn, now).value;
      && drawn.message in t'.messages
      && (t'.messages[drawn.message].thread == th <==>
          t.threads[th].inbox == inbox && t.threads[th].org == t.inboxes[inbox].org)
  {
    NewThreadIffNoMatch(t, inbox, mail, files, match', drawn, now);
  }

  /** Every message of a chain up to one that is there lies in the chain's thread. */
  lemma ChainMember(states: seq<Tables>, ops: seq<Op>, committed: seq<bool>, valid: DraftService.AddressCheck,
                    steps: seq<nat>, l: nat, n: nat, j: nat)
    requires IsRun(states, ops, committed, valid) && Inv(states[0]) && IsChain(states, ops, committed, valid, steps)
    requires l <= n < |steps| && steps[n] < j < |states|
    ensures
      var m := ops[steps[l]].drawn.message;
      m in states[j].messages && states[j].messages[m].thread == ops[steps[0]].drawn.thread
  {
    ChainOrdered(steps, l, n);
    ChainReferences(states, ops, committed, valid, steps, l, j);
  }

  /** No message but the chain's carries one of its ids up to the n-th. */
  ghost predicate IdsAreOwn(t: Tables, ops: seq<Op>, steps: seq<nat>, n: nat)
    requires AreSends(ops, steps) && n < |steps|
  {
    forall m, k :: m in t.messages && 0 <= k <= n && t.messages[m].header == ops[steps[k]].drawn.header ==>
      exists l :: 0 <= l <= n && m == ops[steps[l]].drawn.message
  }

  lemma LookedUpInChain(states: seq<Tables>, ops: seq<Op>, committed: seq<bool>, valid: DraftService.AddressCheck,
                        steps: seq<nat>, n: nat, j: nat, m: Id)
    requires IsRun(states, ops, committed, valid) && Inv(states[0]) && IsChain(states, ops, committed, valid, steps)
    requires n < |steps| && steps[n] < j < |states| && IdsAreOwn(states[j], ops, steps, n) && m in states[j].messages
    requires states[j].messages[m].header in Headers(ops, steps, n) + [ops[steps[n]].drawn.header]
    ensures states[j].messages[m].thread == ops[steps[0]].drawn.thread
  {
    var k := ChainIdFound(ops, steps, n, states[j].messages[m].header);
    var l :| 0 <= l <= n && m == ops[steps[l]].drawn.message;
    ChainMember(states, ops, committed, valid, steps, l, n, j);
  }

  /**
    The mail answers a message: it names its id, in In-Reply-To or in References, and no ids but those of the
    message and its References.
   */
  ghost predicate AnswersMail(mail: EmailInbound.Mail, original: Message)
  {
    && NamesId(mail, original.header)
    && forall id :: NamesId(mail, id) ==> id in original.references + [original.header]
  }

  /** Clients that write In-Reply-To alone answer a message, and so do those that write its References as well. */
  lemma ClientsAnswer(mail: EmailInbound.Mail, original: Message)
    requires mail.inReplyTo == original.header && original.header != []
    requires mail.references == [] || mail.references == original.references + [original.header]
    ensures AnswersMail(mail, original)
  {
  }

  /**
    A mail client's reply to a message of a Send-built chain. If no id of the chain is carried outside it, the
    reply joins the chain's thread exactly when it comes in through the inbox that the chain was begun from.
   */
  lemma ReplyToChain(states: seq<Tables>, ops: seq<Op>, committed: seq<bool>, valid: DraftService.AddressCheck,
                     steps: seq<nat>, n: nat, j: nat,
                     inbox: Id, mail: EmailInbound.Mail, files: seq<File>, match': Id, drawn: Drawn, now: Time)
    requires IsRun(states, ops, committed, valid) && Inv(states[0]) && IsChain(states, ops, committed, valid, steps)
    requires n < |steps| && steps[n] < j < |states| && inbox in states[j].inboxes
    requires
      var m := ops[steps[n]].drawn.message;
      m in states[j].messages && AnswersMail(mail, states[j].messages[m])
    requires IdsAreOwn(states[j], ops, steps, n)
    requires EmailInbound.IngestTxOutcome(states[j], inbox, mail, files, match', drawn, now).Success?
    ensures
      var t' := EmailInbound.IngestTxOutcome(states[j], inbox, mail, files, match', drawn, now).value;
      && drawn.message in t'.messages
      && (t'.messages[drawn.message].thread == ops[steps[0]].drawn.thread <==> inbox == ops[steps[0]].inbox)
  {
    var t := states[j];
    RunKeepsInvariant(states, ops, committed, valid, j);
    ChainReferences(states, ops, committed, valid, steps, n, j);
    forall m | NamedBy(t, mail, m)
      ensures t.messages[m].thread == ops[steps[0]].drawn.thread
    {
      LookedUpInChain(states, ops, committed, valid, steps, n, j, m);
    }
    ChainOrdered(steps, 0, n);
    ChainThread(states, ops, committed, valid, steps, j);
    ReplyJoinsIff(t, inbox, mail, files, match', drawn, now, ops[steps[0]].drawn.thread, ops[steps[n]].drawn.message);
  }

  lemma ChainIdFound(ops: seq<Op>, steps: seq<nat>, n: nat, id: Bytes) returns (k: nat)
    requires AreSends(ops, steps)
    requires n < |steps| && (id == ops[steps[n]].drawn.header || id in Headers(ops, steps, n))
    ensures k <= n && ops[steps[k]].drawn.header == id
  {
    if id == ops[steps[n]].drawn.header {
      k := n;
    } else {
      k :| 0 <= k < n && Headers(ops, steps, n)[k] == id;
    }
  }

  lemma {:induction false} ChainOrdered(steps: seq<nat>, l: nat, n: nat)
    requires l <= n < |steps| && forall k :: 0 < k < |steps| ==> steps[k - 1] < steps[k]
    ensures steps[l] <= steps[n]
    decreases n - l
  {
    if l < n {
      ChainOrdered(steps, l, n - 1);
    }
  }

  /** The chain's thread belongs to the organisation and the inbox of the send that began it. */
  lemma ChainThread(states: seq<Tables>, ops: seq<Op>, committed: seq<bool>, valid: DraftService.AddressCheck,
                    steps: seq<nat>, j: nat)
    requires IsRun(states, ops, committed, valid) && Inv(states[0]) && IsChain(states, ops, committed, valid, steps)
    requires steps[0] < j < |states|
    ensures
      var th, inbox, org := ops[steps[0]].drawn.thread, ops[steps[0]].inbox, ops[steps[0]].org;
      && th in states[j].threads && states[j].threads[th].inbox == inbox && states[j].threads[th].org == org
      && inbox in states[j].inboxes && states[j].inboxes[inbox].org == org
  {
    var i := steps[0];
    var op := ops[i];
    var send := Request(op, states[i]).value;
    assert Follows(states[i], states[i + 1], op, committed[i], valid);
    RunKeepsInvariant(states, ops, committed, valid, i);
    SendDelivers(states[i], op.org, op.inbox, send, Uploads.Files(send.attachments, |send.attachments|).value,
                 op.drawn, op.now);
    FreshPlace(states[i], op.org, op.inbox, send, op.drawn, op.now);
    RunSettles(states, ops, committed, valid, i + 1, j);
  }

  lemma FreshPlace(t: Tables, org: Id, inbox: Id, send: MessageService.SendRequest, drawn: Drawn, now: Time)
    requires Inv(t) && send.replyTo == None
    requires MessageService.SendOutcome(t, org, inbox, send, drawn, now).Success?
    ensures
      var t' := MessageService.SendOutcome(t, org, inbox, send, drawn, now).value;
      && drawn.thread in t'.threads && t'.threads[drawn.thread].inbox == inbox && t'.threads[drawn.thread].org == org
      && inbox in t'.inboxes && t'.inboxes[inbox].org == org
  {
    var files := Uploads.Files(send.attachments, |send.attachments|).value;
    var row := t.GetInbox(org, inbox).value;
    var place := MessageService.Place(t, org, inbox, row, send, drawn, now).value;
    var msg := MessageService.OutboundMessage(org, inbox, row, send, place.thread, place.inReplyTo, place.references,
                                              drawn.header, files != [], now);
    var created := place.tables.InsertMessage(drawn.message, msg).value;
    AddFilesOwned(created, org, Some(drawn.message), None, files, drawn.attachments, 0, now);
  }
}
