# nGX verification model

A Dafny 4.11 model of the parts of nGX that carry its logic: the PostgreSQL transactions behind drafts,
messages and threads; the outbound status protocol; the MIME builder and parser; the query builders and
keyset pages; and the webhook, outbound and scheduler consumers. `dafny verify dfyconfig.toml` verifies all of it.

## How the code is modelled

- **Tables** (`Database.dfy`) are maps in a `Tables` value. A `Connection` object holds them, and every
  statement a service sends goes through it. A statement may fail for reasons of its own, at any position
  (`faults`), and a violated key, reference or check aborts the transaction, after which every statement fails and
  committing rolls back, as PostgreSQL does. Services are methods with the source's branches; each is proved
  against a function of the tables (`…Outcome`): success means the tables are that function's value, any failure
  means they are unchanged, and with a connection that never fails by itself the errors agree too.
- **What the transactions keep** (`TableInvariants.dfy`, `Runs.dfy`, `ReplyChains.dfy`) is proved about those
  functions, told without their steps (`Approves`, `Delivers`, `Posts`), and then over whole runs: any sequence of
  operations, each of them committed or lost. Operations of a run are serialised; the reads take no row locks.
- **What is stored** (`StoredRows.dfy`, `SuccessConditions.dfy`): for each operation, every column of the rows that it
  writes, in terms of its request, and the exact condition on which it succeeds.
- **Query builders** (`DraftStore.dfy`, `ThreadStore.dfy`) build clauses with numbered placeholders and an argument
  list; the meaning the database gives to a statement is a separate function, with NULLs, casts, type errors and
  repeated columns.
- **The status race** (`OutboundProtocol.dfy`) is a state machine over the committed steps of one outbound job
  and the SES events that reach the same row, in any interleaving; `OutboundRuns.dfy` ties it to whole runs.
- **The scheduler** (`DraftScheduler.dfy`, `DraftBacklog.dfy`) approves whatever rows its query picks; its results hold
  for every pick.
- **Mail** (`Mime*.dfy`, `MediaTypes.dfy`, `Multipart.dfy`, `FoldedHeaders.dfy`, `WireFormat.dfy`,
  `MailRoundTrip.dfy`): strings are bytes. The Go
  library readers that the round trip depends on are written out as functions: header blocks (section 2.2 of
  RFC 5322), media types (section 5.1 of RFC 2045) and multipart bodies (section 5.1 of RFC 2046). The parser
  takes them, the decoders of encoded words and quoted-printable text, and the readers of addresses and dates, as a
  `Library` value; `Standard` says which library that is.
- The outside world is a parameter: ids, times, upload results, HTTP answers, the rows that a LIMIT without an order
  picks, lower-casing of addresses, address validation, and the rendering of times and ids in cursors.

## What came out

Where the code and its promises differ, the model follows the code. A promise that some inputs break has a lemma that
says exactly when it holds, and a run, mail or table that breaks it.

- A draft's In-Reply-To never reaches the approved message: the drafts table has no column for it
  (`Runs.ReplyHeaderReaches`; a run in `Counterexamples.ReplyHeaderLost`).
- An update may empty the recipients that creation demands, and approval does not look
  (`Runs.UpdateKeepsRecipientsIff`; a run in `Counterexamples.RecipientsEmptied`).
- When SES refuses a message the worker writes `failed` and then returns the refusal, which rolls the write back; the
  documentation (docs/internals.md:264) says `failed` (`OutboundProtocol.RefusalLeavesNoFailure`; a run in
  `RefusedStaysSending`). The documentation's event names and the status of a bounce (docs/internals.md:298) differ
  from the code as well.
- A bounce or complaint survives exactly when no first transaction of a redelivered job comes after it
  (`OutboundProtocol.NegativeKeptIff`; a run that loses one in `BounceCanBeLost`).
- Inbound ingest logs and ignores a failed attachment insert or participant merge, but PostgreSQL has aborted the
  transaction by then: the commit fails and nothing is stored (`EmailInbound.ProcessForRecipient` stores all or nothing).
- A received reply joins its thread exactly when it arrives in the inbox of that thread
  (`ReplyChains.ReplyJoinsIff`; a mail in `Counterexamples.ReplyElsewhere`).
- Drafts whose inbox or thread is another organisation's can be created and never approved. A hundred of them can fill
  the scheduler's batch run after run; with fewer, all other drafts are approved after finitely many runs, whatever
  rows the query picks (`DraftBacklog.StarvesIff`, `StuckRunRepeats`, `AllApprovedAfter`; tables in
  `StarvedByHundred`).
- The retry backoff is said to be capped at an hour (delivery_store.go:463). The function on its own reaches 4096
  seconds (`WebhookDelivery.BackoffWithinHourIff`), but no delivery is ever scheduled more than 128 seconds ahead
  (`WebhookDelivery.RetryWithin128Seconds`).
- An attachment without a name whose type is plain or HTML text comes back as a body, not as a part
  (`MailRoundTrip.RoundTripWithFiles`, `AllListed`; a mail in `NamelessTextLost`). The labels of an attachment come
  back exactly when its name holds no control characters and its type is a plain name in small letters
  (`MimeRoundTrip.LabelsKeptIff`).

## Model

| member | source | states |
|---|---|---|
| Text.SplitJoin | pkg/pagination/pagination.go:22-38 | Splitting undoes joining when no part holds the separator. |
| Base64.DecodeEncode | pkg/pagination/pagination.go:24-33 | Standard base64 (section 4 of RFC 4648) decodes every encoded byte string to itself. |
| Base64.EncodeIsPlain | lambdas/email_outbound/main.go:304-313 | Encoded data holds no line end and no dash, and is empty only for empty data. |
| Base64.DigitsAreAlphabet | lambdas/email_outbound/main.go:304 | The digits are the alphabet of section 4 of RFC 4648, in its order. |
| Base64.EncodesGroups | lambdas/email_outbound/main.go:304 | Three bytes become the four digits of their 24-bit number, most significant first; one or two left over become two or three digits and padding (section 4 of RFC 4648). |
| Base64.ValuesArePlaces | pkg/mime/parser.go:201-203 | Only characters of that alphabet have a value, their place in it. |
| Base64.DecodesIff | pkg/mime/parser.go:201-203 | Text without line ends decodes if and only if it is groups of four digits, the last with one or two padding characters at most. |
| Base64.LineEndsIgnored | services/inbox/service/draft_service.go:124 | Line-end characters are ignored wherever they stand. |
| Pagination.ClampLimit | pkg/pagination/pagination.go:41-49 | The limit is between 1 and 100: itself when it already is, 20 when not positive, 100 when above. |
| Pagination.CursorRoundTrip | pkg/pagination/pagination.go:22-38 | A cursor decodes to its parts if and only if no part holds the separator and the parts are not one empty part. |
| Pagination.CursorInjective | pkg/pagination/pagination.go:22-38 | Two lists of such parts never share a cursor. |
| KeysetPages.List | services/inbox/store/message_store.go:132-192 | A list request returns the page after the cursor's position, with the source's two ways of refusing a cursor. |
| KeysetPages.CutPage | services/inbox/store/draft_store.go:124-182 | Asking for one row more than the page decides whether there is a next cursor, and it is made from the last row shown. |
| KeysetPages.ScanIsSorted | services/inbox/store/message_store.go:150-165 | The database's answer holds exactly the selected rows, in strict (created_at, id) order. |
| KeysetPages.StableWalk | services/inbox/store/message_store.go:132-192 | Following cursors while rows come and go: strict order, nothing twice, every row from some table met, and at the end every row that was present throughout. |
| KeysetPages.StillWalk | services/inbox/store/message_store.go:132-192 | On an unchanged table the walk equals the single sorted scan and takes max(1, ceil(n/limit)) pages. |
| KeysetPages.PagesForIsCeiling | services/inbox/store/message_store.go:132-192 | That page count is the rounded-up quotient, at least one. |
| Database.Connection.Exec | pkg/db/tx.go:23-33 | A statement changes the tables as given or not at all; a violation or a fault aborts the transaction. |
| Database.Connection.Commit | pkg/db/tx.go:23-33 | Committing keeps the changes or, when the transaction is aborted or the commit fails, restores the state at its start. |
| DraftService.Finish | pkg/db/tx.go:23-33 | The end of a transaction: a successful answer is committed or lost, a failure rolls back. |
| DraftStore.ListsStep | services/inbox/store/draft_store.go:190-255 | Visiting one more optional field keeps the assignment list exactly that of the fields visited so far. |
| DraftStore.AssignAllReaches | services/inbox/store/draft_store.go:185-283 | A list in column order always runs, gives the listed columns their values and leaves all others. |
| DraftStore.ClausesMeanPatch | services/inbox/store/draft_store.go:185-283 | Clauses whose placeholders bind a complete list turn any row into the patched row. |
| DraftStore.Builder.Set | services/inbox/store/draft_store.go:186-255 | Appending a clause keeps argIdx at one more than the arguments and binds each placeholder to its own argument. |
| DraftStore.Compile | services/inbox/store/draft_store.go:185-283 | There is no statement exactly for the empty patch; otherwise, for every row, running its clauses is applying the patch field by field. |
| DraftStore.Update | services/inbox/store/draft_store.go:185-283 | The store's Update has the outcome of the patch on the addressed row, or that row's error. |
| Recipients.Distinct | services/inbox/service/message_service.go:478-486 | The loop with a seen map returns the first occurrences, by key, of addresses that are not empty. |
| Recipients.KeptInOrder | services/inbox/service/message_service.go:478-486 | First occurrences stand in the order of the original list. |
| Recipients.KeptOnce | services/inbox/service/message_service.go:478-486 | No two kept addresses share a key, none has an excluded key, and every other non-empty key is kept. |
| Uploads.UploadAll | services/inbox/service/draft_service.go:114-156 | All attachments decode and are stored, or the first failure is returned. |
| Uploads.FilesMean | services/inbox/service/draft_service.go:114-156 | There are files if and only if every attachment decodes: one for each, with its name, its type or the default one, and the size of its decoded data. |
| Uploads.InsertFiles | services/inbox/store/message_store.go:265-282 | The insert loop adds one row per file under the drawn ids, or fails as the first bad insert does. |
| DraftService.ValidateEmailAddresses | services/inbox/service/draft_service.go:32-42 | Accepts exactly lists of non-empty valid addresses. |
| DraftService.Create | services/inbox/service/draft_service.go:159-240 | Creates the pending draft with its attachment rows, or changes nothing. |
| DraftService.Update | services/inbox/service/draft_service.go:282-353 | Patches a pending draft and replaces its attachments when given, or changes nothing. |
| DraftService.Delete | services/inbox/service/draft_service.go:356-363 | Deletes the draft with its attachment rows, or changes nothing. |
| DraftService.OpenThreadTx | services/inbox/service/draft_service.go:386-439 | Uses the draft's thread, which must be its organisation's, or creates one with the distinct participants. |
| DraftService.Approve | services/inbox/service/draft_service.go:367-538 | Creates the message of a pending draft, moves its attachments, counts it and marks the draft, or changes nothing. |
| DraftService.Reject | services/inbox/service/draft_service.go:543-587 | Rejects a pending draft as StoredRows.RejectStores says, or changes nothing. |
| MessageService.CheckRequest | services/inbox/service/message_service.go:166-187 | Accepts exactly requests with recipients that hold an @, a body, and attachments that decode within 10 MiB. |
| MessageService.PlaceTx | services/inbox/service/message_service.go:236-288 | A reply takes its parent's thread, id and references plus that id; any other message takes a new thread. |
| MessageService.Send | services/inbox/service/message_service.go:166-345 | Stores the message, its attachments and its count as StoredRows.SendStores, ReplyThread and SendThread say, or changes nothing. |
| MessageService.ReplyAll | services/inbox/service/message_service.go:458-500 | Sends to the computed recipients as a reply to the original, as StoredRows.ReplyAllStores says, or changes nothing. |
| MessageService.ReplyAllReachesEveryoneOnce | services/inbox/service/message_service.go:478-490 | Recipients come from the original, never include the inbox, never repeat a folded address, and cover every other non-empty one. |
| EmailInbound.UploadParts | lambdas/email_inbound/main.go:159-189 | A file for each named or inline part whose upload succeeded, in order. |
| EmailInbound.IngestTx | lambdas/email_inbound/main.go:194-285 | The ingest transaction: looks a thread up by In-Reply-To and References, opens one if there is none, stores message and attachments, and counts the message; all of it or a failure. |
| EmailInbound.ProcessForRecipient | lambdas/email_inbound/main.go:112-287 | An address without an active inbox is skipped; otherwise the mail is stored as a whole or not at all. |
| TableInvariants.AddFilesShape | services/inbox/store/message_store.go:265-344 | Inserting files adds exactly one row for each, under its drawn id, with its data and the one owner, and touches nothing else. |
| TableInvariants.PostsKeepsCounted | services/inbox/store/thread_store.go:244-258 | Inserting a message and counting it keeps every counter equal to the number of the thread's messages. |
| TableInvariants.CreateShape | services/inbox/service/draft_service.go:159-240 | Creation adds the pending draft of the request and exactly its files, row by row. |
| TableInvariants.CreateKeeps | services/inbox/service/draft_service.go:159-240 | Draft creation keeps the invariant. |
| TableInvariants.UpdateShape | services/inbox/service/draft_service.go:282-353 | An update writes the patched row; attachments that it gives replace the draft's exactly, and none given leave them. |
| TableInvariants.UpdateKeeps | services/inbox/service/draft_service.go:282-353 | Draft update keeps the invariant. |
| TableInvariants.DeleteKeeps | services/inbox/service/draft_service.go:356-363 | Draft deletion keeps the invariant. |
| TableInvariants.RejectKeeps | services/inbox/service/draft_service.go:543-587 | Rejection keeps the invariant. |
| TableInvariants.ApproveShape | services/inbox/service/draft_service.go:367-538 | Approval posts one message that says what the draft says and re-owns exactly the draft's attachment rows, with ids and metadata unchanged. |
| TableInvariants.ApproveKeeps | services/inbox/service/draft_service.go:367-538 | Any change of that shape keeps the invariant. |
| TableInvariants.SendShape | services/inbox/service/message_service.go:229-345 | A send posts one message with exactly one row for each of its files, under the drawn ids, and leaves drafts and other rows alone. |
| TableInvariants.IngestShape | lambdas/email_inbound/main.go:194-285 | Ingest posts one message with exactly one row for each of its files, in the joined or new thread. |
| TableInvariants.DeliverKeeps | lambdas/email_inbound/main.go:194-285 | Any change of that shape keeps the invariant. |
| TableInvariants.StatusKeeps | services/email-pipeline/store/email_store.go:379-437 | Status updates keep the invariant. |
| StoredRows.CreateStores | services/inbox/service/draft_service.go:159-240 | A created draft is pending and unreviewed and says what was asked for, field by field; the request had recipients and valid addresses, and no other row changes but its attachments. |
| StoredRows.UpdateStores | services/inbox/service/draft_service.go:282-353 | Each column that an update gives is replaced and each other one is kept; the decision, organisation, inbox and thread are never touched, nor is any other draft. |
| StoredRows.DeleteStores | services/inbox/service/draft_service.go:356-363 | Deletion succeeds if and only if the draft is the organisation's; it takes the draft and exactly the attachments that it owned. |
| StoredRows.RejectStores | services/inbox/service/draft_service.go:543-587 | Rejection succeeds if and only if the draft is the organisation's and pending; then it is rejected, with reason, reviewer and time, and nothing else changes. Otherwise the error says which condition failed. |
| StoredRows.ApproveStores | services/inbox/service/draft_service.go:441-538 | The approved draft names its message, note, reviewer and time; the message says what the draft says, comes from the inbox's address, and waits to be sent. |
| StoredRows.ApproveThread | services/inbox/service/draft_service.go:386-440 | The message is in the draft's thread, which shows it as its latest, or in a new open one, read, with everyone taking part once. |
| StoredRows.SendStores | services/inbox/service/message_service.go:290-345 | The sent message has the request's to, cc, bcc, subject and metadata, the inbox's address as its sender, and the time of the call; no other message changes. |
| StoredRows.ReplyThread | services/inbox/service/message_service.go:236-262 | A reply carries its parent's id as In-Reply-To and last reference, and lies in its parent's thread, which shows it as its latest message. |
| StoredRows.SendThread | services/inbox/service/message_service.go:263-288 | Any other message is alone in a new open thread with its subject, read, with everyone on it taking part once. |
| StoredRows.ReplyAllStores | services/inbox/service/message_service.go:458-500 | A reply to all goes openly to everyone else on the original, once each, with its subject; it replies to the original, in its thread. |
| StoredRows.IngestStores | lambdas/email_inbound/main.go:112-270 | A mail for an active inbox becomes one message with its ids, addresses and subject, and one attachment row for each named or inline part that was uploaded, in order; a mail for any other address changes nothing. |
| StoredRows.IngestThread | lambdas/email_inbound/main.go:194-285 | Its thread shows it as the latest message: a new one, unread, with everyone taking part once, or the joined one, where whoever took part stays and exactly the others are added. |
| SuccessConditions.FilesInsertedIff | services/inbox/store/message_store.go:265-282 | Attachment rows go in if and only if their ids are new and differ. |
| SuccessConditions.CreateSucceedsIff | services/inbox/service/draft_service.go:159-240 | Creation succeeds if and only if there are recipients, all addresses are valid, all attachments decode, inbox and thread exist, and the ids are new. |
| SuccessConditions.UpdateSucceedsIff | services/inbox/service/draft_service.go:282-353 | An update succeeds if and only if its addresses are valid, its attachments decode, the draft is the organisation's and pending, and the ids are new. |
| SuccessConditions.SendSucceedsIff | services/inbox/service/message_service.go:166-345 | A send succeeds if and only if the request is complete, with attachments of 10 MiB at most, the inbox is the organisation's, so are the parent and its thread if it is a reply, and the ids are new. |
| SuccessConditions.IngestSucceedsIff | lambdas/email_inbound/main.go:194-285 | Storing a mail succeeds if and only if the picked row is a match, or the new thread's id is new when there is no match, and the other ids are new. |
| Runs.RunKeepsInvariant | services/inbox/service/draft_service.go:159-587 | In every state of every run: counters exact and positive with a last message time, a message exactly for approved drafts and never shared, one owner per attachment, has_attachments true to the rows. |
| Runs.DraftsAdvance | services/inbox/service/draft_service.go:282-587 | Over a run a draft leaves pending at most once, to approved or rejected, and does not change afterwards. |
| Runs.ApprovalStands | services/inbox/service/draft_service.go:447-499 | From its approval on, a draft's message exists and says what the draft said when it was approved. |
| Runs.RejectionStands | services/inbox/service/draft_service.go:543-587 | From its rejection on, in every later state of a run, a draft is that rejected row, and it can be neither approved nor rejected again. |
| Runs.ReplyHeaderReaches | services/inbox/store/draft_store.go:61-121 | The In-Reply-To of a create request reaches the approved message if and only if it was empty. |
| Runs.UpdateKeepsRecipientsIff | services/inbox/service/draft_service.go:282-353 | A committed update keeps a recipient if and only if it does not give an empty list. |
| AttachmentRuns.MessageFilesStay | services/inbox/store/message_store.go:265-344 | Over a run an attachment of a message never changes and never goes. |
| AttachmentRuns.DraftFileFate | services/inbox/service/draft_service.go:282-538 | Over a run an attachment of a draft stays as it is until the draft's first approval, deletion or new attachments; from an approval on it is the message's, with all else unchanged. |
| Counterexamples.ReplyHeaderLost | services/inbox/store/draft_store.go:61-121 | A run: a draft created with an In-Reply-To is approved, and its message has none. |
| Counterexamples.RecipientsEmptied | services/inbox/service/draft_service.go:282-353 | A run: a draft created with a recipient is updated and approved, and its message goes to nobody. |
| Counterexamples.ReplyElsewhere | services/email-pipeline/store/email_store.go:64-74 | A mail: a reply that reaches another inbox of the organisation opens a thread of its own. |
| ReplyChains.RunSettles | services/inbox/service/message_service.go:229-345 | Over a run, messages, threads and inboxes stay, with their threading data. |
| ReplyChains.ChainReferences | services/inbox/service/message_service.go:236-319 | The n-th message of a chain of replies lists its ancestors' ids oldest first, in one thread, in every later state (section 3.6.4 of RFC 5322). |
| ReplyChains.ChainReferencesDistinct | services/inbox/service/message_service.go:236-319 | With ids drawn once, References repeats nothing, ends in In-Reply-To and does not hold the message's own id. |
| ReplyChains.NewThreadIffNoMatch | lambdas/email_inbound/main.go:194-230 | A received mail opens a thread if and only if no message of the inbox's threads carries the id in its In-Reply-To or one in its References. |
| ReplyChains.ReplyJoinsIff | services/email-pipeline/store/email_store.go:64-74 | When the ids that a reply names are carried in one thread only, it joins that thread, whichever row is picked, if and only if the thread is the receiving inbox's and its organisation's. |
| ReplyChains.ReplyToChain | lambdas/email_inbound/main.go:194-230 | A mail that names a message of a chain, in In-Reply-To or References, joins the chain's thread if and only if it arrives in the inbox that began the chain. |
| ReplyChains.ClientsAnswer | lambdas/email_inbound/main.go:197-204 | So do replies that carry In-Reply-To alone, and those that carry References as well. |
| OutboundStatus.StartSending | lambdas/email_outbound/main.go:123-134 | The first transaction marks the message as sending, or changes nothing. |
| OutboundStatus.FinishSending | lambdas/email_outbound/main.go:203-246 | The second transaction records an acceptance; a refusal is an error and leaves the tables as they were. |
| OutboundStatus.ProcessRecord | lambdas/email_outbound/main.go:105-246 | Alone with its row, a job that is not to be retried was accepted and ends as sent; a refused one is always retried. |
| OutboundStatus.FindMessageId | lambdas/ses_events/main.go:137-147 | The loop returns the first Message-ID header without its brackets. |
| OutboundStatus.BracketsUndone | lambdas/email_outbound/main.go:261-263 | Stripping undoes the brackets that the mail builder writes. |
| OutboundStatus.ProcessEvent | lambdas/ses_events/main.go:128-240 | A bounce leaves exactly the rows of the first Message-ID as bounced; a complaint, rejection or rendering failure as failed; a delivery sets their sent time and turns sending into sent; other types change nothing. |
| OutboundProtocol.StatusExplained | services/email-pipeline/store/email_store.go:431-437 | In every interleaving, with any redeliveries, the status is the one that the order of the steps explains. |
| OutboundProtocol.OneAttempt | lambdas/ses_events/main.go:154-223 | After the last first transaction: a bounce or complaint means never sent; neither, with the worker done, means sent. |
| OutboundProtocol.DoneRecorded | lambdas/email_outbound/main.go:203-246 | A finished worker has recorded its acceptance after the last start. |
| OutboundProtocol.NegativeKeptIff | lambdas/email_outbound/main.go:123-134 | A message with a bounce or complaint ends as bounced or failed if and only if one came after the last first transaction. |
| OutboundProtocol.BounceCanBeLost | lambdas/email_outbound/main.go:123-134 | A concrete run in which a redelivered job overwrites a bounce. |
| OutboundProtocol.RefusalLeavesNoFailure | lambdas/email_outbound/main.go:203-224 | Without complaints no run ever ends as failed, whatever SES refuses. |
| OutboundProtocol.RefusedStaysSending | lambdas/email_outbound/main.go:203-224 | A concrete run: SES refuses the only attempt, and the row goes on as sending. |
| OutboundProtocol.StartIsBegin | services/email-pipeline/store/email_store.go:379-395 | What the first transaction commits is the machine's first step on the row's status, and nothing else. |
| OutboundProtocol.SentAtIsRecord | services/email-pipeline/store/email_store.go:431-447 | The conditional update is the machine's record step on the row's status, sets its sent time, and does nothing else. |
| OutboundProtocol.NoticeIsStep | lambdas/ses_events/main.go:154-223 | The machine's event steps are the event consumer's updates. |
| OutboundProtocol.EventIsStep | lambdas/ses_events/main.go:154-223 | Each event type is the machine step of its name for the rows that the event reaches, and no step for any other type. |
| OutboundRuns.StatusOverRun | services/email-pipeline/store/email_store.go:379-447 | Along every run of the platform a message being sent has the status that its own steps lead to; no other operation touches it. |
| OutboundRuns.RunExplained | services/email-pipeline/store/email_store.go:431-437 | From the approval or send that posts it on, in every run, a message has the status that the order of its starts, records and notices explains. |
| ThreadStore.Builder.AddPosition | services/inbox/store/thread_store.go:150-158 | The cursor condition takes two placeholders that bind its two parts. |
| ThreadStore.FiltersMeanMeets | services/inbox/store/thread_store.go:125-150 | The compiled filters hold of a row if and only if it meets organisation, inbox, status, read, starred and label. |
| ThreadStore.Compile | services/inbox/store/thread_store.go:122-175 | Every placeholder binds its own value and the LIMIT placeholder one more than the page; refused exactly for a bad cursor. |
| ThreadStore.SelectsKept | services/inbox/store/thread_store.go:122-178 | The database answers the compiled text with the threads of the plain conjunction beyond the position, in list order, one more than a page. |
| ThreadStore.List | services/inbox/store/thread_store.go:122-199 | The list returns that page and its next cursor, or the source's errors. |
| ThreadStore.CursorAfterWorks | services/inbox/store/thread_store.go:187-196 | A cursor is accepted by the next request if and only if its row has a last message time. |
| ThreadStore.NextCursorAccepted | services/inbox/store/thread_store.go:187-196 | In every sound state all threads have one, so the empty-timestamp branch is not reached. |
| ThreadStore.BrowseIsWalk | services/inbox/store/thread_store.go:122-199 | Browsing threads is walking keyset lists over (last_message_at, id), whatever happens to threads and labels between pages. |
| ThreadStore.BrowseFindsQuietThreads | services/inbox/store/thread_store.go:122-199 | Browsing to the end returns every thread that, at each page read, met the query with the same last message. |
| ThreadStore.StillBrowse | services/inbox/store/thread_store.go:122-199 | On unchanging threads browsing is the sorted list of the matching threads, in as few pages as fit. |
| DraftScheduler.RunScheduled | lambdas/scheduler_drafts/main.go:57-99 | The handler approves the rows of its query one after another and goes on after failures. |
| DraftScheduler.RunApprovesDueOnly | lambdas/scheduler_drafts/main.go:57-99 | A run changes due pending drafts only, a hundred at most, and those end as approved; each approval takes one off the backlog and posts one message. |
| DraftScheduler.DrainedInCeilingRuns | lambdas/scheduler_drafts/main.go:57-99 | When approvals succeed, a backlog of n is gone after ceil(n/100) runs and not before, with n messages more. |
| DraftScheduler.ApprovalSucceedsIff | services/inbox/service/draft_service.go:367-440 | A pending draft can be approved if and only if its inbox and thread are its organisation's and the drawn ids are new. |
| DraftBacklog.BlockedBatchIff | lambdas/scheduler_drafts/main.go:59-64 | The query may pick nothing but drafts that cannot be approved if and only if there are as many of them as it picks. |
| DraftBacklog.StarvesIff | lambdas/scheduler_drafts/main.go:59-64 | While some draft can be approved, a batch can be wasted if and only if a hundred due drafts are blocked. |
| DraftBacklog.StuckRunRepeats | lambdas/scheduler_drafts/main.go:57-99 | Any number of runs that pick only blocked drafts changes nothing, whatever ids are drawn. |
| DraftBacklog.BlockedPickStays | lambdas/scheduler_drafts/main.go:59-64 | A hundred blocked drafts that were picked once may be picked at any later time. |
| DraftBacklog.ApprovedIffNotBlocked | services/inbox/service/draft_service.go:367-440 | With new ids and no faults a run approves exactly the picked drafts that are not blocked. |
| DraftBacklog.RunProgresses | lambdas/scheduler_drafts/main.go:57-99 | With fewer than a hundred blocked drafts such a run approves all others that are due, or as many as the blocked ones leave room for. |
| DraftBacklog.BacklogDrains | lambdas/scheduler_drafts/main.go:57-99 | After k such runs at most n - p * k of n approvable drafts are left, where p is that room, whatever rows are picked. |
| DraftBacklog.AllApprovedAfter | lambdas/scheduler_drafts/main.go:57-99 | So none is left after as many runs as there were approvable drafts. |
| DraftBacklog.ForeignThreadAccepted | services/inbox/service/draft_service.go:159-240 | Creation accepts a draft in another organisation's thread. |
| DraftBacklog.StarvedByHundred | lambdas/scheduler_drafts/main.go:57-99 | Sound tables with n such drafts and one more: the one more can be kept waiting if and only if n is at least a hundred. |
| WebhookDelivery.BackoffMonotone | services/webhook-service/store/delivery_store.go:464-469 | Backoffs never shrink and never pass 4096 seconds. |
| WebhookDelivery.BackoffWithinHourIff | services/webhook-service/store/delivery_store.go:463-469 | A backoff on its own is within the promised hour if and only if the attempt is at most the eleventh. |
| WebhookDelivery.RetryWithin128Seconds | services/webhook-service/store/delivery_store.go:358-404 | A failed attempt below eight is retried at most 128 seconds later, and any other is not retried. |
| WebhookDelivery.TotalBackoffIff | services/webhook-service/store/delivery_store.go:464-469 | The backoffs of attempts 1 to n sum to 2^(n+1)-2 if and only if n is at most 12. |
| WebhookDelivery.DeliveryStore.CreateDelivery | services/webhook-service/store/delivery_store.go:301-321 | Inserts the record with no next attempt, or changes nothing. |
| WebhookDelivery.DeliveryStore.MarkSuccess | services/webhook-service/store/delivery_store.go:324-352 | Marks the delivery and resets the webhook's failure count; the second update may be lost. |
| WebhookDelivery.DeliveryStore.MarkFailed | services/webhook-service/store/delivery_store.go:358-404 | Schedules a retry or gives up, and raises the webhook's failure count; the second update may be lost. |
| WebhookDelivery.ScheduledKeptIff | services/webhook-service/store/delivery_store.go:301-404 | A call keeps "next attempt exactly while retrying" unless it inserts a record as retrying. |
| WebhookDelivery.ScheduledThroughout | services/webhook-service/store/delivery_store.go:301-404 | Over any calls that insert no record as retrying, every record has a next attempt exactly while it is retrying. |
| WebhookDelivery.RetriesUntilEighth | services/webhook-service/store/delivery_store.go:358-404 | Consecutive failures 1, 2, … stay retrying with 2^n seconds to the next, and the eighth gives up. |
| WebhookDelivery.GivenUpAfter254Seconds | services/webhook-service/store/delivery_store.go:358-475 | When retries fail on schedule, the delivery is given up 254 seconds after its first failure. |
| WebhookDelivery.FailureCountSinceSuccess | services/webhook-service/store/delivery_store.go:345-403 | The failure count is the number of failures recorded since the last recorded success of that webhook. |
| WebhookDispatcher.MatchesEvent | lambdas/event_dispatcher_webhook/main.go:161-171 | The loop accepts an event exactly when the list is empty or holds its type. |
| WebhookDispatcher.Dispatcher.ProcessRecord | lambdas/event_dispatcher_webhook/main.go:69-159 | Makes exactly the store calls and requests of the targets, in order; a failed attempt leaves requests and rows as they were; any other leaves the rows as AttemptTold says. |
| WebhookDispatcher.AttemptTells | lambdas/event_dispatcher_webhook/main.go:100-157 | Each target gets one record with webhook, event, type, payload, the first attempt and its answer: delivered if and only if a request could be made and was answered with 200 to 299, otherwise to be retried two seconds later; its webhook's failure count is reset or raised by one, and no other row changes. |
| WebhookDispatcher.Dispatcher.Handle | lambdas/event_dispatcher_webhook/main.go:58-67 | Processes a batch in order, makes exactly the requests and store calls of its records, and reports the failed ones. |
| WebhookDispatcher.FailedRecordsExact | lambdas/event_dispatcher_webhook/main.go:58-67 | The response names exactly the failed records, each once and in order. |
| WebhookDispatcher.FailureLeavesNoTrace | lambdas/event_dispatcher_webhook/main.go:58-94 | A batch sends and stores exactly what the batch without its failed records does, so what is returned can be attempted from scratch. |
| WebhookDispatcher.AttemptReachesOnce | lambdas/event_dispatcher_webhook/main.go:100-157 | An attempt reaches each webhook once if it is a target with a usable address, and otherwise not. |
| WebhookDispatcher.SuccessReachesSubscribers | lambdas/event_dispatcher_webhook/main.go:69-159 | A successful attempt reaches exactly the organisation's active webhooks that want the event and have a usable address, once each. |
| WebhookDispatcher.EachWebhookOnce | lambdas/event_dispatcher_webhook/main.go:58-159 | Over any run in which only failed records return, each event reaches each webhook at most once, and once if some attempt targeted it. |
| MimeText.BracketsTrimmed | pkg/mime/parser.go:37-38 | An id comes out of its angle brackets unchanged if and only if neither end of it is a bracket. |
| MimeText.FieldsOfJoin | pkg/mime/parser.go:42-46 | Words joined by single spaces are the fields of the text. |
| MimeHeaders.ReadWritten | pkg/mime/parser.go:24-35 | A written header block is read back as its fields, with values trimmed, and the body behind it. |
| FoldedHeaders.FoldedRead | pkg/mime/parser.go:24-35 | A field folded over any number of lines, with either line end, is read as one: its pieces joined by single spaces (section 2.2.3 of RFC 5322). |
| FoldedHeaders.WordsApart | pkg/mime/parser.go:42-46 | Ids in References are told apart by white space of any kind and length. |
| FoldedHeaders.NamesFold | pkg/mime/parser.go:37-72 | Field names are the same if and only if they differ in letter case at most. |
| MediaTypes.ParseWithParameter | pkg/mime/parser.go:138-146 | A plain type with one parameter is read as that type and parameter. |
| MediaTypes.AllParametersRead | pkg/mime/parser.go:138-146 | Any number of parameters under different keys are all read. |
| MediaTypes.QuotedValue | lambdas/email_outbound/main.go:303 | Text comes out of its %q quotes with control characters as their escapes and all else unchanged. |
| MediaTypes.ReadBackIff | lambdas/email_outbound/main.go:303 | So it comes out as it went in if and only if it holds no control character. |
| Multipart.NextPart | pkg/mime/parser.go:108-121 | A part and what is left behind it are together shorter than what was left before. |
| Multipart.ReadWrittenPart | pkg/mime/parser.go:161-175 | A part whose body does not hold the boundary is read back whole, up to the boundary. |
| MimePrinter.ChunksFit | lambdas/email_outbound/main.go:304-313 | The lines are the encoded text, none empty, none over 76 bytes (section 6.8 of RFC 2045). |
| MimePrinter.WriteWrapped | lambdas/email_outbound/main.go:305-313 | The wrapping loop appends exactly those lines with their line ends. |
| MimePrinter.WriteBodyPart | lambdas/email_outbound/main.go:326-355 | Appends the body as alternatives or as the single form there is. |
| MimePrinter.BuildMime | lambdas/email_outbound/main.go:251-322 | Prints the header fields and, with attachments, the mixed multipart around body and files. |
| WireFormat.MailWritten | lambdas/email_outbound/main.go:251-355 | The printed bytes are, line by line, the header fields, delimiters, bodies and attachments that the builder's format strings say. |
| MimeParser.DecodeContent | pkg/mime/parser.go:189-207 | Decoded content is never longer than what it was decoded from, which bounds the recursion. |
| MimeParser.DecodePartContent | pkg/mime/parser.go:189-207 | Decodes quoted-printable and base64, after taking out line ends, and leaves any other content as it is. |
| MimeParser.LineEndsGone | pkg/mime/parser.go:199-200 | Of content without other line-end characters exactly the line ends, of either form, are taken out. |
| MimeParser.ParsedEmail.ParsePart | pkg/mime/parser.go:132-187 | Terminates, fails exactly when the part has no MIME tree, and otherwise takes in the tree's leaves from left to right. |
| MimeParser.ParsedEmail.ParseParts | pkg/mime/parser.go:161-175 | The loop over the parts of a multipart takes in the leaves of all of them, in order. |
| MimeParser.ParsedEmail.ParseBody | pkg/mime/parser.go:79-130 | The body's leaves are taken in, with the fallback for an unreadable type and the refusal of a missing boundary. |
| MimeParser.Parse | pkg/mime/parser.go:23-77 | Fails exactly when header, body or some part cannot be read; otherwise every field of the parsed mail is what the header fields and the leaves of the body say. |
| MimeParser.OthersInOrder | pkg/mime/parser.go:154-185 | Parts lists each leaf that is no body exactly once, in document order. |
| MimeParser.LastTextIs | pkg/mime/parser.go:155-156 | The text body is that of the last plain leaf without name that is not inline. |
| MimeParser.NoTextKeeps | pkg/mime/parser.go:155-156 | Without such a leaf the text body stays what it was. |
| MimeParser.LastHtmlIs | pkg/mime/parser.go:158-159 | The HTML body is that of the last HTML leaf without name that is not inline. |
| MimeParser.NoHtmlKeeps | pkg/mime/parser.go:158-159 | Without such a leaf the HTML body stays what it was. |
| MimeRoundTrip.WrappedDecodes | pkg/mime/parser.go:193-204 | Wrapped data decodes to the data, with its last line end or without. |
| MimeRoundTrip.FileTree | pkg/mime/parser.go:132-187 | A printed attachment is read as a leaf with its type, name and data, or taken apart if its type is a multipart. |
| MimeRoundTrip.FilesRead | lambdas/email_outbound/main.go:294-315 | All printed attachments are read back, whatever their types, in order, up to the closing boundary. |
| MimeRoundTrip.LabelsKeptIff | lambdas/email_outbound/main.go:296-303 | The type comes back if and only if it is a plain name in small letters; a name without encoded words, if and only if it holds no control character. |
| MailRoundTrip.TextsRead | lambdas/email_outbound/main.go:251-292 | Every header field that the parser asks for is read as it was printed, without the blanks at its ends. |
| MailRoundTrip.IdsReadIff | lambdas/email_outbound/main.go:261-273 | Message-ID and In-Reply-To come back if and only if no bracket stands at either end of them. |
| MailRoundTrip.ReferencesRead | lambdas/email_outbound/main.go:274-280 | References comes back as the same ids. |
| MailRoundTrip.RoundTripWithFiles | lambdas/email_outbound/main.go:251-322 | A printed mail with attachments parses if and only if its bodies and the multiparts among its attachments do; it keeps the ids and the subject, has in From, Reply-To, To and Cc what the library reads in the printed addresses, and lists exactly the attachments if and only if none passes for a body or is taken apart. |
| MailRoundTrip.NamelessTextLost | pkg/mime/parser.go:154-159 | A mail: a nameless plain-text attachment is not listed, and replaces the body. |
| MailRoundTrip.RoundTripSingle | lambdas/email_outbound/main.go:317-355 | A mail of one body parses, keeps the ids, lists nothing, and its body comes back as written. |
| MailRoundTrip.RoundTripAlternative | lambdas/email_outbound/main.go:327-343 | A mail of both bodies parses if and only if both decode; it keeps the ids and lists nothing. |

## Left out

- Runs.RunKeepsInvariant: operations are serialised, as the source's reads take no row locks; inbox deletion and its cascades are not operations of a run.
- EmailInbound.IngestTx: the participant merge appends the newcomers, which is what the query is meant to do. The query as written (services/email-pipeline/store/email_store.go:263-274) orders an aggregate by an expression that is not its DISTINCT argument, which PostgreSQL refuses; then the transaction is aborted and a mail that joins a thread is not stored. What is said of joining mails holds of the intended statement.
- OutboundProtocol.OneAttempt: attempts at one job do not overlap; two workers on one job at the same time are not modelled.
- ThreadStore.BrowseFindsQuietThreads: claims nothing for a thread that receives messages between pages, since its position moves.
- KeysetPages.StableWalk: assumes that times and ids are rendered without the separator and read back exactly.
- MailRoundTrip.RoundTripWithFiles: assumes boundaries that do not occur in what they separate, types that are valid header text, and names in which %q escapes nothing beyond ASCII; body text comes back decoded because the builder labels it quoted-printable but writes it raw.
- MimeParser.Parse: the header map is kept as the list of fields that were read; their grouping under canonical names is the library's.
- MediaTypes.ParseWithParameter: parameters split or encoded with asterisks (RFC 2231) are read as plain parameters.
- Multipart.NextPart: the buffer and header size limits of the library are not modelled.
- WebhookDispatcher.EachWebhookOnce: covers redeliveries of failed records only; a queue that repeats a finished record sends again.
- How encoded words, quoted-printable text, addresses and dates are read is the library's: these readers are parameters of the parser. The formatting of addresses in a printed mail is not modelled.
- SQL text is modelled as clauses, conditions and arguments rather than as characters.
- Row-level security policies are represented by the organisation conditions of the queries; setting the organisation is not a statement of its own.
- Events, jobs, S3 contents and keys, JSON, signatures and encryption of webhook secrets carry no table state and are left out.
- Forward, message and thread patches, label changes, search pages, seat limits, routing, scopes and API keys are single statements or lookups that take no part in the invariants, chains and protocols above.
- Webhook retries are not sent by any worker in the repository; the store's retry machine is modelled by its calls.
- Unicode: case folding and trimming are those of ASCII bytes.
