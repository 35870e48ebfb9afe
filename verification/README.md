# A verified model of the mail backend's ingestion core

The program collects mail for temporary addresses. Clients poll over HTTP; each
poll may trigger one shared fetch from a relay inbox (Microsoft Graph or IMAP),
and other mail arrives by SMTP and webhook. This project models the parts of it
where something can go wrong between two lines of code, and proves what they
promise on every run, input and interleaving.

`dafny verify dfyconfig.toml` checks everything.

| file | models |
|---|---|
| `ondemand.dfy` | the single-flight coordinator: its critical sections (a class and functions) and its threads (a transition system with a mutex, a clock, and any number of callers, fetch goroutines and closers) |
| `ondemand_safety.dfy`, `ondemand_results.dfy`, `ondemand_progress.dfy` | what holds on every run of it, whose result its callers get, and that every run ends |
| `database.dfy` | the two tables, statement by statement, as functions on rows and as a class |
| `store.dfy`, `interleaving.dfy` | storing one mail, whatever statements fail; any number of requests interleaved statement by statement |
| `requests.dfy` | the HTTP requests on mailboxes, from first to last statement |
| `smtpsession.dfy` | what an SMTP session accepts and what its answer to DATA means |
| `composition.dfy` | coordinator and store together |
| `graphdrain.dfy`, `highwater.dfy` | the paged Graph drain; its high-water mark over whole runs |
| `imapdrain.dfy`, `imapstore.dfy` | the IMAP drain; which mails it leaves in the database |
| `imapsession.dfy` | who logs out which session |
| `envfile.dfy`, `tokens.dfy` | the `.env` rewriter; the refresh-token chain across exchanges and restarts |
| `routing.dfy`, `headers.dfy`, `addresses.dfy` | whom a mail is for; printing and parsing address lists; the addresses handed out |
| `delivery.dfy` | outbound delivery to mail hosts |
| `gostrings.dfy`, `wrappers.dfy` | the string functions and option types used throughout |

## What was found

- Only the bodies of `FetchOnce` exclude each other. The deferred block of `fetch`
  publishes the result before `wg.Done`, so two goroutines can be alive
  (`TwoGoroutinesCanBeAlive`), and between `wg.Add` and the `go` statement the wait
  group counts a goroutine that does not exist yet (`WaitGroupExact` counts both).
  A goroutine announced before `Close` may therefore still be started after it;
  `Close` waits for it, and no further one is announced.
- The Graph drain ends exactly when no second at or after its mark holds fifty or
  more messages (`DrainsIffUncrowded`). Otherwise it never returns: the mark reaches
  the first such second and stops there (`MarkReachesCrowded`), and if no statement
  fails, every round but the next one is idle from then on (`CrowdedDrainGoesIdle`).
- `pollOnce` describes its filter as "gt (not ge)"; the code sends `ge`, and the
  model follows the code. Its boundary re-reads are absorbed by the GraphID check.
- The GraphID check and the insert are separate statements without a unique index.
  Doubles are excluded only by the single flight (`NoDoubleGraphMessage`,
  `OverlapWouldDouble`). The error of the check's query is ignored; a failed query is
  harmless if and only if the GraphID is not stored at that moment
  (`FailedCheckDoublesIff`).
- Mail stamped below the mark when it arrives is never offered to the store
  (`LateMailIsNeverOffered`). Whatever else arrives, leaves, fails or panics, all other
  mail in the inbox that the mark has passed since the start was offered
  (`BelowMarkOfferedOrLate`).
- A failed store call counts as skipped and the mark moves on. The message is stored
  later only if it is offered again while the mark stays on its second; once the mark
  has passed it, it is lost unless another copy arrives (`FailedOfferIsLost`).
- The IMAP path has no GraphID check. When neither FETCH nor STORE gets the \Seen flag
  set, the drain does not end and stores the same mails in every round
  (`LostFlagsRepeat`). When the server leaves flagging to the client and FETCH breaks
  off, the readable mails received before the break are offered to the store again by
  the next complete round (`BrokenFetchRepeats`). When the server flags mails as it
  serves them and FETCH breaks off, the mails served but not received are never offered
  (`LostMailIsNeverOffered`). Every readable mail is offered exactly once if and only if
  each round flags those that came through and none that did not
  (`EachMailOfferedOnceIff`).
- `Data` answers 250 to mail that no routing header leads here, although `Rcpt` accepted
  its recipients: routing looks at the headers alone, with subdomains on. Otherwise 250
  means stored and 450 means that no message key was taken, over every interleaving
  (`ReplyAmongOthersIff`); an empty mailbox may be left behind (`DeliverFilesIff`).
- A mail host that takes a message but whose confirmation gets lost, or that then fails
  at QUIT, counts as failed, so the next host gets the message too, or a taken message
  is reported as failed (`OneCopyIff`). One refused recipient keeps a host from serving
  its whole group (`CompletesIff`); the group fails if and only if every host fails in
  some command or refuses some recipient (`GroupFailsIff`).
- `Send` accepts recipients that the `To` header does not carry: it reads back as the
  recipients if and only if none has a comma or a `<` before its first `>`
  (`SentHeaderNamesRecipientsIff`).
- `PersistRefreshToken` knows `KEY=` only and rewrites the first such line, while the
  parser also reads `KEY = `, `KEY: ` and `export KEY=` and lets the last line win. A
  rotated token survives a restart if no line behind the rewritten one assigns the key
  in any form; otherwise the next start takes the same text as without the write
  (`WriteThenRead`, `SpacedLineHidesToken`, `SecondLineBreaksChain`). The token is
  written without quotes, so that one with a reference such as `$NAME`, an escaped `$`
  or a `#` behind a blank comes back changed where no earlier line sets a variable
  (`LiteralTokenIsKept`, `ReferenceBreaksChainIff`). A response without access token is
  dropped before its rotated refresh token is saved (`StaysInAgreementIff`).
- `findGraphRecipient` knows no subdomains: an address handed out under a label of
  its own gets no mail through Graph (`GraphReachesOnlyConfiguredHosts`). Its comment
  speaks of To recipients; the code also looks at Cc.
- `sanitizeSubdomain` can leave a hyphen at the end, through its cut at 63 characters
  only (`LabelClean`), and is then not idempotent (`LabelIdempotentIff`).

## Assumptions

- Primary keys are never handed out twice. `RecycledKeyMisfiles` shows that
  `ReferentialSafety` needs it.
- `FetchOnce` returns or panics at some point; nothing is assumed about when, and no
  scheduling fairness is assumed. `runtime.Goexit` inside it is not considered.
- The clock never runs backwards (Go compares monotonic readings).
- A statement that fails has no effect. Where a lemma needs statements to work, its row
  says so.
- No mail is expunged from the IMAP mailbox while a drain or the next one runs, and no
  other client sets or clears \Seen; a server that flags mails as it serves them flags
  no others.
- The lemmas on a single drain are about an inbox that nothing enters or leaves; those of
  `highwater.dfy` let mail come and go between page requests.
- A Graph inbox is served in the order of its receive times, and those times parse.
  Graph messages have ids where a lemma asks for `Identified`.
- Reading `.env` back follows the parser the program uses, godotenv v1.5.1, which is not
  part of the repository: last assignment wins, comments cut, variables expanded from
  earlier lines. Values that start with a quote or a `#` are not part of this model, and
  neither are files with a line that is not blank, a comment or an assignment: the
  parser rejects such a file as a whole.
- The token endpoint accepts an access token at least for the lifetime it grants, or for an
  hour if it grants none.
- Durations fit into 64 bits of nanoseconds.
- A mail host to which writing the message breaks off has not taken it.
- Texts are ASCII: no Unicode case folding or Unicode spaces.
- A `*call` on the heap is an index into a registry of calls.

## Model

| member | source | states |
|---|---|---|
| `OnDemandModel.OnDemand.constructor` | ingest/ondemand.go:20-32 | a new coordinator has no call, no context and an empty wait group |
| `OnDemandModel.OnDemand.SyncLocked` | ingest/ondemand.go:58-86 | the locked part of `SyncContext`: the whole new state and the verdict are those of the transition system's `Judge` step |
| `OnDemandModel.OnDemand.FetchDone` | ingest/ondemand.go:115-121 | the deferred block makes exactly the state change of the `PublishStep` step |
| `OnDemandModel.OnDemand.CloseLocked` | ingest/ondemand.go:134-141 | the locked part of `Close` makes exactly the state change of the `CloseBody` step, a second close none |
| `OnDemandSafety.StepKeepsInv` | ingest/ondemand.go:47-143 | every step of every thread keeps the whole invariant |
| `OnDemandSafety.RunKeepsInv` | ingest/ondemand.go:47-143 | the invariant holds along every run, whatever the number of callers and closers |
| `OnDemandSafety.SingleFlight` | ingest/ondemand.go:18-32 | in every reachable state at most one goroutine is between its start and the publication of its result |
| `OnDemandSafety.OpenCallHasOneOwner` | ingest/ondemand.go:80-99 | an open call is the one in flight, and exactly one thread (a caller about to spawn or an unpublished goroutine) owes it a result; a finished call has none |
| `OnDemandSafety.ResultPublishedOnce` | ingest/ondemand.go:107-122 | `err` is written and `done` closed together and at most once; the step that closes never finds it closed |
| `OnDemandSafety.WaitGroupExact` | ingest/ondemand.go:85-102 | the counter equals the goroutines not yet exited plus those announced but not started, and `Done` never makes it negative |
| `OnDemandSafety.CloseReachesEveryFetch` | ingest/ondemand.go:81-83 | every goroutine has a parent context to derive from, and it is cancelled as soon as `closed` is set |
| `OnDemandSafety.ClosedForGood` | ingest/ondemand.go:127-142 | from the moment `closed` is set no run starts another call or raises the counter |
| `OnDemandSafety.ShutdownComplete` | ingest/ondemand.go:127-143 | once any `Close` has returned, in every continuation all goroutines have exited and none is ever added |
| `OnDemandSafety.FetchesAreSpaced` | ingest/ondemand.go:73-79 | a call starts only after the previous one finished, at least `MinInterval` later, failed ones included |
| `OnDemandSafety.AnswersAreFetches` | ingest/ondemand.go:63-99 | a returned caller was cancelled itself, or saw the shutdown, or has the result of one finished fetch that ended after its check or was the latest and younger than `MinInterval` |
| `OnDemandSafety.ImpatientWaiterInvisible` | ingest/ondemand.go:45-46 | cutting a waiter's own moves out of any run leaves a valid run with the same shared state, fetches and other callers |
| `OnDemandResults.ResultIsFetchedIff` | ingest/ondemand.go:107-124 | in every run the `err` of a finished call is exactly what its own goroutine's `FetchOnce` returned (or its panic) |
| `OnDemandResults.AnswersAreFetched` | ingest/ondemand.go:63-99 | in every run `lastErr` is what the latest finished fetch returned, and the result a caller gets is what the `FetchOnce` of that call returned |
| `OnDemandResults.PublishedNow` | ingest/ondemand.go:115-121 | publication records the moment and the goroutine's own result in its call and in the coordinator, frees the flight and touches no other call |
| `OnDemandResults.StartedNowIff` | ingest/ondemand.go:58-86 | a locked check starts a call if and only if the coordinator is open, nothing is in flight and no result is younger than a positive `MinInterval`; otherwise nothing shared changes |
| `OnDemandResults.JudgedAs` | ingest/ondemand.go:58-86 | what the caller then does: it gets the shutdown, waits for the call in flight, gets the young result of the latest call, or spawns its own |
| `OnDemandResults.CancelledEntryReturns` | ingest/ondemand.go:54-56 | a caller that enters with a cancelled context gets its error without touching the coordinator |
| `OnDemandProgress.StepUsesWork` | ingest/ondemand.go:47-143 | every thread move lowers a natural-number measure |
| `OnDemandProgress.MovesAreBounded` | ingest/ondemand.go:47-143 | in any run, ticks and cancellations included, the threads make no more moves than the work at its start plus eleven for each caller and three for each closer that arrives |
| `OnDemandProgress.NoDeadlock` | ingest/ondemand.go:93-98 | a reachable state with no thread move left has every caller answered, every goroutine exited, every `Close` returned, the mutex free and the counter at zero |
| `OnDemandProgress.TwoGoroutinesCanBeAlive` | ingest/ondemand.go:101-122 | a reachable state with one goroutine published but not done and another inside `FetchOnce` |
| `Tables.Database.constructor` | storage/db.go:54-56 | a new database has empty tables |
| `Tables.Database.First` | handlers/store.go:33 | nothing exactly if no mailbox has the address, otherwise the matching mailbox with the lowest key |
| `Tables.Database.CountGraphId` | handlers/graph_store.go:57-58 | the count is positive exactly if a message with the GraphID is stored |
| `Tables.Database.InsertMailbox` | models/models.go:9-16 | inserts under a fresh key, or fails with no effect if the address is taken |
| `Tables.Database.InsertMessage` | models/models.go:20-31 | inserts under a fresh key, or fails with no effect if the mailbox is gone |
| `Tables.Database.RemoveMailbox` | handlers/email.go:158-170 | removes the mailbox of the address with all its messages and reports how many mailboxes went |
| `Tables.Database.CleanupExpired` | handlers/email.go:206-212 | removes exactly the mailboxes past their expiry, with their messages, and counts them |
| `Tables.Database.CleanupOldMessages` | handlers/email.go:215-225 | removes exactly the messages older than the maximal age and counts them, nothing if it is not positive |
| `Tables.Database.RemoveMessage` | handlers/message.go:111-118 | removes exactly the message with the key and reports whether there was one |
| `Tables.FirstFinds` | handlers/store.go:33 | the lookup finds the mailbox of the address with the lowest key, exactly if there is one |
| `Tables.CreateMailboxSound` | models/models.go:11 | a successful insert adds exactly its row under the next key, proves the address was free and keeps the tables sound |
| `Tables.CreateMessageSound` | models/models.go:15 | inserting a message under the mailbox of its address adds exactly that row under the next key and keeps the tables sound |
| `Tables.DropMailboxesSound` | models/models.go:15 | the cascade keeps the tables sound and takes exactly the given mailboxes and their messages; the rest stays as it was |
| `Tables.DeletedByAddress` | handlers/email.go:158-170 | deleting an address takes exactly its mailbox and the mail to it |
| `Tables.DeletedExpired` | handlers/email.go:206-212 | the cleanup takes exactly the mailboxes whose expiry is before now, with their mail |
| `Tables.DeletedMessages` | handlers/message.go:111-118 | a delete takes exactly its message, the cleanup (handlers/email.go:219-220) exactly those received before the cutoff |
| `Store.Execute` | handlers/graph_store.go:55-108 | each statement of a delivery on a database object, and what follows when it fails: the error of the GraphID count is ignored, any other ends the delivery |
| `Store.DeliverTo` | handlers/graph_store.go:55-109 | the uninterrupted statement chain of a delivery, under any faults |
| `Store.StoreMessage` | handlers/store.go:19-68 | parse, route, find or create the mailbox, insert; each early return included, those for failing statements too |
| `Store.StoreGraphMessage` | handlers/graph_store.go:49-110 | route, check the GraphID, find or create the mailbox, insert; each early return included, those for failing statements too |
| `Store.DeliverFilesIff` | handlers/store.go:31-67 | an undisturbed delivery adds exactly one message, filed under its own address, if and only if none of its statements fails; otherwise no message and at most an empty mailbox |
| `Store.StoreGraphEnds` | handlers/graph_store.go:49-110 | exactly when a store call ends as not ours, duplicate, stored or failed, under any faults, and what it leaves in the tables |
| `Store.StoreGraphAbsorbsIff` | handlers/graph_store.go:42-48 | a message is absorbed after a store call if and only if it was before or the call did not fail, and no other GraphID appears |
| `Store.StoredTakesKey` | handlers/graph_store.go:55-109 | from any statement on, a delivery hands out a message key exactly if it reports a stored message, which has that key; otherwise the messages are untouched |
| `Store.AbsorbedIsSkipped` | handlers/graph_store.go:55-62 | offering an absorbed message again changes nothing, if the query of the check does not fail |
| `Store.ExtendsKeepsAbsorbed` | handlers/graph_store.go:42-48 | an absorbed message stays absorbed as long as rows are only added |
| `Store.StoredMailSays` | handlers/store.go:51-67 | after a stored call the one new row has the mail's own sender (trimmed), subject, texts and source and the moment of storing, is addressed to the first recipient found here, and lies in that address's mailbox |
| `Store.StoredGraphSays` | handlers/graph_store.go:83-109 | the same for Graph: GraphID, body under HTML exactly if its type says so, and the parsed receive time if there is one |
| `Store.MadeMailboxSays` | handlers/store.go:37-45 | a mailbox made for an address is named by what stands before its first `@` and expires in a year |
| `Store.MailboxMadeIff` | handlers/store.go:31-49 | a delivery makes a mailbox if and only if its address has none and neither lookup nor creation fails; no other mailbox changes |
| `Interleaving.StepKeepsInv` | handlers/message.go:62-92 | every statement of every request, failing or not, every delete and cleanup keeps the tables sound and remembered keys honest |
| `Interleaving.ReferentialSafety` | handlers/store.go:31-66 | over every interleaving addresses stay unique and every message lies in a live mailbox of its own address |
| `Interleaving.InsertFilesOrFails` | handlers/graph_store.go:95-108 | a delivery whose mailbox was deleted after the lookup fails without effect; any other files its message under the right address |
| `Interleaving.ListingShowsOwnMail` | handlers/message.go:89-93 | a listing shows only mail to its address, and all of it as long as its mailbox lives |
| `Interleaving.EveryReportIsOneMessage` | handlers/store.go:55-67 | over every interleaving, faults and deletes included, as many message keys are handed out as deliveries report success, to each its own, and what lies under it is what that delivery was to store |
| `Interleaving.OneKeyIffReported` | handlers/store.go:64-67 | over every interleaving a delivery takes one message key if it comes to report success and none otherwise |
| `Interleaving.RecycledKeyMisfiles` | models/models.go:10 | with reused keys the same interleaving files a message under another address |
| `Requests.ListingIs` | handlers/message.go:65-93 | an undisturbed listing shows exactly the mail to its address if there is a mailbox; else makes an empty one, good for a year, if the address is configured, and finds nothing if not |
| `Requests.RegistrationIs` | handlers/email.go:94-117 | an undisturbed registration adds exactly its mailbox if the address is free and is turned down without effect if not, whether or not it checks first |
| `Requests.Overtaken` | handlers/message.go:79-84 | if another request makes the mailbox behind the lookup, a listing shows that mailbox and a delivery (handlers/store.go:46-48) fails without effect |
| `Requests.FaultEnds` | handlers/message.go:65-93 | how each request goes on or ends when one of its statements fails, the ignored errors included |
| `Requests.RemovalAmongOthers` | handlers/email.go:158-170 | amid other requests, a delete takes exactly the mailbox and the mail of its address and disturbs no request |
| `Requests.ExpiryAmongOthers` | handlers/email.go:206-212 | amid other requests, the cleanup takes exactly the mailboxes past their expiry |
| `Requests.MessagesGoAmongOthers` | handlers/email.go:219-220 | amid other requests, the message cleanup takes exactly the old messages and a delete exactly its one |
| `Requests.ListMessages` | handlers/message.go:62-93 | the handler on a database object: the messages shown, the mailbox made, or the 404 |
| `Requests.CreateMailbox` | handlers/email.go:38-118 | the handler on a database object: each refusal without effect; otherwise exactly the row of the address, good for the requested or configured hours |
| `SmtpSession.Session.constructor` | smtp/server.go:33-42 | the configured domains are lowered once, before any session compares against them |
| `SmtpSession.Session.Rcpt` | smtp/server.go:90-107 | 250 or 550 by the acceptance test, under the server's own subdomain setting |
| `SmtpSession.Session.Data` | smtp/server.go:109-132 | the mail handed to the store, and the reply each outcome is mapped to |
| `SmtpSession.RefusedStoresNothing` | smtp/server.go:115-126 | any answer but 250, a failed store included, means that no message was stored, on any database and under any faults; the read error is handed through exactly if the mail could not be read, and mail that does not parse gets 450 |
| `SmtpSession.AcceptedIff` | smtp/server.go:115-131 | a session left alone answers 250 if and only if the mail is read, parses, and no header is ours or no statement fails; stored exactly if a header is ours |
| `SmtpSession.ReplyAmongOthersIff` | smtp/server.go:115-131 | over every interleaving with faults: 250 if and only if the mail is read, parses, and no header is ours or its delivery ended stored; otherwise it took no message key |
| `Composition.GraphInsertKeepsInv` | handlers/graph_store.go:106 | an insert with a GraphID belongs to the one running delivery, whose GraphID is still absent |
| `Composition.StepKeepsInv` | ingest/ondemand.go:101-125 | every step of coordinator, fetch, other writers, deletes and cleanups keeps GraphIDs distinct, also when a panic abandons a delivery half way or a GraphID query fails while the GraphID is not stored |
| `Composition.NoDoubleGraphMessage` | handlers/graph_store.go:45-46 | over every run of the whole system, harmless query failures included, no two messages share a GraphID and the tables stay sound |
| `Composition.OverlapWouldDouble` | handlers/graph_store.go:55-62 | an interleaving of two deliveries of one message that ends with both stored |
| `Composition.FailedCheckDoublesIff` | handlers/graph_store.go:58 | a failed GraphID query lets the message be stored twice if and only if it was stored at that moment |
| `GraphDrain.Poller.constructor` | graph/poller.go:31-57 | a new poller has no mark yet |
| `GraphDrain.Poller.PollOnce` | graph/poller.go:149-187 | one page: what is stored, failed store calls included, where the mark goes, whether the page was full; stored + skipped = fetched, and `stored` is the number of new messages |
| `GraphDrain.Poller.FetchOnce` | graph/poller.go:67-84 | the drain loop, starting two minutes back when there is no mark yet, for any sequence of page answers and errors |
| `GraphDrain.LatestIsMax` | graph/poller.go:171-173 | the latest receive time of a page is that of one of its messages, and none is later |
| `GraphDrain.MarkGoesTo` | graph/poller.go:175-185 | the mark goes to the latest receive time on a full page of fifty, one second past it on any other, and stays if no time parses |
| `GraphDrain.FullPageProgress` | graph/poller.go:175-182 | a full page never moves the mark back and strictly shrinks what is left, unless it lies in one crowded second |
| `GraphDrain.UncrowdedDrains` | graph/poller.go:74-83 | with fewer than fifty messages per second the drain ends within one round more than there are eligible messages |
| `GraphDrain.CrowdedNeverDrains` | graph/poller.go:177-181 | a crowded second ahead keeps the drain going for any number of rounds |
| `GraphDrain.MarkReachesCrowded` | graph/poller.go:176-184 | the mark of a drain that does not end stands on the first crowded second within one round more than there are eligible messages |
| `GraphDrain.DrainsIffUncrowded` | graph/poller.go:62-83 | the drain of an unchanging inbox ends if and only if no second from the mark on holds fifty messages |
| `GraphDrain.StoreAllIdsIff` | graph/poller.go:153-170 | a GraphID is stored after a page if and only if it was before or one of its store calls reports it, whatever fails |
| `GraphDrain.OverlapAbsorbed` | graph/poller.go:177-179 | storing a window without failure and then everything from an earlier point on with working checks equals storing everything once |
| `GraphDrain.DrainRefinesOnePass` | graph/poller.go:65-84 | whenever the drain ends and no statement failed, the database equals, row order and new mailboxes included, one pass over the eligible messages with clock readings of the run; the mark is one second past the last |
| `GraphDrain.StuckIsFixedPoint` | graph/poller.go:175-184 | with the mark on a crowded second, one round without failure leads to a state that no further round with working checks changes |
| `GraphDrain.CrowdedDrainGoesIdle` | graph/poller.go:74-83 | from any mark with a crowded second ahead, the drain comes to the first such second and, after one round there without failure, to a state that no further round with working checks changes |
| `HighWater.MarkNeverMovesBack` | graph/poller.go:171-185 | no event moves the mark back |
| `HighWater.PollCatchesUp` | graph/poller.go:155-185 | a poll offers everything between the old mark and the new one |
| `HighWater.BelowMarkOfferedOrLate` | graph/poller.go:71-83 | over any run of good, failed and panicking polls, mail arriving and leaving and database changes, each mail from the first mark up to the current one has been offered or was stamped below the mark when it arrived |
| `HighWater.NothingBelowMarkIsMissed` | graph/poller.go:71-83 | without such late arrivals everything from the first mark up to the current one has been offered |
| `HighWater.PartialPageOffersEverything` | graph/poller.go:74-83 | after a partial page nothing received since the first mark is left unoffered but late mail |
| `HighWater.DrainIsEvents` | graph/poller.go:74-83 | whatever inboxes its rounds see and wherever a request fails, a drain does to rows and mark what its polls do one by one; it is faulted exactly if its last is a failed request, drained exactly if its last page is partial |
| `HighWater.DrainMissesNothing` | graph/poller.go:74-83 | over any drain, broken off or not, each mail from the first mark up to where the drain leaves the mark has been offered or was late |
| `HighWater.FailedRequestKeepsMark` | graph/poller.go:76-79 | a failed request leaves rows and mark as they were |
| `HighWater.OfferedStaysStored` | graph/poller.go:153-174 | as long as nothing else changes the database, every offered message is stored or not for a configured domain, unless that store call failed |
| `HighWater.StoredIffReported` | graph/poller.go:156-170 | over any undisturbed run with faults a GraphID is stored if and only if it was at the start or a store call reported it |
| `HighWater.FailedOfferIsLost` | graph/poller.go:158-186 | a message not stored when the mark has passed it is not stored by any undisturbed run, unless a copy arrives |
| `HighWater.LateMailIsNeverOffered` | graph/poller.go:176-184 | mail stamped below the mark and not offered before is never offered |
| `ImapDrain.Poller.constructor` | imap/poller.go:32-71 | a poller on a mailbox starts with no mail offered |
| `ImapDrain.Poller.StoreIncoming` | imap/poller.go:322-348 | the receive loop: mails stored in order, unreadable ones skipped, all of them put on the list to flag; `stored` is the number of new messages |
| `ImapDrain.Poller.FetchUnread` | imap/poller.go:296-362 | one round with each of its error exits, a FETCH that breaks off with mails on the way included, and stored + skipped = fetched on success |
| `ImapDrain.Poller.FetchOnce` | imap/poller.go:108-117 | the loop of rounds until a search is empty or a command fails |
| `ImapDrain.TakenIs` | imap/poller.go:319-351 | of the unseen mails in order, a complete round takes all, a broken one those that came through; lost are those flagged behind these |
| `ImapDrain.RoundEffect` | imap/poller.go:322-359 | what a round offers and what it flags, mail by mail, however it ends, with the mails that were served but lost |
| `ImapDrain.RoundOffersOnceIff` | imap/poller.go:325-359 | a round, complete or broken off, offers each due mail once and keeps the books straight if and only if it flags every readable mail that came through and none that did not |
| `ImapDrain.EachMailOfferedOnceIff` | imap/poller.go:73-75 | over any number of drains with mail arriving in between and drains breaking off anywhere, each readable unseen mail is offered exactly once when it is seen and never before, if and only if every round was such a clean one |
| `ImapDrain.FreshPollerOffersOnceIff` | imap/poller.go:73-75 | the same for a new poller on any mailbox |
| `ImapDrain.SeenIsNeverOffered` | imap/poller.go:302-305 | a mail once flagged is not offered again by any number of drains, whether its store call worked or not |
| `ImapDrain.LostMailIsNeverOffered` | imap/poller.go:319-351 | a mail flagged as it was served but not received is offered by no continuation |
| `ImapDrain.DrainIsRounds` | imap/poller.go:108-117 | a drain is its rounds in order up to where it stops: faulted exactly at the first that breaks off, drained exactly at the first that finds nothing |
| `ImapDrain.DrainedMeansSeen` | imap/poller.go:108-117 | a drain that ends without error leaves no mail unseen, whatever happened on the way |
| `ImapDrain.BrokenFetchRepeats` | imap/poller.go:349-351 | without flags set by FETCH, a readable mail received before a FETCH breaks off is offered twice by that round and the next complete one |
| `ImapDrain.DrainEndsInTwoRounds` | imap/poller.go:108-117 | without arrivals and errors the drain ends in two rounds with all mail seen, whether or not FETCH sets the flag |
| `ImapDrain.LostFlagsRepeat` | imap/poller.go:353-359 | with flags lost the drain does not end and each due mail is offered once per round |
| `ImapStore.RoundPlaces` | imap/poller.go:322-348 | mail by mail, however the round ends: a mail for a configured domain gets exactly one new row, with its own source, if and only if no statement fails; any other adds no message |
| `ImapStore.StoredAsOffered` | imap/poller.go:322-348 | over any number of drains, the messages added are exactly rows of wanted mails that were offered, none more often than offered; as often as offered if no statement fails |
| `ImapStore.EachMailStoredOnce` | imap/poller.go:73-75 | with clean rounds and no failing statement each wanted mail that was unseen is stored exactly once when it is seen, not before, and nothing else is stored |
| `ImapSession.Connect` | imap/poller.go:393-467 | the session returned is the one opened; on every failing path the opened session, if any, is logged out once |
| `ImapSession.Reconnect` | imap/poller.go:141-157 | the old session is logged out, and so is the new one if SELECT fails; a session is opened exactly if the dial succeeds |
| `ImapSession.TakeTurn` | imap/poller.go:172-219 | one turn of the loop: exactly the session it ends with is left open, and whether the loop goes on |
| `ImapSession.TurnEndsIff` | imap/poller.go:172-219 | `Run` ends exactly where it is stopped while waiting or idle, and keeps its session exactly if fetch and wait went well; a wake-up goes on |
| `ImapSession.Run` | imap/poller.go:121-221 | at every loop head only the current session is open; however `Run` returns, every session it opened, and their number is given, has been logged out exactly once |
| `ImapSession.FetchOnce` | imap/poller.go:87-106 | no session outlives the call and none is logged out twice, a leftover one included |
| `EnvFile.PersistRefreshToken` | config/config.go:332-351 | the scan, replace-or-append and join of the file |
| `EnvFile.FirstLineCarriesToken` | config/config.go:338-349 | the first line that starts with `KEY=` behind blanks carries the new token, at its place, or a new last line does; every other line is where it was |
| `EnvFile.FileIsCut` | config/config.go:338-350 | byte for byte: the file is cut around one line of the key and the new one put in, or goes on with a new line at its end |
| `EnvFile.LastWriteWins` | config/config.go:331 | a second write replaces the first completely |
| `EnvFile.FilesCommuteIff` | config/config.go:338-349 | writes for two keys commute if and only if one of them has a line already |
| `EnvFile.WriteThenRead` | config/config.go:327-331 | the next start reads the value of the written token if no line behind the rewritten one assigns the key in a form the parser knows, and otherwise the text it would have read without the write |
| `EnvFile.LiteralTokenIsKept` | config/config.go:340-345 | a token without comment, reference or edge blanks is read back as written, and where no earlier line sets a variable no other token is |
| `EnvFile.SpacedLineHidesToken` | config/config.go:340-345 | a single line in spaced form behind the key's line hides every written token |
| `Tokens.TokenSource.constructor` | main.go:74-93 | a start takes the refresh token from the file and has no cached access token |
| `Tokens.TokenSource.FetchAccessToken` | graph/poller.go:190-262 | cache hit, each error exit, rotation and persistence, expiry with its one-minute margin |
| `Tokens.StaysInAgreementIff` | imap/poller.go:526-533 | with a file in which no later line assigns the key, a call keeps memory, file and server in agreement if and only if it rotates nothing, or its answer arrives complete and is written down and the new token reads back as written |
| `Tokens.ChainHolds` | graph/poller.go:47-49 | over any run of smooth calls and restarts with literal tokens every exchange is accepted and the three agree |
| `Tokens.BrokenChainStaysBroken` | config/config.go:324-326 | once neither memory nor file holds the valid token no run gets it back |
| `Tokens.SecondLineBreaksChain` | main.go:85-91 | with a line of the key, in any form, behind the rewritten one, one rotation and a restart break the chain |
| `Tokens.ReferenceBreaksChainIff` | main.go:85-91 | where no earlier line sets a variable, a rotation survives a restart if and only if its token is literal |
| `Tokens.CachedTokenUnexpired` | graph/poller.go:255-261 | over any run a cached access token is handed out only while the server accepts it, if the server keeps its grants and each was recorded within a minute of its issue |
| `Tokens.ServedFromCacheIff` | graph/poller.go:255-261 | a granted token is served from the cache up to exactly one minute before the granted seconds, or an hour if none are granted, have passed since it was recorded |
| `Tokens.FetchEnds` | graph/poller.go:226-261 | each failed exchange changes nothing; a grant brings its access token and, exactly if it differs, its refresh token, which is the one to persist |
| `Routing.Rcpt` | smtp/server.go:90-107 | accepts exactly the addresses on a domain or, if enabled, below one |
| `Routing.IsConfiguredAddress` | handlers/message.go:36-52 | the scan over the configured domains, with its two early refusals |
| `Routing.DomainAllowed` | handlers/send.go:102-121 | the scan over the domains after stripping a display name |
| `Routing.ExtractAddresses` | handlers/store.go:109-130 | the addresses of a header value, part by part |
| `Routing.FindRecipient` | handlers/store.go:73-104 | the first address on or below a domain over the four headers in order |
| `Routing.FindGraphRecipient` | handlers/graph_store.go:114-130 | the first To, then Cc, address exactly on a domain |
| `Routing.ConfiguredIsRcpt` | handlers/message.go:36-52 | `isConfiguredAddress` agrees with `Rcpt` on exactly the addresses with something before the last `@` |
| `Routing.AllowedIsRcpt` | handlers/send.go:102-121 | `domainAllowed` agrees with `Rcpt` without subdomains |
| `Routing.RecipientIsFirstAccepted` | handlers/store.go:88-102 | over the addresses of all four headers in order, the recipient is the first one `Rcpt` with subdomains on would accept |
| `Routing.DroppedIffNoneAccepted` | handlers/store.go:25-29 | a mail is dropped if and only if `Rcpt` with subdomains on would refuse every address of every routing header |
| `Routing.GraphDropsSubdomains` | handlers/graph_store.go:114-130 | a Graph mail is dropped if and only if `Rcpt` with subdomains off would refuse all its To and Cc recipients |
| `Routing.GraphPicksToFirst` | handlers/graph_store.go:119-129 | the first acceptable To recipient is picked, the first acceptable Cc recipient if no To recipient is |
| `Routing.LoweredAccepts` | handlers/graph_store.go:115-123 | the configured domains are compared in lower case |
| `Routing.NameIsStripped` | handlers/send.go:105-109 | what counts is the part between the last `<` and the `>` behind it |
| `Routing.NameIsKept` | handlers/send.go:105-109 | without such a pair the whole address counts |
| `Headers.RoundTrip` | sender/message.go:40 | every list of printable items, bare or named, is read back from the header in order |
| `Headers.NormalizeRecipients` | handlers/send.go:73-79 | the recipient loop of `Send`: trimmed, lowered, empty ones dropped |
| `Headers.SentHeaderNamesRecipientsIff` | handlers/send.go:73-93 | the header printed for a send request reads back as exactly its recipients if and only if none has a comma or a `<` before its first `>` |
| `Addresses.SanitizeLocalPart` | handlers/email.go:173-184 | the builder loop and dot trimming |
| `Addresses.SanitizeSubdomain` | handlers/email.go:188-203 | the builder loop, hyphen trimming and cut |
| `Addresses.LocalPartClean` | handlers/email.go:172 | local parts are safe, without edge dots, and unchanged by a second pass |
| `Addresses.LabelClean` | handlers/email.go:186-187 | labels are safe, at most 63 long, never start with a hyphen, and end with one exactly if the cut left it |
| `Addresses.LabelIdempotentIff` | handlers/email.go:198-202 | a second pass changes nothing if and only if the cut left no hyphen at the end |
| `Addresses.CreateAddress` | handlers/email.go:42-92 | the address construction with each of its refusals |
| `Addresses.KeptCharIs` | handlers/email.go:175-181 | safe characters are kept, capitals become their small letters, all else goes |
| `Addresses.SafeCharsAre` | handlers/email.go:175-195 | the alphabets of names and labels, written out |
| `Addresses.RequestedAddress` | handlers/email.go:42-92 | a request for a clean name gets exactly that name on the domain it asks for, or the primary one |
| `Addresses.RequestedLabel` | handlers/email.go:75-91 | with labels on, a clean label goes in front of the domain, a random one is eight hex digits of a uuid |
| `Addresses.RandomName` | handlers/email.go:60-63 | a request without a name gets nine hex digits of a uuid |
| `Addresses.RefusedAddress` | handlers/email.go:43-90 | exactly which requests are refused for their domain, name or label, and in which order |
| `Addresses.HandedOutIsReceivable` | handlers/email.go:92 | an address handed out is accepted by `Rcpt` and `isConfiguredAddress` under the same setting, and a header holding it, bare or named, routes back to it |
| `Addresses.GraphReachesOnlyConfiguredHosts` | handlers/graph_store.go:115-118 | through Graph it is found if and only if its whole host is a configured domain |
| `Delivery.SortByPref` | sender/sender.go:192 | a permutation in ascending preference |
| `Delivery.MxHosts` | sender/sender.go:189-206 | usable hosts by preference, or the bare domain; never empty |
| `Delivery.HostsByPreference` | sender/sender.go:189-206 | each named record of the answer as often as given, without its final dot, in ascending preference; the domain itself if there is none |
| `Delivery.SmtpClientSend` | sender/sender.go:100-119 | the dialogue with one host ends at its first refusal, recipients in order, or after QUIT |
| `Delivery.CompletesIff` | sender/sender.go:92-120 | one host serves a group if and only if every command works and every single recipient is accepted |
| `Delivery.TalkEnds` | sender/sender.go:100-119 | each dialogue ends at the first command that fails, at the first refused recipient, or after QUIT |
| `Delivery.DeliverToDomain` | sender/sender.go:149-187 | hosts are tried in order up to the first success; succeeds if and only if some host serves the group; otherwise the last host's failure is reported |
| `Delivery.GroupByDomain` | sender/sender.go:126-135 | the grouping loop with its refusal |
| `Delivery.DomainIs` | sender/sender.go:129-133 | the domain is what stands behind the last `@`, lowered |
| `Delivery.DeliverableIff` | sender/sender.go:129-132 | a recipient is valid if and only if something stands behind its last `@` |
| `Delivery.GroupGrows` | sender/sender.go:127-135 | one recipient more goes, trimmed, to the end of the group of its domain and to no other |
| `Delivery.GroupingMeans` | sender/sender.go:126-135 | grouping succeeds if and only if every recipient is valid, and each group is the domain's recipients in order |
| `Delivery.GroupsPartition` | sender/sender.go:125-135 | each recipient is in the group of its domain as often as it was given, and in no other |
| `Delivery.DeliverGroups` | sender/sender.go:137-142 | every group is tried whatever the order of the map, with one error for each group that failed |
| `Delivery.Send` | sender/sender.go:124-147 | nothing is attempted with an invalid recipient; otherwise one truthful report per domain and one error per failed one, never for lack of hosts |
| `Delivery.GroupFailsIff` | sender/sender.go:155-186 | a group fails if and only if every one of its hosts fails in some command or refuses some recipient |
| `Delivery.StopsAtFirstSuccess` | sender/sender.go:155-182 | the attempts are a prefix of the hosts that goes on to the first that serves the group, or to the end |
| `Delivery.OneCopyIff` | sender/sender.go:155-182 | a delivered group gets one copy and a failed one none if and only if no host tried took the message without completing the dialogue |
| `Delivery.TiesDoNotMatter` | sender/sender.go:192 | how the sort leaves equal preferences changes neither the candidates nor the outcome |

## Left out

- Requests.ListMessages: the messages as a set, without the order by receive time that the query asks the database for.
- HTTP plumbing: routing, status codes, authentication, JSON binding; a handler is its database statements and its refusals.
- SMTP RSET and QUIT, which do nothing here, and the size and recipient limits, which the SMTP library enforces.
- MIME parsing and printing beyond the `To` value, Q-encoding, JSON decoding: a parsed message is a record, a failed parse an error.
- GORM and SQLite internals, and the `created_at` column, which only orders one listing.
- `config.Load`: its result is described by the domain preconditions of the lemmas.
- `idleWait` and the dialing, TLS and SMTP dialogue code: each is one step with a given ending.
- `relaySender`: `smtpClientSend` behind a fixed sequence of library calls; also AUTH in `smtpClientSend`, which only it uses.
- `Run` of graph/poller.go, which repeats `FetchOnce` on a timer.
- The nil-receiver and nil-fetcher guards of `SyncContext` and `Close`, which return at once.
- Two `OnDemand` coordinators on one database, or other processes writing to it.
- A claim that mail accepted at RCPT is stored: `Data` routes by headers, so the code does not promise it.
