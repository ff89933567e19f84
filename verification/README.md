# Verified model of the bot backend's delicate protocols

A Dafny 4.11 model of the parts of the backend whose correctness cannot be read off one function body: protocols
over an unreliable network or disk, a schema migration over arbitrary data, byte-level recognisers, calendar text,
slot selection, and the encodings used as keys. Each module follows one source file or one cluster of them.

- `OauthStore`, `OauthRotation`, `OauthClient`: rotation of the CRM OAuth pair (section 6 of RFC 6749) by any number
  of workers over one leased row. `TokenStore` holds the five fenced transactions, `OauthRotation` is the state
  machine of interleaved steps with its invariant, and `RefreshClient` is the client's own control flow, interrupted
  by other workers between its transactions and proved to be a run of that state machine.
- `CrmRemote`, `CrmWrites`, `CrmRuns`, `CrmReceipts`, `CrmClient`: read, write, reread over a transport that may drop a
  request, lose an answer, refuse, or garble a body. `CrmWritesClient` is the object that issues the requests; `CrmRuns`
  proves what any sequence of calls under any faults can do to the remote lead, and `CrmReceipts` what exactly each call
  answers, by the fates of its requests alone.
- `ChatHistory`, `ChatLogChanges`: the paginated search of a chat log, what each of its three answers proves, and
  when ABSENT can be trusted on a log that changes between requests.
- `HandoffMigration`: the UPDATE statements of the handoff migration on arbitrary legacy tables, composed, and the
  constraints created after them.
- `Bytes`, `Crc`, `Jpeg`, `Png`, `AttachmentMime`: the image recognisers, proved equal to declarative grammars
  (annex B of ITU-T T.81; sections 5.3 and 5.5 of the PNG Specification, Second Edition), and the checksum as the
  remainder of a polynomial division.
- `SpoolFiles`, `SpoolNames`: the spool's write, inspect, read and unlink protocols under arbitrary failures, stops and
  power losses, and its file names.
- `Calendar`, `StudioTime`, `Availability`, `DialogPolicy`: dates and slot timestamps as text, the strict availability
  parsers, and the selection of the slots to offer.
- `TokenCodec`, `Utf8`, `Aad`, `VkIds`: token and key texts (sections 3.5 and 5 of RFC 4648), UTF-8 (section 3 of
  RFC 3629), associated data, and VK ids.
- `Text`, `Wrappers`: shared string facts and failure datatypes.

Parameters rather than guesses: clocks, fresh lease tokens, the fate of every request, commit and system call, the
server of the chat log, SHA-256, the managers' time zone, Python's `int()` on text and its Unicode digits.

## Where the code and its descriptions part

- ROTATE_SUPERSEDED is described as the row no longer holding the pre-refresh pair
  (`app/core/amocrm_crm_oauth_types.py:25-26`). After a readable 200 that can only be because the call's own commit
  succeeded and its acknowledgement was lost (`OauthRotation.SupersededByOwnPair`): the failure reported is a success
  (`OauthRotation.LostAcknowledgementReportsSuperseded` is such a run).
- "Never overwrite nonempty" (`app/core/amocrm_crm_writes_http.py:751`) fails exactly when the first read is a 2xx whose
  body does not parse (`CrmRuns.OverwriteIffUnreadableRead`); notes and tasks are duplicated exactly when the one
  250-row page does not suffice, or a list body does not parse (`CrmRuns.NeverDuplicatesIffPageSuffices`,
  `CrmRuns.DuplicateIffUnreadableList`).
- A lead id that `str.isdigit` accepts and `int()` does not, such as a superscript, passes the argument check and ends in a
  ValueError after the first read, before any write (`CrmReceipts.TaskExactly`, `CrmReceipts.DecisionExactly`).
- ABSENT in the chat log is answered although an entry names the message when that entry has no usable id
  (`ChatHistory.AbsentDespiteEntry`), and it can hide a match when the log changes at its front. While at most a page
  arrives between two requests, that is exactly when some reached transition shrinks the log while unread entries
  remain (`ChatLogChanges.CanHideIffShrinksUnread`); with larger arrivals the offset may come back before what it had
  skipped (`ChatLogChanges.RegrowthShowsSkippedEntries`), and the exact condition is that some entry is on no page
  while it stands (`ChatLogChanges.CanHideIffUnread`).
- A normal return of the spool write does not by itself mean that the file survives a power loss. It does exactly when
  the fsync of the shard directory took effect, whose OSError is swallowed, and root and shard directory were already
  settled: a directory made by the call is never synced into its parent, so the first object of a shard may vanish
  although every call succeeded (`SpoolFiles.FirstObjectOfShardMayVanish`). What may be lost is the whole file, never
  a part of it.
- A timestamp in the first five studio hours of year 1 is accepted by the validator and overflows in the formatter
  (`StudioTime.FormatOfParse`).
- The peer parser accepts leading zeros, so its texts are not all canonical (`VkIds.ConversationIdOfPeer`).

## Model

| member | source | states |
|---|---|---|
| OauthStore.TokenStore.Claim | app/repositories/amocrm_crm_oauth_tokens.py:304-359 | claiming a live lease fails as stale, a free one gets the next version; the pair is untouched |
| OauthStore.TokenStore.Renew | app/repositories/amocrm_crm_oauth_tokens.py:362-401 | renewal needs token, version, owner and an unexpired lease to match, and moves only the expiry |
| OauthStore.TokenStore.Rotate | app/repositories/amocrm_crm_oauth_tokens.py:404-454 | the pair is replaced and the lease cleared iff the fence holds; otherwise nothing changes |
| OauthStore.TokenStore.Release | app/repositories/amocrm_crm_oauth_tokens.py:540-560 | clears whatever lease still carries this token and version, ignoring owner and expiry |
| OauthStore.TokenStore.RecoverRotateIfPreRefreshUnchanged | app/repositories/amocrm_crm_oauth_tokens.py:457-537 | the claim-or-adopt, renew, rotate detour equals one guarded replacement: only over the unchanged pair and no live foreign lease |
| OauthStore.ClaimExcludesOthers | app/repositories/amocrm_crm_oauth_tokens.py:304-359 | nobody else can claim while a claimed lease has not expired, and anybody can from then on |
| OauthStore.LeaseWorksUntilExpiry | app/repositories/amocrm_crm_oauth_tokens.py:362-454 | a lease rotates exactly until it expires, and renewal moves that time under the same version |
| OauthStore.NextClaimFences | app/repositories/amocrm_crm_oauth_tokens.py:304-359 | after the next claim the earlier lease can neither renew, rotate nor release |
| OauthStore.RotateConsumesLease | app/repositories/amocrm_crm_oauth_tokens.py:404-454 | a rotation writes pair and expiry, frees the row, and its lease rotates nothing more |
| OauthStore.RecoveryReplacesUnchangedPair | app/repositories/amocrm_crm_oauth_tokens.py:457-537 | a recovery succeeds iff the pair is unchanged and no other worker has a live lease; a changed pair is superseded |
| OauthRotation.NextKeepsInv | app/core/amocrm_crm_rest_http.py:240-372 | every step of every call keeps the invariant of row, remote and all calls, and store and remote histories only grow |
| OauthRotation.RunKeepsInv | app/core/amocrm_crm_rest_http.py:214-462 | the invariant holds over every interleaving of any number of calls |
| OauthRotation.StoredPairIsCurrentOrPredecessor | app/core/amocrm_crm_rest_http.py:6-13 | for any interleaving the stored pair is the remote's current one or its immediate predecessor, and then at most one call holds the missing pair |
| OauthRotation.StoreNeverMovesBack | app/core/amocrm_crm_rest_http.py:374-462 | what was ever stored is, in order, what was ever issued but for at most the last pair, and only grows |
| OauthRotation.AcceptedOnlyInStep | app/core/amocrm_crm_rest_http.py:305-332 | the remote accepts a pair read from the row only when the row is in step with the remote |
| OauthRotation.StoringCatchesUp | app/core/amocrm_crm_rest_http.py:374-411 | storing the answer over the pre-refresh pair appends exactly the one missing pair |
| OauthRotation.SupersededByOwnPair | app/core/amocrm_crm_rest_http.py:414-418 | if the row has left the pre-refresh pair, the call's own pair was already stored |
| OauthRotation.OutcomeAfter200 | app/core/amocrm_crm_rest_http.py:359-462 | each call posts at most once; after a readable 200, SUCCESS and ROTATE_SUPERSEDED both mean its pair was stored, and the only other end is ROTATE_PERSIST_FAILED |
| OauthRotation.WedgedForever | app/core/amocrm_crm_rest_http.py:6-13 | the residual window: once every holder of the missing pair is over, no run stores or refreshes anything again |
| OauthRotation.HealsIffNotWedged | app/core/amocrm_crm_rest_http.py:6-13 | with the row one pair behind, some run puts it back in step without an operator iff a holder of the missing pair is still alive |
| OauthRotation.LostAcknowledgementReportsSuperseded | app/core/amocrm_crm_rest_http.py:385-418 | a run that refreshes and stores and still ends ROTATE_SUPERSEDED: commit acknowledgement lost, stale rotate, recovery |
| OauthRotation.UndisturbedRefreshStores | app/core/amocrm_crm_rest_http.py:214-372 | from any reachable state in step with the remote, on a free lease and with nothing newer found by the freshness checks, an undisturbed call ends in SUCCESS with the new pair and its own expiry stored and the lease cleared |
| OauthRotation.NextKeepsExpiry | app/core/amocrm_crm_rest_http.py:386-408 | every step keeps it that once the pair of a call is on the row, by rotation or recovery, the row has the expiry that call was answered |
| OauthRotation.StoredExpiryIsTheAnswered | app/core/amocrm_crm_rest_http.py:386-408 | the same over every interleaving of any number of calls |
| OauthRotation.RequestsIffNothingNewer | app/core/amocrm_crm_rest_http.py:242-303 | on a free row a call goes on to its request iff the row holds neither a later expiry nor another access token than asked about; otherwise it succeeds and frees the row |
| OauthRotation.RefreshedOnceIsEnough | app/core/amocrm_crm_rest_http.py:242-303 | after an undisturbed refresh a caller whose cutoff is before the new expiry succeeds without a request |
| OauthRotation.FailedExchangeEnds | app/core/amocrm_crm_rest_http.py:333-372 | an exchange without a new pair ends by the wire alone in its outcome and code, with the lease released and the stored pair untouched |
| OauthRotation.BrokenAttemptIsRepeated | app/core/amocrm_crm_rest_http.py:385-462 | after a 200 an attempt is repeated, recovered, superseded or given up exactly in its case; the third broken one ends the call |
| OauthRotation.ClaimRefusals | app/core/amocrm_crm_rest_http.py:242-303 | a live lease is a transient end, a missing row a permanent one, and a refusal writes nothing |
| OauthClient.RunAppend | app/core/amocrm_crm_rest_http.py:214-462 | runs compose: a trace split anywhere reaches the same state |
| OauthClient.OthersLeaveCall | app/core/amocrm_crm_rest_http.py:214-462 | steps of other workers never move this call |
| OauthClient.RefreshClient.RefreshTokens | app/core/amocrm_crm_rest_http.py:214-372 | the whole call, interrupted anywhere, is a run of the shared protocol that ends as reported and sends at most one request |
| OauthClient.RefreshClient.Open | app/core/amocrm_crm_rest_http.py:242-303 | up to the end of its first transaction a call is a run that sends nothing |
| OauthClient.RefreshClient.Exchange | app/core/amocrm_crm_rest_http.py:330-372 | others may run before the POST; afterwards exactly one request was sent |
| OauthClient.RefreshClient.GiveUp | app/core/amocrm_crm_rest_http.py:333-357 | a failed exchange releases the lease and reports its own outcome |
| OauthClient.RefreshClient.ClaimOnce | app/core/amocrm_crm_rest_http.py:242-303 | the first transaction is exactly the protocol's claim step, with its freshness checks and rollback |
| OauthClient.RefreshClient.Send | app/core/amocrm_crm_rest_http.py:330-332 | the remote rotates iff the refresh token is current, whatever becomes of the answer |
| OauthClient.RefreshClient.PostOnce | app/core/amocrm_crm_rest_http.py:330-372 | the one request is exactly the protocol's post step and ends in release or in persisting |
| OauthClient.RefreshClient.PersistAfter200 | app/core/amocrm_crm_rest_http.py:374-462 | the bounded loop is a run of at most three persist attempts of this call and never posts |
| OauthClient.RefreshClient.RotateOnce | app/core/amocrm_crm_rest_http.py:386-398 | one transaction is exactly the protocol's persist step, which stores the answered pair with its expiry; only a stale lease leads to recovery |
| OauthClient.RefreshClient.RecoverOnce | app/core/amocrm_crm_rest_http.py:399-408 | one transaction is exactly the protocol's recover step |
| OauthClient.RefreshClient.TryPersist | app/core/amocrm_crm_rest_http.py:385-411 | one attempt is a persist step, followed by a recover step iff the lease was stale |
| CrmClient.ExtractLeadFieldEnumIds | app/core/amocrm_crm_writes_http.py:1227-1248 | the nested loops collect exactly the positive enums of the field's rows, malformed ones skipped |
| CrmClient.CrmWritesClient.Request | app/core/amocrm_crm_writes_http.py:1153-1181 | one request changes the lead iff it is applied, is logged, and is classified by its status |
| CrmClient.CrmWritesClient.EnsureLeadNote | app/core/amocrm_crm_writes_http.py:404-454 | the method's whole effect on lead, transport and log equals the specified read-write-reread |
| CrmClient.CrmWritesClient.AddLeadNote | app/core/amocrm_crm_writes_http.py:510-574 | its own argument checks, one POST, and the created id is accepted whatever the postcheck answers |
| CrmClient.CrmWritesClient.EnsureLeadTask | app/core/amocrm_crm_writes_http.py:576-685 | the same for tasks, with the postcheck on id and text; a lead id of digits that are no integer raises before the POST |
| CrmClient.CrmWritesClient.ReadLeadAnalyticsEnum | app/core/amocrm_crm_writes_http.py:1035-1064 | reads the field's enum as one, none or ambiguous, and changes nothing |
| CrmClient.CrmWritesClient.EnsureLeadAnalyticsEnumIfEmpty | app/core/amocrm_crm_writes_http.py:743-980 | the method's whole effect equals the specified guarded write, the disabled configuration, error codes and the ValueError for a lead id of digits that are no integer included |
| CrmClient.CrmWritesClient.VerifyFailedPatch | app/core/amocrm_crm_writes_http.py:851-925 | an uncertain PATCH is read before it is classified and never repeated; `CrmReceipts.PatchReceipt` gives its answer in every case |
| CrmClient.CrmWritesClient.Postcheck | app/core/amocrm_crm_writes_http.py:927-980 | a PATCH answered 2xx is classified by reading the field again |
| CrmRemote.PatchedEnums | app/core/amocrm_crm_writes_http.py:827-850 | a PATCH sets its own field and leaves every other field's enums alone |
| CrmRuns.NoteEffect | app/core/amocrm_crm_writes_http.py:423-454 | a note is written iff the list answered, showed no match and the POST was applied; it is the text under the next id at the place the remote chose, and nothing else ever changes |
| CrmRuns.TaskEffect | app/core/amocrm_crm_writes_http.py:597-660 | the same exact condition and row for tasks |
| CrmRuns.EnumEffect | app/core/amocrm_crm_writes_http.py:756-850 | a field is patched iff target and lead are allowed, the client is enabled, the read answered, showed no enum and the PATCH was applied |
| CrmRuns.NoDuplicateRows | app/core/amocrm_crm_writes_http.py:423-685 | over any mix of calls and faults with faithful reads, rows of one fingerprint never exceed one or what there was, while the list fits its page |
| CrmRuns.ExistingRowsAreReused | app/core/amocrm_crm_writes_http.py:432-451 | one match is reused and several fail the call; neither writes |
| CrmRuns.NeverDuplicatesIffPageSuffices | app/core/amocrm_crm_writes_http.py:1132-1151 | duplicates are impossible over all runs iff the page already shows a match or the list has room for the new row |
| CrmRuns.TwoFlawlessCallsDuplicate | app/core/amocrm_crm_writes_http.py:1132-1151 | past the page, two undisturbed calls add two rows |
| CrmRuns.DuplicateIffUnreadableList | app/core/amocrm_crm_writes_http.py:1184-1189 | with a match on the page a second row appears iff the list body does not parse and the POST is applied |
| CrmRuns.FieldOnlyFilled | app/core/amocrm_crm_writes_http.py:788-980 | over any run a field keeps its enums or goes from empty to one allowed enum that a call named |
| CrmRuns.FieldChangesAtMostOnce | app/core/amocrm_crm_writes_http.py:788-980 | after a change no continuation changes the field again |
| CrmRuns.DecisionIsTrue | app/core/amocrm_crm_writes_http.py:788-980 | each decision is true of the remote field before and after the call |
| CrmRuns.FaultFreeCallSettles | app/core/amocrm_crm_writes_http.py:788-980 | after any faulty run one undisturbed call settles the field and reports the final decision |
| CrmRuns.OverwriteIffUnreadableRead | app/core/amocrm_crm_writes_http.py:1035-1064 | a nonempty field is overwritten iff its first read is an unparseable 2xx and the PATCH is applied |
| CrmReceipts.DecisionExactly | app/core/amocrm_crm_writes_http.py:788-980 | for any field and any faults each of the five decisions iff a condition on the fates of the three requests, by status, and on what the two reads show; outcomes accordingly |
| CrmReceipts.AppliedIffTheFieldTookIt | app/core/amocrm_crm_writes_http.py:851-939 | under faithful reads APPLIED iff the first read is answered and shows no enum, the PATCH took effect with a reply other than 401, and the last read is answered; the field then holds the target |
| CrmReceipts.PatchReceipt | app/core/amocrm_crm_writes_http.py:827-980 | decision, code, outcome and calls from the PATCH on, in every case of its fate and of the read after it |
| CrmReceipts.CallsExactly | app/core/amocrm_crm_writes_http.py:788-938 | the requests made, in order: at most one PATCH, and after it one verify or one postcheck read |
| CrmReceipts.CodeExactly | app/core/amocrm_crm_writes_http.py:788-1033 | which code a receipt carries, by the request that failed and its status |
| CrmReceipts.RefusedBeforeAnyRequest | app/core/amocrm_crm_writes_http.py:759-787 | no request is made iff field, target, lead id or configuration is refused, and then with its own code and no decision |
| CrmReceipts.NoteExactly | app/core/amocrm_crm_writes_http.py:404-574 | outcome, id, code and requests of a note call by the fates of its requests and the matching rows shown |
| CrmReceipts.TaskExactly | app/core/amocrm_crm_writes_http.py:576-685 | the same for tasks; after a POST, VERIFIED iff the reread shows exactly one row with the new id and the text |
| CrmReceipts.RowCallsRefused | app/core/amocrm_crm_writes_http.py:413-422 | refused arguments make no request and change nothing |
| CrmReceipts.MatchingExactly | app/core/amocrm_crm_writes_http.py:432-436 | the lookup finds nothing, or its one row, exactly when the list holds that |
| CrmReceipts.VerifiedNoteExists | app/core/amocrm_crm_writes_http.py:444-574 | VERIFIED names a row of the remote list with that text, whatever the faults were |
| CrmReceipts.VerifiedTaskExists | app/core/amocrm_crm_writes_http.py:620-685 | the same for tasks, with type and responsible user |
| ChatHistory.FirstUsableIsFirst | app/core/amocrm_chat_egress_http.py:583-597 | the id found is that of the first usable match, and none precedes it |
| ChatHistory.ParseHistoryPage | app/core/amocrm_chat_egress_http.py:569-602 | the loop over messages finds the first usable match and counts every element |
| ChatHistory.HistoryPage | app/core/amocrm_chat_egress_http.py:443-497 | how transport failures, statuses and bodies become a page; `ChatHistory.PageByFields` says the same by the fields of the response |
| ChatHistory.PageByFields | app/core/amocrm_chat_egress_http.py:443-497 | a response is a full page without match, a short one, a match, or a failure with its code, each iff its status and messages say so |
| ChatHistory.ScanMsgidInHistory | app/core/amocrm_chat_egress_http.py:395-441 | the loop asks consecutive offsets and stops as specified; a limit outside 1 to 50 is an error |
| ChatHistory.FindOnFixedLog | app/core/amocrm_chat_egress_http.py:358-393 | the older interface on a fixed log: found iff the scan reaches a usable match, absence proven iff there is none and the log fits |
| ChatHistory.FindOnGrowingLog | app/core/amocrm_chat_egress_http.py:358-393 | on a growing log a proven absence is true of the log at the first request |
| ChatHistory.AbsentIffShortPageReached | app/core/amocrm_chat_egress_http.py:411-436 | for any server, by response fields: ABSENT iff one of the first 20 responses is a 204 or a 2xx list shorter than the limit without usable item, and all before it are 2xx lists of at least `limit` items, none usable |
| ChatHistory.FoundIffMatchReached | app/core/amocrm_chat_egress_http.py:429-433 | for any server: FOUND iff a 2xx list with a usable item, the first with that id, follows only such full pages |
| ChatHistory.UncertainIffFailureReached | app/core/amocrm_chat_egress_http.py:411-441 | for any server: UNCERTAIN with a code iff the first response that is no such full page is missing, not 2xx or unreadable, with that failure's code, or all 20 were full; so a failed page never leads to ABSENT |
| ChatHistory.FixedLogScan | app/core/amocrm_chat_egress_http.py:411-441 | on a fixed log: FOUND iff a usable match lies in the first 20 * limit entries, ABSENT iff none exists and the log is shorter, else UNCERTAIN |
| ChatHistory.AbsentOnGrowingLog | app/core/amocrm_chat_egress_http.py:411-436 | if the log only grows at its front, ABSENT means no entry at the first request matched: offset paging leaves no gap |
| ChatLogChanges.SkipsIffShrinksUnread | app/core/amocrm_chat_egress_http.py:411-436 | between two requests an unread entry is skipped iff the log shrinks while unread entries remain |
| ChatLogChanges.AbsentWithoutSuchTransition | app/core/amocrm_chat_egress_http.py:411-436 | without such a transition ABSENT is right about the first log, however else it changes at its front |
| ChatLogChanges.CanHideIffUnread | app/core/amocrm_chat_egress_http.py:411-436 | for every log that changes at its front: ABSENT can hide a match iff some entry is on no page while it stands, decided by the sizes alone |
| ChatLogChanges.CanHideIffShrinksUnread | app/core/amocrm_chat_egress_http.py:411-436 | while at most a page arrives between two requests, ABSENT can hide a match iff some reached transition shrinks the log while unread entries remain |
| ChatLogChanges.RegrowthShowsSkippedEntries | app/core/amocrm_chat_egress_http.py:411-436 | the bound on arrivals is needed: a larger growth can bring the offset back before everything it skipped |
| ChatLogChanges.ShrinkingLogHidesAMatch | app/core/amocrm_chat_egress_http.py:411-436 | the smallest log on which ABSENT hides a match |
| ChatHistory.AbsentDespiteEntry | app/core/amocrm_chat_egress_http.py:583-597 | ABSENT with a naming entry iff the log fits and each such entry lacks a usable id |
| HandoffMigration.Database.RankMessages | alembic/versions/20260729_11_handoff_schema.py:149-169 | afterwards the sequence numbers of every conversation are a bijection onto 1..n in window order, and nothing else changed |
| HandoffMigration.Database.SetCurrentEventSeq | alembic/versions/20260729_11_handoff_schema.py:170-183 | on ranked messages every counter becomes the number of messages, 0 where there are none |
| HandoffMigration.Database.NormalizeConversations | alembic/versions/20260729_11_handoff_schema.py:188-238 | every row becomes handoff-consistent with no manager sequence mark, pause or active plan, keeps its timestamps, and stays human-owned iff it was an explicit manager handoff |
| HandoffMigration.Database.FencePlans | alembic/versions/20260729_11_handoff_schema.py:242-268 | afterwards no plan is open or leased, history is kept, and each fence is its conversation's |
| HandoffMigration.Database.StampOutbox | alembic/versions/20260729_11_handoff_schema.py:273-284 | afterwards each outbox fence is its conversation's |
| HandoffMigration.Database.FenceOutbox | alembic/versions/20260729_11_handoff_schema.py:287-318 | synthetic rows meet every new check, are unleased and terminal; drafts keep status and lease |
| HandoffMigration.Database.Upgrade | alembic/versions/20260729_11_handoff_schema.py:59-440 | commits iff the legacy drafts met the lease checks, and then every promise and every new constraint holds; otherwise nothing changes |
| HandoffMigration.RowNumberGrows | alembic/versions/20260729_11_handoff_schema.py:153-161 | row numbers follow (received_at, created_at, id) strictly |
| HandoffMigration.RowNumbersOnto | alembic/versions/20260729_11_handoff_schema.py:153-161 | the row numbers of a conversation fill 1..n |
| HandoffMigration.RankingOrdersEvents | alembic/versions/20260729_11_handoff_schema.py:149-183 | sequence numbers are an order-preserving bijection onto 1..n and the counter is n, 0 without messages |
| HandoffMigration.RankedIsOrdered | alembic/versions/20260729_11_handoff_schema.py:149-169 | the ranking statement alone, on any table |
| HandoffMigration.CounterIsCount | alembic/versions/20260729_11_handoff_schema.py:170-183 | the counting statement alone, on any ranked table |
| HandoffMigration.RankedSeqsUnique | alembic/versions/20260729_11_handoff_schema.py:365-369 | the unique constraint on (conversation, sequence) holds |
| HandoffMigration.ConversationMigrates | alembic/versions/20260729_11_handoff_schema.py:30-56 | every legacy combination becomes handoff-consistent, human-owned iff it was an explicit manager handoff, with the infinite deadline and without a manager sequence mark; columns not written are kept |
| HandoffMigration.PlanMigrates | alembic/versions/20260729_11_handoff_schema.py:242-268 | no plan stays open or leased, history is kept, and each fence equals its migrated conversation's |
| HandoffMigration.OutboundMigrates | alembic/versions/20260729_11_handoff_schema.py:273-318 | each fence equals its migrated conversation's; synthetic rows meet every new check; a draft meets them iff it did before; columns not written are kept |
| HandoffMigration.UpgradeMigrates | alembic/versions/20260729_11_handoff_schema.py:188-318 | the composed statements establish all of this for any legacy tables |
| HandoffMigration.UpgradeMeetsConstraints | alembic/versions/20260729_11_handoff_schema.py:334-439 | after the statements the constraints fail only on a legacy draft that already broke a lease check |
| Crc.CrcIncremental | app/core/attachment_mime.py:160-161 | the checksum over type then data equals that of their concatenation |
| Crc.CrcIsRemainder | app/core/attachment_mime.py:160-161 | the checksum is the standard's: append 32 zeros, complement the first 32 coefficients, divide by the CRC-32 polynomial, complement the remainder |
| Crc.ShiftDivides | app/core/attachment_mime.py:160-161 | one shift of the register is one step of the long division |
| Bytes.BigEndian | app/core/attachment_mime.py:102 | 16-bit and 32-bit fields have their highest byte first |
| Jpeg.SkipFill | app/core/attachment_mime.py:88-91 | the fill loop stops at the first byte that is not 0xFF |
| Jpeg.NextTurn | app/core/attachment_mime.py:84-132 | one turn finds exactly the next head of the data, with every bounds check |
| Jpeg.IsSof | app/core/attachment_mime.py:24-40 | the table holds C0 to CF but for DHT, JPG and DAC |
| Jpeg.IsStandalone | app/core/attachment_mime.py:43-57 | the table holds RST0 to RST7, SOI, EOI and TEM |
| Jpeg.IsValidScan | app/core/attachment_mime.py:106-124 | the entropy loop accepts stuffed bytes and restart markers up to a final EOI |
| Jpeg.IsValidJpeg | app/core/attachment_mime.py:79-139 | the cursor loops terminate and compute the recogniser |
| Jpeg.AcceptsIffGrammar | app/core/attachment_mime.py:79-139 | a string is accepted iff it serialises a well-formed image: segments, a frame header before the end or scan, stuffed entropy data, EOI |
| Jpeg.ImageUnique | app/core/attachment_mime.py:79-139 | a byte string serialises at most one well-formed image |
| Jpeg.EndsWithEoi | app/core/attachment_mime.py:94-121 | the last two bytes of an accepted string are EOI |
| Jpeg.PrefixFree | app/core/attachment_mime.py:94-121 | nothing can follow an accepted image |
| Png.CheckChunk | app/core/attachment_mime.py:150-163 | one chunk is read iff length, bounds and checksum agree |
| Png.HeaderAgrees | app/core/attachment_mime.py:165-171 | reading width and height as nonzero numbers is neither field being all zero bytes |
| Png.NamesSpelled | app/core/attachment_mime.py:142-181 | signature and chunk types spell their names |
| Png.IsValidPng | app/core/attachment_mime.py:142-189 | the offset loop computes the recogniser |
| Png.AcceptsIffChunkList | app/core/attachment_mime.py:142-189 | a string is accepted iff it serialises a well-formed chunk list: IHDR first, nonempty IDAT, IEND last |
| Png.ChunkListUnique | app/core/attachment_mime.py:142-189 | the chunk list of a file is unique |
| Png.PrefixFree | app/core/attachment_mime.py:180-185 | nothing can follow an accepted file |
| AttachmentMime.DetectAttachmentMime | app/core/attachment_mime.py:60-76 | size limits, then the recogniser the magic bytes select |
| AttachmentMime.DetectedIffGrammar | app/core/attachment_mime.py:60-76 | for any data: empty and oversized are refused with their own codes, and each type is detected iff the whole data fits and is a member of its grammar |
| AttachmentMime.PrefixFree | app/core/attachment_mime.py:60-76 | the accepted set is prefix-free across both types |
| SpoolFiles.Spool.Replace | app/core/attachment_fs.py:287 | the rename is atomic, and a power loss may undo it until the directory is synced |
| SpoolFiles.Spool.EnsureShardDirectory | app/core/attachment_fs.py:173-208 | root and shard are made if they are not there, and a directory made here is settled by nothing |
| SpoolFiles.Spool.FsyncDirectory | app/core/attachment_fs.py:581-598 | settles the final path in its shard, not the shard in its parent, and swallows its own OSError |
| SpoolFiles.Spool.UnlinkBestEffort | app/core/attachment_fs.py:569-578 | only an interrupt gets out; undisturbed, the path is gone |
| SpoolFiles.Spool.ReadUpTo | app/core/attachment_fs.py:348-355 | under any short reads what was read is a prefix, and everything unless a read failed or ended early |
| SpoolFiles.Spool.Inspect | app/core/attachment_fs.py:302-373 | a failed lstat, open or read answers IO_UNAVAILABLE, an interrupt or a stop itself, and nothing else does; MISSING means absent, MISMATCH a wrong size or a prefix with another digest, VALID the size and a digest match |
| SpoolFiles.Spool.FillTemp | app/core/attachment_fs.py:236-248 | the exclusive temp file holds exactly the synced ciphertext after the loop over partial writes |
| SpoolFiles.Spool.Publish | app/core/attachment_fs.py:274-288 | the final path appears only by renaming the synced, verified temp file |
| SpoolFiles.Spool.AbandonTemp | app/core/attachment_fs.py:249-272 | failures before the rename never touch the final path |
| SpoolFiles.Spool.AbandonPublished | app/core/attachment_fs.py:289-299 | failures after it take the file back, interrupts leave it whole |
| SpoolFiles.Spool.StoreNew | app/core/attachment_fs.py:236-299 | the two try blocks with their handlers: from an absent final path to absent or exactly the ciphertext, one failure cleaned up |
| SpoolFiles.Spool.WriteCiphertextAtomic | app/core/attachment_fs.py:211-299 | under any failures, stop or power loss the final path is absent, untouched, or exactly the ciphertext; a normal return means stored, and settled iff the directory fsync took effect and both directories were settled before; one failure is cleaned up; a stale temp file is removed for the next call; it ends stopped or interrupted iff some call was, and with an OSError iff the look for an existing file failed |
| SpoolFiles.FirstObjectOfShardMayVanish | app/core/attachment_fs.py:189-299 | a run in which every call succeeds and the write returns normally, and a power loss may still leave nothing |
| SpoolFiles.Spool.RetryAcrossPowerLosses | app/core/attachment_fs.py:211-299 | any number of writes separated by power losses never leaves a partial file, and never loses or changes a settled one |
| SpoolFiles.Spool.ReadCiphertextVerified | app/core/attachment_fs.py:427-495 | whatever the reads do, bytes returned are the whole file with size and digest as expected; it is returned under any short reads; an interrupt or a stop is passed on, every other failure is the fixed error |
| SpoolFiles.Spool.WriteThenRead | app/core/attachment_fs.py:211-495 | a stored ciphertext is read back unchanged |
| SpoolFiles.Spool.SafeUnlink | app/core/attachment_fs.py:498-538 | success is claimed only when the path is gone and iff no call failed; a failed call is answered as such |
| SpoolNames.ParsesExactlyPrintedNames | app/core/attachment_fs.py:601-618 | a file name is parsed iff it is the printed one of that id and suffix |
| SpoolNames.HexAt | app/core/attachment_fs.py:120-130 | every byte is two lower-case hexadecimal digits, the high one first |
| SpoolNames.NamesExactly | app/core/attachment_fs.py:120-130 | ids are printed in groups of 4, 2, 2, 2 and 6 bytes, under a shard of the first byte |
| SpoolNames.RelPathsDistinct | app/core/attachment_fs.py:120-130 | no two objects, and no temp and final file, share a path |
| Calendar.NextDayIsNext | app/core/booking_availability_remote.py:68-88 | the day formula advances by one across months, years and leap days |
| Calendar.MonthLengths | app/core/booking_availability_remote.py:68-88 | month lengths by a formula: alternating 31 and 30, again from August, with February by the leap rule |
| Calendar.DateOfOrdinal | app/core/booking_availability_remote.py:68-88 | day numbers and real dates are inverse |
| Calendar.OrdinalOrder | app/core/booking_availability_remote.py:68-88 | calendar order is day-number order |
| StudioTime.ParsesExactlyDateTexts | app/core/booking_availability_remote.py:68-88 | a text is a calendar date iff it is that date's one canonical text |
| StudioTime.ParsesExactlyStartsAtTexts | app/core/booking_availability_remote.py:91-118 | a text is a slot timestamp iff it is the one canonical text of a studio minute |
| StudioTime.Format | app/core/booking_availability_remote.py:121-140 | formatting succeeds exactly for whole minutes in range |
| StudioTime.ParseOfFormat | app/core/booking_availability_remote.py:121-140 | parsing a formatted instant gives the same instant |
| StudioTime.FormatOfParse | app/core/booking_availability_remote.py:91-140 | formatting a parsed text gives it back iff its UTC instant is not before year 1 |
| StudioTime.ZoneShowsOffset | app/core/booking_availability_remote.py:91-118 | the offset subtracted is the one the text shows |
| StudioTime.FirstHoursOverflow | app/core/booking_availability_remote.py:121-140 | the concrete accepted text that cannot be formatted back |
| StudioTime.DateTextOrder | app/core/booking_availability_http.py:328-342 | text order of canonical dates is chronological |
| StudioTime.StartsAtTextOrder | app/core/booking_availability_remote.py:91-118 | text order of canonical timestamps is chronological |
| Availability.ParseKeys | app/core/booking_availability_http.py:322-342 | the loop with its text comparison accepts exactly chronological, distinct days of the month |
| Availability.ParseDays | app/core/booking_availability_http.py:287-350 | an answer is accepted iff it is well formed for the request, and then unchanged |
| Availability.AtMostAMonthOfKeys | app/core/booking_availability_http.py:319-320 | the 31-key limit rejects nothing the order check would accept |
| Availability.ParsedSlotTime | app/core/booking_availability_http.py:227-284 | a parsed slot is the one minute of the expected day whose canonical text was sent |
| Availability.ParsesExactlySlots | app/core/booking_availability_http.py:244-284 | a slot is parsed iff keys, id, service, master and start are all as asked for, and then with exactly what was sent |
| Availability.ParsesExactlyMonths | app/core/booking_availability_http.py:194-201 | a month is accepted iff it is the canonical text of one in the years 1 to 9999 |
| Availability.BackendUuidExactly | app/core/booking_eligibility_http.py:146-170 | an id is accepted iff it is a printed UUID in any letter case, and read as the lower-case form |
| Availability.ParseSlotList | app/core/booking_availability_http.py:388-410 | the loop accepts exactly lists of parsable slots with distinct ids and increasing starts |
| Availability.ParseSlots | app/core/booking_availability_http.py:353-418 | an answer is accepted iff it is well formed for the request |
| DialogPolicy.CollectValidSlots | app/core/booking_dialog_policy.py:173-185 | the loop keeps the slots of the input in order |
| DialogPolicy.PresentCounts | app/core/booking_dialog_policy.py:173-185 | nothing is invented or dropped: each slot as often as in the input |
| DialogPolicy.SortedIsSorted | app/core/booking_dialog_policy.py:217-219 | the sort is an ordered permutation under (starts_at, slot_id) |
| DialogPolicy.OrderedByStartThenId | app/core/booking_dialog_policy.py:217-219 | the order is by start, and by slot id among equal starts |
| DialogPolicy.SelectsThreeNearest | app/core/booking_dialog_policy.py:217-219 | the offer is the three smallest: a sub-multiset, ordered, nothing left out nearer |
| DialogPolicy.OfferIndependentOfOrder | app/core/booking_dialog_policy.py:217-219 | with distinct keys the offer does not depend on the input order |
| DialogPolicy.OffersIffEligible | app/core/booking_dialog_policy.py:222-327 | slots are offered iff some slot is eligible by outcome, master, consent and alternatives; no eligible slot left out is nearer, and fewer than three means none is left out |
| DialogPolicy.RefusalReasons | app/core/booking_dialog_policy.py:253-321 | when nothing is offered, eligibility's own code is passed on or its default given, and each built-in code is given exactly in its case, with the managers' working time |
| DialogPolicy.WorkingHours | app/core/manager_working_hours.py:49-61 | in any time zone, an instant is working time iff its local hour is 9 to 17 |
| DialogPolicy.AcceptedSlotsOfferedInOrder | app/core/booking_dialog_policy.py:284-300 | an accepted answer for the selected master is offered from the front: its first three slots |
| TokenCodec.DecodeOfEncode | app/core/attachment_types.py:289-306 | decoding a printed value gives it back, for any bytes |
| TokenCodec.AlphabetTable | app/core/attachment_types.py:289-292 | the data characters are the URL-safe alphabet in its order |
| TokenCodec.SameValue | app/core/attachment_types.py:289-292 | the data characters are the base-64 digits of the big-endian number the bytes are, filled up with zero bits at the end |
| TokenCodec.ParsesExactlyPrinted | app/core/attachment_types.py:295-306 | each acceptor accepts a text as a value iff it is the value's printed form |
| TokenCodec.AcceptorsAgree | app/core/attachment_keys.py:73-92 | the exact and the looser acceptor accept the same language with the same values |
| TokenCodec.AcceptedTokens | app/core/attachment_types.py:58-59 | the accepted language: 43 data characters, the last without stray bits, and one `=` |
| TokenCodec.DecoderIsNotInjective | app/core/attachment_types.py:298-305 | without the re-encoding check other texts would decode to the same bytes |
| Utf8.EncodeInjective | app/core/amocrm_crm_oauth_types.py:94-98 | the UTF-8 encoding of a text loses nothing |
| Utf8.CharFront | app/core/amocrm_crm_oauth_types.py:94-98 | a character is read back from its bytes: shortest form, announced by the first byte, continuation bytes 80 to BF |
| Aad.OauthAadInjective | app/core/amocrm_crm_oauth_types.py:81-98 | equal bytes mean equal fields, although a scope may contain the separator |
| Aad.OauthTextExactly | app/core/amocrm_crm_oauth_types.py:94-98 | version, key id, scope and kind in this order between bars |
| Aad.UncheckedKeyIdCollides | app/core/amocrm_crm_oauth_types.py:60-69 | without the key id check two contexts would share one text |
| Aad.JoinedInjective | app/core/attachment_types.py:208-221 | joining lines without newlines loses nothing |
| Aad.AttachmentAadInjective | app/core/attachment_types.py:189-221 | equal bytes mean equal fields |
| Aad.AttachmentTextExactly | app/core/attachment_types.py:208-221 | the ten labelled lines in their order, joined by single newlines |
| VkIds.EventIdInjective | app/channels/vk_client_types.py:64-82 | a message id names one group, user and message |
| VkIds.ReplyEventIdInjective | app/channels/vk_client_types.py:85-103 | a reply id names one group, user and message |
| VkIds.EventAndReplyIdsDiffer | alembic/versions/20260727_01b_ingress.py:93-97 | messages and replies never share an id under the unique ingress key |
| VkIds.IdsExactly | app/channels/vk_client_types.py:51-103 | each of the three ids is given out iff its numbers are positive and its text fits, and then is that text |
| VkIds.PeerOfConversationId | app/channels/vk_client_outbound_config.py:70-92 | peer parsing inverts conversation-id printing |
| VkIds.PeerExactly | app/channels/vk_client_outbound_config.py:70-92 | by the text alone: the peer, a group mismatch, or an invalid text, each iff its condition |
| VkIds.ConversationIdOfPeer | app/channels/vk_client_outbound_config.py:83-92 | printing the parsed peer gives the text back iff both numbers are canonical decimals and the text fits |
| VkIds.LeadingZeroAccepted | app/channels/vk_client_outbound_config.py:31 | two texts that resolve to one peer |
| VkIds.AcceptedIffCanonical | app/channels/vk_client_external_takeover_config.py:95-113 | an item passes the loader's checks iff it is the canonical id of some dialog |
| VkIds.LoadAllowlist | app/channels/vk_client_external_takeover_config.py:87-116 | the loop keeps exactly the named canonical ids, or refuses the whole list |
| Text.StripCutsSpaces | app/channels/vk_client_external_takeover_config.py:92 | stripping yields a slice with no whitespace at its ends, and cuts off nothing but whitespace |
| Text.StripUnique | app/core/amocrm_crm_writes_http.py:127-130 | that slice is the only one |

## Left out

- ChatLogChanges.CanHideIffUnread: the log changes at its front only; removals and edits further back are not modelled.
- CrmRuns.NoDuplicateRows: no other writer of the same lead and no request delivered after its call has given up; with either, reading before writing cannot exclude a second row.
- OauthRotation.NextKeepsInv: refresh tokens and lease UUIDs do not repeat, and the operator's upsert of a new pair is not a step.
- SpoolFiles.Spool.WriteCiphertextAtomic: one writer per object id; a second writer's final file created between the two existence checks would be removed by the failing first writer.
- SpoolFiles.Spool.EnsureShardDirectory: missing parents of the root are made together with it, as one directory; a file system that settles entries on its own is not excluded.
- SpoolFiles.Spool.Inspect: the close of the inspected file is not a step; digests are those of the bytes read, so a premature end of file could only pass as VALID through a digest collision; symlinks, other file types and permissions are not modelled.
- StudioTime.Format: an aware datetime is its UTC instant in microseconds.
- VkIds.ParsePeer: Python's limit on the number of digits of an integer is not modelled.
- VkIds.LoadAllowlist: the OFF and ALL modes and the provenance key.
- TokenCodec.Decode: only the strings the two callers let through to the decoder.
- HandoffMigration.Database.Upgrade: timestamps are integers; the new manager_messages table, indexes and the downgrade.
- Contacts, leads and reanimation in the CRM write client, and read-only lookups.
- The disabled configuration of the OAuth and chat clients.
- The other services of the backend, HTTP and TLS transports, JSON decoding, AES-GCM, HMAC and key material.
- Configuration, redaction of secrets in text forms, and type checks on arguments.
- Mapping of availability error envelopes, and normalisation of raw eligibility outcomes.
