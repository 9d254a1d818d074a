# A verified model of the A3chat application services

This project models the stateful core of `a3chat-app` and proves what its
services promise over every input, every run and every interleaving of storage
calls. `dafny verify dfyconfig.toml` checks all of it.

| file | component |
|---|---|
| `AuditPreimage.dfy`, `AuditLog.dfy`, `AuditColumns.dfy`, `AuditPaging.dfy` | the hash-chained audit log, its verifier, the columns the service writes, cursor pagination |
| `ReaderSet.dfy`, `Metrics.dfy`, `ChannelStorage.dfy` | daily counters, the comma-encoded reader set, the transaction that writes both tables |
| `Timeline.dfy`, `ChannelFeed.dfy`, `Subscribers.dfy` | the merged timeline, sequence allocation, the cached subscriber count |
| `Text.dfy`, `Mentions.dfy` | UTF-8 (sections 3 and 4 of RFC 3629) and the `@`-mention scanner |
| `GroupRoles.dfy`, `GroupHubCalls.dfy` | group roles, ownership and temporary admins; the same operations one hub call at a time |
| `Ephemeral.dfy`, `EphemeralRuns.dfy`, `EphemeralService.dfy` | the disappearing-message worker: atomic passes and single passes, whole runs of passes that take time, the service itself |
| `Drafts.dfy`, `DraftRaces.dfy`, `Devices.dfy`, `MergeForward.dfy` | draft cache, the same with interleaved accesses, device registry, merge-forward body |

How the parts are modelled:

- An SQLite table is a map or a sequence. One transaction, one SQL statement or
  one call under a mutex is one step. A failing storage call has no effect.
- The clock, fresh UUIDs, nonces and the outcome of request validation are
  arguments.
- BLAKE3 is an arbitrary function from byte strings to 64-digit hex strings.
  Collision resistance is assumed only for the finitely many byte strings that
  the writer and the verifier hash (`CollisionFree` over `Hashed`).
- Where several calls may interleave, a state machine takes one storage call per
  step, and the theorems speak about every sequence of steps.

What the proofs bring out about the code:

- `audit_verify` accepts an account exactly when its rows are the first rows of
  the whole log, because the writer chains over all accounts while the verifier
  walks one. At most one account of a log verifies, although its documentation
  promises that an untampered log does.
- An edit that keeps the final hash can go unnoticed if and only if a stored
  column holds the separator byte. Service calls never store one: `validate_id`
  refuses control characters and serde_json escapes them.
- Asking for the next timeline page with the last shown sequence loses items
  that tie with it across accounts.
- Changing the notification mode while the same user unsubscribes brings the row
  back without a recount; the count stays too low until the next recompute.
- A sole owner's transfer to itself leaves the group without owner. A role
  change, removal, leave or transfer whose reading another operation overtook
  can do so too; nothing else can.
- A grant of temporary rank checks the role and the actor's own grant in two
  readings, so a plain member whose grant ends in between can make one.
- A read that pushes its entry between a deletion pass's snapshot and its
  write-back is never carried out, though a later read of the message schedules
  anew. A deletion cancelled in that gap is carried out or comes back. A
  cancellation between a read's timer lookup and its push comes too early.
- The cap of 1024 drafts counts the cache, not the rows, so a restart or a failed
  deletion lets the rows pass it. A deletion that runs between the read and the
  caching of a row leaves a deleted draft in the cache.
- Past 2^32 publications of one account, a new item can evict an old one.
- The merge-forward marker announces "0 more" when the last line is the one that
  does not fit.

## Model

| member | source | states |
|---|---|---|
| AuditPreimage.PreimageInjective | crates/a3chat-app/src/channel_storage.rs:923-943 | a row whose columns are free of byte 0x1F has the same hash input as another, whatever that one holds, if and only if both continue from the same hash and agree in every column, with an absent column read as empty |
| AuditPreimage.PrevRecoverable | crates/a3chat-app/src/channel_storage.rs:927-942 | whatever the columns hold, the hash input determines the previous hash |
| AuditPreimage.TimestampInjective | crates/a3chat-app/src/channel_storage.rs:942-942 | the eight little-endian bytes determine the signed 64-bit timestamp |
| AuditPreimage.LittleEndianRoundTrip | crates/a3chat-app/src/channel_storage.rs:942-942 | reading the little-endian bytes back gives the number |
| AuditPreimage.SeparatorCollides | crates/a3chat-app/src/channel_storage.rs:923-943 | a row with a separator in any column shares its hash input with a different row |
| AuditPreimage.UniqueIffSepFree | crates/a3chat-app/src/channel_storage.rs:923-943 | a row is the only one with its hash input if and only if none of its columns holds the separator |
| AuditPreimage.SeparatorsOfGlue | crates/a3chat-app/src/channel_storage.rs:928-942 | glued columns hold one separator each, and more if and only if some column holds one |
| AuditPreimage.PreimageLayout | crates/a3chat-app/src/channel_storage.rs:927-942 | the hash input, part by part: tag, previous hash, account, kind, actor, subject, payload, each followed by 0x1F, and the timestamp |
| AuditLog.BuildStoresEvents | crates/a3chat-app/src/channel_storage.rs:902-967 | after any sequence of calls the log holds exactly the events, in order, numbered upwards from 1, every link intact |
| AuditLog.RowsOfSelects | crates/a3chat-app/src/channel_storage.rs:1144-1150 | the query of one account returns exactly its rows, each as often as the log holds it, in log order |
| AuditLog.RowsOfMembers | crates/a3chat-app/src/channel_storage.rs:1144-1150 | a row is among them if and only if the log holds it for the account |
| AuditLog.VerifiesIffPrefix | crates/a3chat-app/src/channel_storage.rs:1142-1188 | for every log any calls can build, one account's rows verify if and only if they are the first rows of the whole log |
| AuditLog.VerifiesIffEventsFirst | crates/a3chat-app/src/channel_storage.rs:1142-1188 | in terms of the calls: one account's rows verify if and only if its events, if any, came before everybody else's |
| AuditLog.AcceptedOnlyAsPrefix | crates/a3chat-app/src/channel_storage.rs:1144-1186 | if one account's rows pass the walk from genesis, they are a prefix of the log |
| AuditLog.PrevHashesDistinct | crates/a3chat-app/src/channel_storage.rs:903-943 | no two positions of a chain continue from the same hash |
| AuditLog.SingleAccountVerifies | crates/a3chat-app/src/channel_storage.rs:1139-1188 | a log that served one account only always verifies, for any hash function |
| AuditLog.AtMostOneAccountVerifies | crates/a3chat-app/src/channel_storage.rs:1139-1188 | two accounts with rows in one honest log never both verify |
| AuditLog.SecondAccountRejected | crates/a3chat-app/src/channel_storage.rs:1142-1188 | after any two events of different accounts the first account verifies and the second does not |
| AuditLog.SameTip | crates/a3chat-app/src/channel_storage.rs:1151-1186 | two verified row sequences with the same final hash have the same length and hash the same byte strings |
| AuditLog.SameTipSameRows | crates/a3chat-app/src/channel_storage.rs:1142-1188 | a verified copy of separator-free rows with the same final hash agrees in every hashed column and every hash, whatever bytes the editor wrote |
| AuditLog.TamperEvidentIffSepFree | crates/a3chat-app/src/channel_storage.rs:1142-1188 | every verified copy of a chain with its final hash has the same columns if and only if no column of the chain holds the separator |
| AuditColumns.HashedIdsAreValid | crates/a3chat-core/src/channel.rs:624-656 | generated account and feed ids pass validate_id |
| AuditColumns.KindNamesDistinct | crates/a3chat-core/src/channel.rs:720-733 | event kinds have distinct stored names, free of the separator |
| AuditColumns.SerializePrintable | crates/a3chat-app/src/channel_storage.rs:917-920 | a JSON payload is written without control bytes |
| AuditColumns.EscapeRoundTrip | crates/a3chat-app/src/channel_storage.rs:917-920 | an escaped JSON string reads back as the string |
| AuditColumns.ServiceColumnsSepFree | crates/a3chat-core/src/id.rs:40-63 | ids that pass validate_id, kind names and JSON payloads hold no separator |
| AuditColumns.ServiceLogIsTamperEvident | crates/a3chat-app/src/channel_storage.rs:1142-1188 | any verified copy of a log written by service calls, with its final hash, records the same events |
| AuditPaging.PageIsSlice | crates/a3chat-app/src/channel_storage.rs:1099-1136 | a page is the next slice of the account's rows, says truthfully whether more follow, and hands out the number of its last row as cursor |
| AuditPaging.NewestAreSelected | crates/a3chat-app/src/channel_storage.rs:1101-1122 | the query returns exactly the rows of the account below the cursor |
| AuditPaging.ContinueBelow | crates/a3chat-app/src/channel_storage.rs:1101-1111 | a query below the k-th reported row returns exactly the rows after it |
| AuditPaging.AppendsInvisible | crates/a3chat-app/src/channel_storage.rs:1101-1111 | rows appended later are invisible below an older cursor |
| AuditPaging.WalkVisitsEverything | crates/a3chat-app/src/channel_storage.rs:1089-1137 | following next_cursor reports every row present at the first call exactly once, newest first, and then stops, however the log grows between calls |
| AuditPaging.WalkReportsIff | crates/a3chat-app/src/channel_storage.rs:1089-1137 | following next_cursor reports a row if and only if the log held it at the first call, for the account and below the cursor; newer rows come first and none twice |
| AuditPaging.CallsIsCeiling | crates/a3chat-app/src/channel_storage.rs:1099-1131 | the number of calls is max(1, ceil(n / limit)) |
| AuditPaging.NewestReversesRows | crates/a3chat-app/src/channel_storage.rs:1113-1122 | without a cursor the query is the account's rows read backwards |
| ReaderSet.PiecesOfJoin | crates/a3chat-app/src/channel_storage.rs:858-871 | splitting undoes joining for any non-empty comma-free pieces |
| ReaderSet.PiecesAroundComma | crates/a3chat-app/src/channel_storage.rs:996-1020 | splitting a concatenation gives the pieces of both columns, empty columns included |
| ReaderSet.InsertSorted | crates/a3chat-app/src/channel_storage.rs:858-868 | inserting keeps the set strictly sorted |
| ReaderSet.AddedReader | crates/a3chat-app/src/channel_storage.rs:848-879 | the rewritten column stands for the old set and the new bucket |
| ReaderSet.AddReader | crates/a3chat-app/src/channel_storage.rs:848-879 | the loop that decodes the column, inserts and writes back computes that column |
| ReaderSet.SortedSize | crates/a3chat-app/src/channel_storage.rs:1068-1073 | the number of pieces is the size of the set |
| Metrics.CountersAgreeWithEvents | crates/a3chat-app/src/channel_storage.rs:824-900 | after every run each daily row counts the events: publishes are publish, register and update; unsubscribes are unsubscribe and delete; reads are mark_read; impressions stay zero |
| Metrics.RowsForDaysWithEvents | crates/a3chat-app/src/channel_storage.rs:826-832 | a row exists exactly for the days on which the account had an event |
| Metrics.CountIsNumberOfCalls | crates/a3chat-app/src/channel_storage.rs:811-900 | a count is the number of calls of these kinds for the account on the days of the window |
| Metrics.ReadersAreBuckets | crates/a3chat-app/src/channel_storage.rs:840-882 | the readers of a window are the buckets of its mark_read calls |
| Metrics.HexInjective | crates/a3chat-app/src/channel_storage.rs:846-849 | different reader buckets have different encodings |
| Metrics.ReadersAgreeWithEvents | crates/a3chat-app/src/channel_storage.rs:840-882 | after every run the stored column decodes to exactly the day's reader buckets |
| Metrics.SumCounts | crates/a3chat-app/src/channel_storage.rs:988-1001 | summing a counter over a window counts the events of the window |
| Metrics.ConcatIsUnion | crates/a3chat-app/src/channel_storage.rs:996-1021 | splitting the concatenated columns gives the union of the daily sets |
| Metrics.UniqueReadersBounds | crates/a3chat-app/src/channel_storage.rs:1015-1037 | windowed unique readers lie between the largest day and the number of reads |
| ChannelStorage.ChannelStorage.BumpDaily | crates/a3chat-app/src/channel_storage.rs:824-900 | the first part of record_event updates the day's row and nothing else |
| ChannelStorage.ChannelStorage.AppendAudit | crates/a3chat-app/src/channel_storage.rs:902-964 | the second part appends one row chained to the newest row of the whole log |
| ChannelStorage.ChannelStorage.RecordEvent | crates/a3chat-app/src/channel_storage.rs:811-968 | both tables stay functions of the same history of calls, and the new log row holds the call's own columns |
| ChannelStorage.ChannelStorage.AuditVerify | crates/a3chat-app/src/channel_storage.rs:1142-1188 | accepts exactly the intact chains, on any log, and otherwise names the first broken link; on its own history it accepts exactly when the account's calls, if any, came first |
| ChannelStorage.ChannelStorage.MetricsSummary | crates/a3chat-app/src/channel_storage.rs:973-1039 | every reported total is the count of logged events in the window, unique readers the size of the union, cut to 32 bits; net subscribes is the difference as a signed 32-bit number, impressions are zero |
| ChannelStorage.WindowRowCounts | crates/a3chat-app/src/channel_storage.rs:988-1001 | the six summed columns are counts of the events in the window |
| ChannelStorage.NetSubscribes | crates/a3chat-app/src/channel_storage.rs:1024-1033 | casting both sums to 32 bits before subtracting gives the wrapping difference of the sums |
| ChannelStorage.CountDistinct | crates/a3chat-app/src/channel_storage.rs:1015-1022 | the loop counts the distinct pieces of the concatenated columns |
| Timeline.SortIsStableSort | crates/a3chat-app/src/channel_service.rs:944-950 | the sort is sorted and keeps items with equal keys in order and number |
| Timeline.StableSortUnique | crates/a3chat-app/src/channel_service.rs:944-950 | there is only one stable sort of a list, so any stable sort is this one |
| Timeline.DropRest | crates/a3chat-app/src/channel_service.rs:932-951 | what follows the first k items of one sorted list cannot reach the first k of all |
| Timeline.TopOfTops | crates/a3chat-app/src/channel_service.rs:932-951 | cutting every account's list to limit first does not change the first limit items of the merged sort |
| Timeline.Timeline | crates/a3chat-app/src/channel_service.rs:918-953 | the call returns the first limit items of the full timeline for limits 1 to 100, default 20, and refuses other limits |
| Timeline.FullTimelineContents | crates/a3chat-app/src/channel_storage.rs:616-672 | the full timeline holds exactly the unretracted items of followed accounts below the cursor, each once per row and subscription, by sequence and creation time descending |
| Timeline.CursorFilters | crates/a3chat-app/src/channel_storage.rs:624-650 | a cursor keeps exactly the items of the full timeline below it |
| Timeline.NextPageResumesIffNoTie | crates/a3chat-app/src/channel_service.rs:918-953 | using the last shown sequence as next cursor resumes where the page stopped if and only if the first unshown item has a smaller sequence |
| Timeline.CursorIsNextStart | crates/a3chat-app/src/channel_service.rs:918-953 | asking with the last shown sequence returns the rest of the timeline from the first smaller sequence on |
| Timeline.WalkShowsIff | crates/a3chat-app/src/channel_service.rs:918-953 | a walk through all pages by the last shown sequence shows exactly the items that do not tie with the last item of an earlier page beyond that page |
| Timeline.TieIsLost | crates/a3chat-app/src/channel_service.rs:918-953 | for any two unretracted items of two accounts with the same sequence, the page after the first is empty although both belong to the timeline |
| ChannelFeed.CountersOnlyGrow | crates/a3chat-app/src/channel_storage.rs:151-194 | no storage call, not even a stale account write-back, lowers a sequence counter |
| ChannelFeed.PutAccountOutcome | crates/a3chat-app/src/channel_storage.rs:151-194 | put_account fails exactly when another account has the owner; otherwise it stores owner and profile, keeps sequence and count of an existing row and changes no other row |
| ChannelFeed.RunOwnersUnique | crates/a3chat-app/src/channel_storage.rs:158-164 | over every interleaving no two accounts have one owner |
| ChannelFeed.UpdateTakesEffect | crates/a3chat-app/src/channel_service.rs:370-394 | after any run an uninterrupted update_account stores the new profile and changes nothing else |
| ChannelFeed.BumpOutcome | crates/a3chat-app/src/channel_storage.rs:355-378 | a bump raises one counter by one and leaves every other column and row alone |
| ChannelFeed.PublishPutOutcome | crates/a3chat-app/src/channel_service.rs:736-756 | storing under a held number stores the given body, unretracted, loses exactly the account's items with that number and uses the number up |
| ChannelFeed.ContentsStay | crates/a3chat-app/src/channel_storage.rs:676-700 | no step changes a stored item, except that retracting it sets its flag |
| ChannelFeed.PutEvictsNothing | crates/a3chat-app/src/channel_storage.rs:545-580 | INSERT OR REPLACE under an unused number and a fresh id replaces no row |
| ChannelFeed.KeepsInvIff | crates/a3chat-app/src/channel_service.rs:695-756 | from a state within the 32-bit limit a step keeps numbers ordered and bounded, rows unique and held numbers unused if and only if it stays within the limit |
| ChannelFeed.RunInvIff | crates/a3chat-app/src/channel_service.rs:695-756 | over every interleaving issued numbers are distinct and increasing and feed sequences unique and bounded, if and only if no counter has passed the 32-bit limit |
| ChannelFeed.ItemStaysIff | crates/a3chat-app/src/channel_storage.rs:549-580 | over every interleaving an item stays stored under its number if and only if nobody stores another item of the account under that number |
| ChannelFeed.ItemsSurvive | crates/a3chat-app/src/channel_storage.rs:549-580 | while counters fit in 32 bits, a stored item is never evicted and never renumbered, over every interleaving |
| ChannelFeed.FeedSequences | crates/a3chat-app/src/channel_storage.rs:1301-1302 | after every interleaving, even past the 32-bit limit, an item's sequence is at most its account's counter and belongs to no other item of the account; within the limit it is at least 1 |
| ChannelFeed.NextNumberIncreasesIff | crates/a3chat-app/src/channel_storage.rs:355-378 | over every interleaving a bump hands out a number above all earlier ones of the account if and only if the counter was below the 32-bit maximum |
| ChannelFeed.WrapEvicts | crates/a3chat-app/src/channel_storage.rs:549-580 | there is a run in which a publication past the limit evicts an earlier item |
| ChannelFeed.BumpThenPut | crates/a3chat-app/src/channel_service.rs:716-756 | storing under the number just bumped adds one item, loses none and keeps the tables consistent |
| ChannelFeed.ChannelTables.GetAccountByOwner | crates/a3chat-app/src/channel_storage.rs:222-249 | finds an account of the owner, or there is none |
| ChannelFeed.ChannelTables.BumpAccountSequence | crates/a3chat-app/src/channel_storage.rs:353-378 | fails exactly on an unknown account; otherwise keeps the tables consistent and, below the limit, returns a number above every number stored for the account |
| ChannelFeed.ChannelTables.StoreFeedItem | crates/a3chat-app/src/channel_storage.rs:549-580 | deletes exactly the rows that clash on either unique key and inserts the item |
| ChannelFeed.ChannelTables.PublishFeed | crates/a3chat-app/src/channel_service.rs:695-756 | refuses unknown or foreign owners without effect; otherwise stores one item and loses exactly the items of the account with its number, which are none below the 32-bit limit |
| Subscribers.KeepsAccounted | crates/a3chat-app/src/channel_service.rs:539-546 | every step keeps the difference between rows and count equal to the rows brought back since the last recompute, while nobody owes one |
| Subscribers.RunIsAccounted | crates/a3chat-app/src/channel_service.rs:569-575 | the same over every interleaving |
| Subscribers.QuiescentInSyncIff | crates/a3chat-app/src/channel_storage.rs:380-401 | over every interleaving, while no recompute of the account is owed or lost, the rows exceed the cached count by the write-backs to deleted rows since the last recompute, so the count is right if and only if there was none |
| Subscribers.OwnRowOnly | crates/a3chat-app/src/channel_storage.rs:412-545 | a step inserts or deletes its own row of subscriber and account and no other |
| Subscribers.RowIffFollows | crates/a3chat-app/src/channel_service.rs:539-575 | over every interleaving there is a row if and only if somebody stored it and nobody has deleted it since |
| Subscribers.CountIsFollowers | crates/a3chat-app/src/channel_storage.rs:380-401 | at every quiescent point the cached count is the number of followers so defined less the rows that came back without a recount |
| Subscribers.PendingHasCause | crates/a3chat-app/src/channel_service.rs:539-663 | who owes a recompute has changed a row of the account, and who will write a row back has read it while it was there |
| Subscribers.RowsAfter | crates/a3chat-app/src/channel_service.rs:631-663 | while no recompute is owed, a step changes the rows of an account only as a write-back to a deleted row, by one |
| Subscribers.NotifyRaceLeavesWrongCount | crates/a3chat-app/src/channel_service.rs:631-663 | for any user and account there is a run after which nobody is at work, one row exists and the count is zero |
| Text.SplitAtBoundary | crates/a3chat-app/src/forward_service.rs:372-378 | cutting well-formed UTF-8 at a character boundary leaves two well-formed halves |
| Text.SliceAtBoundaries | crates/a3chat-app/src/group_mention.rs:75-78 | a slice between two character boundaries is well-formed |
| Text.BoundaryNearby | crates/a3chat-app/src/forward_service.rs:373-376 | a character boundary is never more than three bytes back |
| Text.LowerByteIff | crates/a3chat-app/src/group_mention.rs:103-108 | two bytes agree up to case if and only if they are equal or the two cases of one letter |
| Mentions.TokenIsUtf8 | crates/a3chat-app/src/group_mention.rs:75-78 | every token of a well-formed body, with its @, decodes |
| Mentions.ReadToken | crates/a3chat-app/src/group_mention.rs:68-78 | the inner loop stops at the end of the maximal token and decoding succeeds |
| Mentions.Parse | crates/a3chat-app/src/group_mention.rs:53-89 | the single pass returns what trying every position would |
| Mentions.SkipToken | crates/a3chat-app/src/group_mention.rs:69-74 | jumping over a token skips no mention |
| Mentions.ExactlyTheMentions | crates/a3chat-app/src/group_mention.rs:43-89 | the list holds exactly the positions with an @ not preceded by an identifier byte whose maximal token resolves, with that user and length |
| Mentions.OrderedAndDisjoint | crates/a3chat-app/src/group_mention.rs:53-89 | mentions come in increasing order and never overlap |
| Mentions.ResolveMeaning | crates/a3chat-app/src/group_mention.rs:91-110 | a token names a user exactly when it is a 64-digit hex id, lower-cased, or else the first nickname equal up to case |
| Mentions.CaseInsensitive | crates/a3chat-app/src/group_mention.rs:97-118 | lower-casing the body changes no match below any position |
| Mentions.LoweredBodySameMentions | crates/a3chat-app/src/group_mention.rs:53-118 | the lower-cased body is well-formed and yields identical matches |
| GroupRoles.RefusedChangesNothing | crates/a3chat-app/src/group_service.rs:605-725 | a refused operation leaves every membership as it was |
| GroupRoles.JoinOutcome | crates/a3chat-app/src/group_service.rs:375-400 | joining never fails, makes a newcomer a plain member and leaves every existing membership alone |
| GroupRoles.AddMemberOutcome | crates/a3chat-app/src/group_service.rs:573-601 | adding is open exactly to permanent and temporary admins and owners, and leaves existing memberships alone |
| GroupRoles.RemoveMemberOutcome | crates/a3chat-app/src/group_service.rs:605-645 | a removal is carried out exactly when an owner removes a non-owner or an admin a member, and only the target goes |
| GroupRoles.SetRoleOutcome | crates/a3chat-app/src/group_service.rs:663-733 | a role change is carried out exactly when an owner acts on a non-owner, or an admin confirms a member as such; only the target's role changes, to the role asked for |
| GroupRoles.TransferOutcome | crates/a3chat-app/src/group_service.rs:764-809 | a transfer is carried out exactly for an owner and a member, who become admin and owner; nothing else changes |
| GroupRoles.LeaveOutcome | crates/a3chat-app/src/group_service.rs:998-1036 | leaving is open exactly to members who are not owners, and only they go |
| GroupRoles.GrantOutcome | crates/a3chat-app/src/group_service.rs:1243-1304 | a grant is carried out exactly for an actor of permanent rank without active grant, another existing member and a positive duration; it ends after that duration or 604800 seconds |
| GroupRoles.RevokeOutcome | crates/a3chat-app/src/group_service.rs:1320-1358 | a revocation is carried out exactly for an actor of permanent rank without active grant and an existing member, who has only their permanent rank at any time afterwards; nothing else changes |
| GroupRoles.CleanupOutcome | crates/a3net-chatstore/src/im.rs:842-852 | cleaning up forgets exactly the grants that are over, and nobody's rank changes by it |
| GroupRoles.OwnerStays | crates/a3chat-app/src/group_service.rs:635-645 | an owner keeps the role through any operation except its own transfer |
| GroupRoles.OwnerLostIff | crates/a3chat-app/src/group_service.rs:764-809 | an operation takes the last owner away if and only if it is a sole owner's transfer to itself |
| GroupRoles.OwnerInEveryState | crates/a3chat-app/src/group_service.rs:764-809 | a reachable state has an owner if and only if no sole owner transferred to itself before |
| GroupRoles.OwnerAtMidpoint | crates/a3chat-app/src/group_service.rs:792-809 | between promotion and demotion there is an owner |
| GroupRoles.LastOwnerGuardUnreachable | crates/a3chat-app/src/group_service.rs:705-716 | the last-owner check of set_role never decides the outcome |
| GroupRoles.RemovedOnlyBy | crates/a3chat-app/src/group_service.rs:605-645 | a membership ends only by a non-owner leaving or by someone of strictly higher permanent rank |
| GroupRoles.RoleChangedOnlyBy | crates/a3chat-app/src/group_service.rs:702-733 | a role changes only by someone of strictly higher permanent rank or by an owner's transfer |
| GroupRoles.PermanentRankFromOwner | crates/a3chat-app/src/group_service.rs:702-725 | in every reachable state a permanent admin or owner is the creator, never demoted, or was given that role by an owner |
| GroupRoles.GrantsHaveSource | crates/a3chat-app/src/group_service.rs:1243-1304 | in every reachable state a temporary grant came from a permanent admin or owner without active grant, not its holder, for at most 604800 seconds |
| GroupRoles.GrantsWearOff | crates/a3chat-app/src/group_service.rs:1138-1156 | seven days after the last grant effective and permanent ranks are equal |
| GroupRoles.GrantEndsOnlyBy | crates/a3chat-app/src/group_service.rs:1320-1358 | an active grant is revoked or replaced only by a permanent admin or owner without one |
| GroupRoles.SelfTransferLosesOwner | crates/a3chat-app/src/group_service.rs:764-809 | the run of one self-transfer by the creator ends without owner |
| GroupRoles.GroupHub.SetRole | crates/a3chat-app/src/group_service.rs:663-733 | carried out exactly when an owner acts on a non-owner or an admin confirms a member; sets that role, changes nobody else and keeps an owner |
| GroupRoles.GroupHub.TransferOwnership | crates/a3chat-app/src/group_service.rs:764-809 | promotes, demotes, leaves everyone else alone, and keeps an owner unless a sole owner names itself |
| GroupRoles.GroupHub.GrantTempAdmin | crates/a3chat-app/src/group_service.rs:1243-1304 | grants only by permanent rank to someone else, active now and over within seven days |
| GroupRoles.GroupHub.RevokeTempAdmin | crates/a3chat-app/src/group_service.rs:1320-1358 | carried out exactly under the guards; the target then has only their permanent rank at any time, everybody else is unchanged |
| GroupHubCalls.OwnerAfterWriteIff | crates/a3net-chatstore/src/im.rs:720-760 | after a hub write there is an owner if and only if the write made one, or there was one and the write did not lower or remove the only one |
| GroupHubCalls.OwnerIff | crates/a3chat-app/src/group_service.rs:605-809 | over every interleaving of hub calls a state has an owner if and only if every write that lowered or removed the only owner was followed by one that made an owner |
| GroupHubCalls.LossIsStale | crates/a3chat-app/src/group_service.rs:613-725 | over every interleaving a write loses the owner only as a sole owner's self-transfer, or because another caller, after the reading, made the subject owner or took ownership from the transfer's new owner |
| GroupHubCalls.PermanentRankFromReading | crates/a3chat-app/src/group_service.rs:680-725 | over every interleaving of hub calls a permanent admin or owner is the creator, never demoted, or got exactly that role from a write whose actor was an owner at its reading |
| GroupHubCalls.FormerOwnerGivesRank | crates/a3chat-app/src/group_service.rs:680-725 | that actor need not be an owner any more when the role is written |
| GroupHubCalls.AllowedIff | crates/a3chat-app/src/group_service.rs:1249-1300 | the two readings of a grant or revocation, at one instant, are what the operation checks |
| GroupHubCalls.GrantsHaveReadings | crates/a3chat-app/src/group_service.rs:1243-1304 | over every interleaving of hub calls a temporary grant came from an actor, not its holder, whose role sufficed at the first reading and who held no active grant at the second, for at most 604800 seconds from there |
| GroupHubCalls.RevocationEndsGrant | crates/a3chat-app/src/group_service.rs:1325-1358 | over every interleaving, once a revocation has made its write no grant is active on its target, whose role and fellow members are as before |
| GroupHubCalls.GranterIsPermanentUnless | crates/a3chat-app/src/group_service.rs:1249-1273 | that actor was a permanent admin or owner at the first reading, or held a grant of their own there that was over by the second |
| GroupHubCalls.ExpiringGrantIsPassedOn | crates/a3chat-app/src/group_service.rs:1249-1300 | the exception happens: a plain member whose grant ends between the two readings makes a grant |
| GroupHubCalls.GrantsWearOffAnyway | crates/a3chat-app/src/group_service.rs:1138-1156 | seven days after the last reading of a grant effective and permanent ranks are equal, however the hub calls interleave |
| GroupHubCalls.AloneIsAtomic | crates/a3chat-app/src/group_service.rs:605-809 | an operation's hub calls without interruption have the effect of the operation at one instant |
| GroupHubCalls.NonOverlappingOwnerIff | crates/a3chat-app/src/group_service.rs:605-809 | when operations do not overlap, no hub call fails and the clock stands still between the readings of one operation, at rest the group is that of the operations at one instant each, and it has an owner if and only if no sole owner transferred to itself |
| GroupHubCalls.OvertakenLosesOwner | crates/a3chat-app/src/group_service.rs:680-725 | a role change, removal or leave decided before a transfer and written after it leaves no owner |
| GroupHubCalls.TransfersCrossing | crates/a3chat-app/src/group_service.rs:774-809 | a transfer back between the two writes of a transfer leaves no owner |
| Ephemeral.QueueStep | crates/a3chat-app/src/disappearing_message_service.rs:346-352 | every event removes what it cancels or finds due and appends what it schedules |
| Ephemeral.TimerSetLast | crates/a3chat-app/src/disappearing_message_service.rs:331-346 | the timer of a conversation is the one its owner set last |
| Ephemeral.QueueIsSurvivors | crates/a3chat-app/src/disappearing_message_service.rs:304-322 | with atomic passes the queue is always exactly the scheduled deletions neither cancelled, deleted by hand nor passed since, in order |
| Ephemeral.DeletedExactlyWhenDue | crates/a3chat-app/src/disappearing_message_service.rs:304-322 | a pass deletes a message if and only if it is the first pass at or after the due time of some read of it that was neither cancelled nor followed by a deletion by hand |
| Ephemeral.WorkerIgnoresInterference | crates/a3chat-app/src/disappearing_message_service.rs:304-322 | step by step, what a pass deletes and keeps depends only on its snapshot and the clock |
| Ephemeral.AfterOpsSplits | crates/a3chat-app/src/disappearing_message_service.rs:467-513 | reads, cancellations and deletions by hand keep the entries they do not take away and add those they push and do not take away again |
| Ephemeral.PassLosesAndRevives | crates/a3chat-app/src/disappearing_message_service.rs:304-322 | for any clock readings, the queue after a stepwise pass and that of a pass at once before the same interference differ exactly by the entries pushed meanwhile, which are lost, and those taken away meanwhile, which come back; they agree if and only if these balance |
| Ephemeral.PassAtOneInstant | crates/a3chat-app/src/disappearing_message_service.rs:304-322 | the same against the atomic pass, when the clock reads one instant |
| Ephemeral.WriteBackLosesAndRevives | crates/a3chat-app/src/disappearing_message_service.rs:304-322 | at the write-back the shared queue loses exactly the entries pushed during the pass that it holds and gets back exactly the kept entries taken away during it |
| Ephemeral.CompletedPass | crates/a3chat-app/src/disappearing_message_service.rs:304-322 | a completed pass leaves and deletes what its snapshot and the clock say, whatever happened meanwhile |
| Ephemeral.KeptAtOnce | crates/a3chat-app/src/disappearing_message_service.rs:308-321 | at one instant exactly the entries not yet due are kept |
| EphemeralRuns.TraceOf | crates/a3chat-app/src/disappearing_message_service.rs:304-513 | every run the service records has a trace that ends in its state, so the theorems over runs below speak about the service |
| EphemeralRuns.TimerStoredLast | crates/a3chat-app/src/disappearing_message_service.rs:331-346 | over every run the timer of a conversation is the one its owner stored last |
| EphemeralRuns.QueueBetweenPasses | crates/a3chat-app/src/disappearing_message_service.rs:304-322 | over every run, between passes the queue holds exactly the entries pushed outside passes, not cancelled or deleted by hand outside passes, and not due when looked at |
| EphemeralRuns.PassExaminesClean | crates/a3chat-app/src/disappearing_message_service.rs:304-322 | a finished pass looks at exactly the entries that the queue held when it began |
| EphemeralRuns.ReadCarriedOutIff | crates/a3chat-app/src/disappearing_message_service.rs:304-322 | once a pass has begun and finished after its due time, a read that pushed an entry has been carried out if and only if the push did not fall between a snapshot and its write-back and no cancellation or deletion by hand came in time outside such a gap |
| EphemeralRuns.ReadDuringPassLost | crates/a3chat-app/src/disappearing_message_service.rs:441-475 | over every run a read that pushes its entry between a snapshot and its write-back is never carried out, by that pass or a later one |
| EphemeralRuns.ReadLost | crates/a3chat-app/src/disappearing_message_service.rs:304-322 | a run in which a message is read during a pass and a second pass, long after the due time, finds nothing |
| EphemeralRuns.CancellationUndone | crates/a3chat-app/src/disappearing_message_service.rs:346-352 | a run in which a cancellation during a pass empties the queue and the message is deleted later all the same |
| EphemeralRuns.PushHasLookup | crates/a3chat-app/src/disappearing_message_service.rs:448-475 | every pushed entry stems from an earlier lookup by its caller that found the timer on, and is due that timer's seconds after the push |
| EphemeralRuns.CancelHasStore | crates/a3chat-app/src/disappearing_message_service.rs:337-352 | every cancellation follows the storing of the timer's end by its caller |
| EphemeralRuns.CancelledTooEarly | crates/a3chat-app/src/disappearing_message_service.rs:448-475 | a run in which the timer is turned off between the lookup and the push, and a deletion is scheduled with the timer off |
| EphemeralRuns.CarriedOutAtMostOnce | crates/a3chat-app/src/disappearing_message_service.rs:304-322 | no read is carried out twice |
| EphemeralRuns.CarriedOutIsDeleted | crates/a3chat-app/src/disappearing_message_service.rs:486-505 | carrying out a read requests the deletion of its message for its reader |
| EphemeralRuns.TrackedIff | crates/a3chat-app/src/disappearing_message_service.rs:394-513 | a message is tracked if and only if it was registered with the timer on and not deleted since |
| EphemeralService.DisappearingMessageService.SetTimer | crates/a3chat-app/src/disappearing_message_service.rs:325-360 | keeps the fields equal to what the recorded run says; sets that timer and no other; with the timer off, exactly the conversation's entries of that owner go |
| EphemeralService.DisappearingMessageService.RegisterMessage | crates/a3chat-app/src/disappearing_message_service.rs:394-438 | keeps the fields equal to what the recorded run says; tracks the message exactly when the sender's timer is on |
| EphemeralService.DisappearingMessageService.MarkMessageRead | crates/a3chat-app/src/disappearing_message_service.rs:441-483 | keeps the fields equal to what the recorded run says; schedules one deletion exactly when the reader's timer is on |
| EphemeralService.DisappearingMessageService.ManualDelete | crates/a3chat-app/src/disappearing_message_service.rs:486-513 | keeps the fields equal to what the recorded run says; nothing stays pending or tracked for the message and its owner, everything else does |
| EphemeralService.DisappearingMessageService.ProcessDueDeletions | crates/a3chat-app/src/disappearing_message_service.rs:304-322 | is a pass of the recorded run, and an atomic pass when the clock reads one instant; deletes exactly the entries due when looked at, in order |
| Drafts.DraftService.Save | crates/a3chat-app/src/draft_service.rs:144-196 | a step of the cacheless service that keeps cache and disk in agreement; refused for the cap exactly when the conversation is not cached and 1024 others are |
| Drafts.DraftService.Get | crates/a3chat-app/src/draft_service.rs:200-228 | returns what the disk row says, or fails only when storage fails |
| Drafts.DraftService.Delete | crates/a3chat-app/src/draft_service.rs:231-248 | removes the row or, on a storage failure, changes no row; reports whether there was one |
| Drafts.DraftService.List | crates/a3chat-app/src/draft_service.rs:251-268 | returns exactly the user's rows |
| Drafts.DraftService.ClearAll | crates/a3chat-app/src/draft_service.rs:271-280 | removes exactly the user's rows or, on a storage failure, none |
| Drafts.DraftService.Serve | crates/a3chat-app/src/draft_service.rs:144-280 | any request, restart included, answers from the rows and keeps the agreement |
| Drafts.DraftService.Replay | crates/a3chat-app/src/draft_service.rs:141-280 | every history with failures and restarts is carried out as the step function says |
| Drafts.CacheIsTransparent | crates/a3chat-app/src/draft_service.rs:141-280 | over every history with failures and restarts each request is served as the cacheless service over the same rows would |
| Drafts.LimitReachedIff | crates/a3chat-app/src/draft_service.rs:160-177 | a save is refused for the cap if and only if its conversation is not cached and the cache holds 1024 drafts of the user |
| Drafts.PastCapIff | crates/a3chat-app/src/draft_service.rs:160-195 | a request takes a user past 1024 rows if and only if it saves a conversation without row while 1024 rows are on disk and fewer drafts are cached |
| Drafts.WithinCapIff | crates/a3chat-app/src/draft_service.rs:160-195 | over every history a user stays within 1024 rows if and only if no request does that |
| Drafts.CapHoldsWithoutForgetting | crates/a3chat-app/src/draft_service.rs:231-280 | without restarts and failing deletions the rows stay within 1024 |
| Drafts.CapExceeded | crates/a3chat-app/src/draft_service.rs:160-195 | saving 1024 drafts, restarting and saving one more leaves 1025 rows |
| Drafts.SavedDraftIsFound | crates/a3chat-app/src/draft_service.rs:198-228 | a saved draft is what a later read returns, across failures and restarts, until an accepted request writes to it |
| Drafts.DroppedDraftIsGone | crates/a3chat-app/src/draft_service.rs:231-280 | after an accepted deletion, clearing or empty save a later read finds nothing, across failures and restarts, until an accepted request writes the draft again |
| Drafts.RowsOutcome | crates/a3chat-app/src/draft_service.rs:144-280 | an accepted request writes exactly its own rows, with content, reply target and time of the write |
| Drafts.CacheOutcome | crates/a3chat-app/src/draft_service.rs:144-280 | what is cached afterwards: a saved or found draft, exactly the rows after a listing, nothing deleted, and every other draft as before |
| DraftRaces.CachedAgreesIff | crates/a3chat-app/src/draft_service.rs:200-228 | over every interleaving of disk and cache accesses a cached draft is right if and only if no save or finished deletion of its row came after it was read or written, or the last one left the same content |
| DraftRaces.RightAtRest | crates/a3chat-app/src/draft_service.rs:144-280 | a user whose own requests do not overlap finds the cache right whenever none is under way, whatever other users do, fails or restarts |
| DraftRaces.DeletedDraftStaysCached | crates/a3chat-app/src/draft_service.rs:215-248 | a deletion between the read and the caching of a row leaves a deleted draft in the cache |
| Devices.KeepsCap | crates/a3chat-app/src/device_service.rs:160-167 | no operation takes a user past 16 devices |
| Devices.KeepsCurrentMap | crates/a3chat-app/src/device_service.rs:184-197 | every operation keeps the current-device map and the current flags in agreement |
| Devices.OthersUnchanged | crates/a3chat-app/src/device_service.rs:223-293 | an operation changes nobody else's devices or current device |
| Devices.AcceptedTakesEffect | crates/a3chat-app/src/device_service.rs:154-289 | an accepted operation adds the current device and clears the user's other flags, removes one device, or moves the primary flag, and changes nothing else of any device |
| Devices.AcceptedIff | crates/a3chat-app/src/device_service.rs:154-268 | a registration needs room below 16, a revocation an own device that is not current, a primary change an own device; a refused operation changes nothing |
| Devices.RunIsValid | crates/a3chat-app/src/device_service.rs:154-289 | over every run at most 16 devices and one primary per user, and the two maps agree |
| Devices.ExactlyOneCurrent | crates/a3chat-app/src/device_service.rs:291-294 | after every run a user with devices has exactly one current device, the one the map names, and other users have none |
| Devices.DeviceService.RegisterDevice | crates/a3chat-app/src/device_service.rs:154-205 | the loop over all devices and the insert compute the register step |
| Devices.DeviceService.RevokeDevice | crates/a3chat-app/src/device_service.rs:223-254 | removes only an own device that is not current |
| Devices.DeviceService.SetPrimary | crates/a3chat-app/src/device_service.rs:260-289 | the loop computes the primary step |
| MergeForward.CutPoint | crates/a3chat-app/src/forward_service.rs:372-378 | a long text is cut at the last character boundary, between 397 and 400 bytes, and what remains is well-formed |
| MergeForward.RenderLine | crates/a3chat-app/src/forward_service.rs:364-381 | the line is the sender, a colon and the text, whole up to 400 bytes, otherwise cut at the last character boundary within 400 bytes and followed by an ellipsis |
| MergeForward.MergedLines | crates/a3chat-app/src/forward_service.rs:361-387 | all lines are shown, or those up to the one that passes 4000 bytes followed by the number left out |
| MergeForward.NothingUncounted | crates/a3chat-app/src/forward_service.rs:363-386 | the total printed in the first line is the number of source lines shown plus the remainder printed in the last line |
| MergeForward.ZeroMoreIff | crates/a3chat-app/src/forward_service.rs:382-386 | the body announces "0 more" if and only if every line but the last fits and the last does not |
| MergeForward.HeaderTellsTotal | crates/a3chat-app/src/forward_service.rs:363-363 | the header reads back as the number of sources |
| MergeForward.MarkerTellsRemainder | crates/a3chat-app/src/forward_service.rs:384-384 | the marker reads back as the number left out |
| MergeForward.BodyBounded | crates/a3chat-app/src/forward_service.rs:370-387 | the body exceeds 4000 bytes by at most one source line and the marker, and only when truncated |
| MergeForward.LineBounded | crates/a3chat-app/src/forward_service.rs:372-381 | a source line is its sender and at most 405 further bytes |
| MergeForward.BodyIsText | crates/a3chat-app/src/forward_service.rs:372-399 | the joined body is well-formed UTF-8 |
| MergeForward.DigitsRoundTrip | crates/a3chat-app/src/forward_service.rs:384-384 | the decimal digits of a count read back as that count |
| MergeForward.MergeForward | crates/a3chat-app/src/forward_service.rs:355-400 | for any one to fifty sources the body joins exactly the shown lines and the marker, the lines show the first sources in order, and the body is well-formed and within the bound |

## Left out

- JSON-RPC dispatch, serde apart from how audit payloads are written, the event bus, gossip and iroh-docs: no state of their own in these services.
- SQLite setup, pragmas, migrations and row decoding: only the effect of each statement is modelled.
- `delete_account`: removes the account with its counter, so the sequence theorems speak of runs without it.
- `mark_read`, `unread_count`, `read_recipient_count`: one maximum, one subtraction and one count over the tables.
- `metrics_timeline`: reads the same rows as `metrics_summary`; the facts about one row are proved for every day.
- ChannelStorage.ChannelStorage.MetricsSummary: days are day numbers, not `YYYY-MM-DD` strings, whose order agrees with them for years 0000 to 9999; the subtraction in `net_subscribes` wraps, as it does without overflow checks.
- `subscribe`, `unsubscribe`, `update_account` and `audit_log`: modelled on values, as steps of a state machine or as a query; updating rows in place is not captured for them.
- Feed ids are truncated hashes over a nonce; the model takes them to be fresh.
- GroupRoles.OwnerInEveryState: each operation happens at one instant; interleaved hub calls are the subject of GroupHubCalls.OwnerIff, GroupHubCalls.LossIsStale and GroupHubCalls.NonOverlappingOwnerIff.
- GroupRoles.PermanentRankFromOwner: each operation happens at one instant; GroupHubCalls.PermanentRankFromReading is the form over interleaved hub calls.
- GroupRoles.GrantsHaveSource: each operation happens at one instant; GroupHubCalls.GrantsHaveReadings is the form over interleaved hub calls.
- GroupRoles.GrantsWearOff: each operation happens at one instant; GroupHubCalls.GrantsWearOffAnyway is the form over interleaved hub calls.
- Mute, nickname, metadata, invitation and dissolve operations of groups: they touch no role.
- Which messages `cleanup_orphaned_messages` picks, the worker's start and stop, and the time stamps of tracked messages: wall-clock rounding and task plumbing. Each deletion it makes is a deletion by hand in the model.
- EphemeralRuns.TrackedIff: registering a message and deleting one message are one step each, although each takes two or three locks in turn.
- Drafts.DraftService.Save: the time stamp of a draft differs between cache and disk and is not compared; the in-memory mode without storage is left out.
- DraftRaces.RightAtRest: the cap and validation are left out of the interleaved model.
- Device names, public keys and time stamps: validation is an argument, the rest plays no part.
- MergeForward.MergedLines: takes the rendering of a line as a parameter; MergeForward.RenderLine is the rendering in use.
- Fetching, recalling and sending the forwarded messages: storage calls without logic of their own.
