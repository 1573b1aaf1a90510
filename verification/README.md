# Notes API: a verified model of the note lifecycle

The Notes API is a multi-user note store. Notes may be private, which means their content is encrypted in the
database; every edit and restore snapshots the old state as a version; notes are shared with users, shared by
expiring links, pinned and soft-deleted; every change is logged. Each request runs in one database session that
is committed when the request succeeds and rolled back when it raises.

This project models that behaviour at three levels and connects them.

- **Rules.** `NoteRules.dfy` says, as functions on the committed tables, what each request does: `Apply` gives
  its new tables and its answer or its error, `Step` the committed tables afterwards, `Exec` the tables after a
  serial run from an empty database. The theorems about runs (`Invariants`, `Representation`, `History`,
  `Sharing`, `Lists`, `Links`, `Deletion`, `Replay`, `Audit`, `Activity`, `Outcomes`) are about these functions, for
  every run.
- **Objects.** `Orm.dfy`, `Repositories.dfy` and `NoteService.dfy` have the source's own form: a session with an
  identity map, rows added and not yet inserted, `flush`, `expunge`, `commit` and `rollback`, and service methods
  that load row objects, assign their fields, save, log and decrypt the returned object in place. Each method is
  proved to compute its rule and, when it succeeds, to leave behind a session from which a commit would write
  nothing more. When it raises, what it has already added or changed is for the rollback to drop.
- **Requests.** `RequestHandler.dfy` wraps a service call in its session and proves that the committed tables are
  exactly those of the rules, for one request (`Handle`) and for a serial run (`Serve`). Since the rules keep the row
  of a private note encrypted, so does the object layer, although it overwrites the content of the very object it
  loaded.

Beside these, `Interleaving.dfy` runs edits and restores concurrently, with the column-wise UPDATE of
`ColumnUpdates.dfy`; `CommitOrder.dfy` compares such runs with serial ones, and `Overlaps.dfy` has concrete ones.
`AuthTokens.dfy` and `AuthOutcomes.dfy` have the rules of refresh-token rotation and the theorems about their runs,
`AuthService.dfy` the service over user objects and sessions, and `Routes.dfy` puts the bearer check in front of the
note routes.
`Pagination.dfy` models the pages, and `Division.dfy` the floating-point quotient behind `total_pages`.

Cryptography is symbolic. Content is readable text or a ciphertext around some other content, so encrypting twice
and decrypting plain text are expressible, and "exactly one layer" is a theorem. SHA-256 and bcrypt are free
constructors. The clock, nonces, fresh identifiers and random tokens are parameters of each request.

## What the code does that its documentation does not say

- The docstring at `app/services/note_service.py:474-477` says that decryption works on a shallow copy. It
  overwrites the object loaded from the session; storage is safe because the object is expunged first. The model
  follows the code.
- The comment at `app/services/note_service.py:124` says that version history is encrypted at rest. A version row
  holds the plaintext, also for private notes: under a key version that is not empty every snapshot of every run is
  readable text, and under an empty one not (`SnapshotsAreReadableIff`).
- `encryption_key_version` counts as set only when it is a non-empty string. With an empty key version in the
  configuration, a private note that is made public keeps its ciphertext. `EditIsOverrideIff` says which single edits
  go wrong, by the guard of that branch (`Spoils`); `RunsKeepLayersIff` and `HistoryIsCompleteIffUnspoilt` say that
  exactly the runs without such an update keep the representation and a complete history; and `RunsKeepOneLayerIff`
  and `HistoryIsCompleteIff` that a configuration is safe in every run exactly when its key version is not empty.
  Theorems that do not need the condition do not assume it.
- The second quota check of `access_share_link` can never fire (`LimitCheckNeverFires`).
- Under concurrency the snapshot of an edit need not be the state it overwrites, because the note is read before the
  version number. `SnapshotIsOverwrittenStateIff` gives the exact condition for one commit,
  `HistoryIsCompleteIffAllReadTheSame` for the whole history of a note, and `InterleavingLosesAState` a run.
- Under concurrency a private note can end up with its content in clear, and unreadable: the UPDATE names the changed
  columns only, so new content written by a request that loaded the note while it was public meets the privacy that
  another request has committed since (`InterleavingSpoilsARow`). `SpoilsMerge` is the exact condition, on the row
  loaded, the request and the committed row; `InterleavingKeepsLayersIff` carries it to whole interleavings, and
  `HistoryFollowsCommitsIff` says exactly when an interleaving's history is the one its requests tell in their order of
  commit.
- The timeline is ordered by the wall clock. A new entry comes out on top exactly when no entry of the timeline was made
  later (`EntryLeadsIff`).
- A logout takes back the refresh token only; the access token works until it expires (`AccessTokenWorksUntilExpiry`).
- `ceil(total / page_size)` is exact up to a total of 2^53 and wrong for 2^53 + 1 on pages of one row.

## Model

| member | source | states |
|---|---|---|
| RequestHandler.App.Handle | app/db/session.py:22-32 | the committed store after a request is the one of the rules and the answer is theirs; a refusal changes nothing, also when the transaction had already written; the invariants are kept |
| RequestHandler.App.Serve | app/db/session.py:22-32 | requests one after another on an empty database leave `Exec` of the run, each answered as the rules answer it |
| RequestHandler.App.CleanCommits | app/db/session.py:26-27 | committing a clean session publishes exactly what its transaction holds |
| RequestHandler.App.Dispatch | app/core/dependencies.py:66-70 | every request but a link access needs a user that exists; the service call then follows the rules |
| Routes.Api.Call | app/core/dependencies.py:32-75 | a note route answers and stores what the rules say for the bearer; it is refused as unauthenticated, changing nothing, exactly when no active user stands behind an unexpired access token |
| Routes.CallerIsTheBearer | app/core/dependencies.py:49-75 | every route but the public link route speaks for the active account of its bearer's unexpired access token, and for nobody else |
| ServiceLayer.NoteService.CreateNote | app/services/note_service.py:58-81 | the new session ends clean in the rules' store, and the returned object shows the text |
| ServiceLayer.NoteService.GetNote | app/services/note_service.py:83-91 | as the rules answer, with the session clean although the object was decrypted in place |
| ServiceLayer.NoteService.ListNotes | app/services/note_service.py:93-102 | every item of the page is shown decrypted, the tables and the session are untouched |
| ServiceLayer.NoteService.ListSharedNotes | app/services/note_service.py:104-109 | the same for the shared-with-me page, where one object may occur twice |
| ServiceLayer.NoteService.UpdateNote | app/services/note_service.py:111-165 | guards in order, snapshot, field assignments, save, log and response together make the rules' store and answer |
| ServiceLayer.NoteService.AssignFields | app/services/note_service.py:136-154 | the in-place assignments compute the edited row, or stop where decryption raises |
| ServiceLayer.NoteService.DeleteNote | app/services/note_service.py:167-185 | marks, unpins and logs as the rules do |
| ServiceLayer.NoteService.ShareNote | app/services/note_service.py:197-248 | a changed permission is written without a log entry, an equal one refused, a new share inserted and logged |
| ServiceLayer.NoteService.UnshareNote | app/services/note_service.py:250-266 | removes the one share row of the pair and logs |
| ServiceLayer.NoteService.PinNote | app/services/note_service.py:270-295 | pins only below the limit of the counting query |
| ServiceLayer.NoteService.UnpinNote | app/services/note_service.py:297-314 | clears both pin fields, and logs |
| ServiceLayer.NoteService.GetVersion | app/services/note_service.py:325-334 | the version with the number, behind the read guard |
| ServiceLayer.NoteService.RestoreVersion | app/services/note_service.py:336-379 | snapshot, assignments, save, log and response together make the rules' store and answer |
| ServiceLayer.NoteService.CreateShareLink | app/services/note_service.py:383-417 | a fresh active link with the expiry of its kind; the raw token only in the answer |
| ServiceLayer.NoteService.AccessShareLink | app/services/note_service.py:419-447 | counts, may deactivate and logs before it looks at the note; its outcome is still the rules' |
| ServiceLayer.NoteService.AssertCan | app/services/note_service.py:451-471 | both guards are the rules' barrier, including several matching shares |
| ServiceLayer.NoteService.DecryptNoteForResponse | app/services/note_service.py:473-493 | what is overwritten, marked and expunged in each case |
| ServiceLayer.NoteService.Display | app/services/note_service.py:482-484 | decrypting an object a second time changes nothing, also after a failed decryption |
| ServiceLayer.NoteService.DecryptAll | app/services/note_service.py:101-102 | after the loop every listed object shows its row and every object left in the session equals its row |
| Repositories.NoteRepository.GetById | app/repositories/base_repository.py:29-31 | one object per identity: a loaded one is returned again, a new one is made from its row |
| Repositories.NoteRepository.Create | app/repositories/base_repository.py:33-38 | inserts the row or reports the violated key |
| Repositories.NoteRepository.Save | app/repositories/base_repository.py:40-44 | the flush writes the object and the snapshot added before, or neither; the object is re-read and the session clean |
| Repositories.NoteRepository.DeleteShare | app/repositories/base_repository.py:46-48 | removes the rows of the pair and nothing else |
| Repositories.NoteRepository.GetOwnedNotes | app/repositories/note_repository.py:17-55 | the objects of the requested window of the ordered list, and its full count |
| Repositories.NoteRepository.GetSharedNotes | app/repositories/note_repository.py:57-82 | the same for the join with shares |
| Repositories.NoteRepository.GetShareLinkByHash | app/repositories/note_repository.py:149-155 | the link with that hash and, eagerly, its note |
| Repositories.ActivityRepository.Log | app/repositories/activity_repository.py:17-29 | appends one entry and writes nothing else |
| UnitOfWork.InsertFailsIff | app/models/note.py:127-171 | an INSERT fails exactly on a taken key (share per note and user, version per note and number, token hash) or a foreign key that leads nowhere |
| UnitOfWork.FlushClean | app/repositories/base_repository.py:40-44 | flushing objects that equal their rows changes no table |
| UnitOfWork.FlushSave | app/repositories/base_repository.py:40-44 | one changed note and one added snapshot flush to exactly that UPDATE and that INSERT, or fail on the unique constraint |
| UnitOfWork.NextNumberIsFree | app/repositories/note_repository.py:142-147 | max + 1 never violates the unique constraint on (note, number) in a serial run |
| Invariants.RunKeeps | app/models/note.py:52-189 | every reachable store: owners exist, versions numbered 1..k, shares unique and never to the owner, links within quota, pins within limit; with a key version, one layer per private row and readable snapshots |
| Invariants.StepKeeps | app/services/note_service.py:58-447 | every request keeps the invariant, whatever the key version |
| Invariants.StepKeepsText | app/services/note_service.py:136-154 | under a key version that is not empty, every request keeps one layer per private row and readable snapshots |
| Invariants.PinKeeps | app/services/note_service.py:278-289 | after a pin the counting query counts exactly one more, and stays within the limit |
| Representation.EditIsOverrideIff | app/services/note_service.py:136-154 | for every combination of fields, prior privacy and key versions, the edited row is the old note overridden by the given fields, in one-layer form, if and only if the edit is not a publication under an empty key version |
| Representation.EditRefinesOverrideIff | app/services/note_service.py:136-154 | every edit of every row a configuration writes is such an override if and only if its key version is not empty |
| Representation.UpdateIsPartialRecordUpdate | app/services/note_service.py:111-165 | a successful update is a partial record update of title, plaintext and privacy, in one-layer form, iff it does not spoil the row; with usable keys its answer shows the new text |
| Representation.RunsKeepLayersIff | app/services/note_service.py:58-379 | a run keeps, from beginning to end, one layer on private rows, none on public ones and readable snapshots, if and only if none of its updates spoils a row |
| Representation.RunsKeepOneLayerIff | app/services/note_service.py:58-165 | is_private iff key version iff exactly one layer, in every run of a configuration, if and only if its key version is not empty |
| Representation.SnapshotsAreReadableIff | app/services/note_service.py:120-134 | every snapshot of every run is readable text, if and only if the key version is not empty |
| Representation.ShownIsPlaintext | app/services/note_service.py:473-493 | under a key version that is not empty, what any run shows of a note is its plaintext, never ciphertext and never the fallback |
| History.HistoryIsCompleteIffUnspoilt | app/services/note_service.py:120-154 | a run has, from beginning to end, complete history of every note (numbers 1..k, and versions followed by the current state equal to the states told by the successful requests alone), if and only if none of its updates spoils a row |
| History.HistoryIsComplete | app/services/note_service.py:120-134 | under a key version that is not empty, every run has complete history of every note |
| History.HistoryIsCompleteIff | app/services/note_service.py:120-154 | completeness in every run of a configuration if and only if its key version is not empty |
| History.NumbersAreExact | app/repositories/note_repository.py:131-147 | in every run version i exists exactly for 1..k, is found by its number, and the next number is k + 1 |
| History.RestoreGivesVersion | app/services/note_service.py:345-370 | after restoring version n title and plaintext are version n's, and privacy is unchanged |
| History.RestoreIsUndoable | app/services/note_service.py:349-370 | restoring the snapshot a restore created returns title, plaintext and privacy from before |
| History.VersionsAreAppendOnly | app/services/note_service.py:127-134 | no continuation rewrites or drops a version |
| History.PrivacyChangesOnlyByUpdate | app/services/note_service.py:364-369 | any run without an update of the note, restores included, leaves its privacy |
| History.GetShowsLatest | app/services/note_service.py:83-91 | under a key version that is not empty, a reader is answered the latest of the states the note has been through |
| History.VersionShowsMoment | app/services/note_service.py:325-334 | under a key version that is not empty, a reader of version k is answered the k-th of those states, as the stored version with that number |
| History.LinkShowsLatest | app/services/note_service.py:443-447 | under a key version that is not empty, a visitor with a link is answered the latest state of its note |
| History.UpdatedAtIsLastChange | app/db/base.py:66-71 | updated_at is the time of the last request of the run that changed the note's row |
| Sharing.PermissionIsFold | app/services/note_service.py:203-266 | a user's permission is that of the last successful share with no later unshare |
| Sharing.SharesAreUniqueAndForeign | app/models/note.py:127-128 | at most one share per note and user, none to the owner |
| Sharing.ReadGuardAgrees | app/services/note_service.py:83-91 | a note is answered exactly to its owner and to users the fold grants anything, while it is live |
| Sharing.VersionGuardAgrees | app/services/note_service.py:325-334 | a version is answered exactly to those users, for numbers 1..k, also after deletion |
| Sharing.WriteGuardAgrees | app/services/note_service.py:462-471 | an update passes its guards exactly for the owner and for users the fold grants write; past them it never fails under a key version |
| Sharing.SharedListIsExact | app/repositories/note_repository.py:57-82 | the join shows no note twice, and its total is the number of distinct live notes shared with the user |
| Outcomes.AnswersAreJustified | app/services/note_service.py:58-471 | in every run a request succeeds exactly when nothing stands in its way (who asks, what exists, what is deleted, shared, pinned or used up), and is refused for a reason that holds |
| Outcomes.RefusalOrder | app/services/note_service.py:270-284 | which refusal is told where several reasons hold |
| Outcomes.DeletionIsToldFirst | app/services/note_service.py:115-116 | reading, updating, deleting, pinning and restoring tell a deletion before they look at ownership |
| Outcomes.StrangersAreToldNothing | app/services/note_service.py:203-206 | sharing, unsharing, unpinning, links and versions tell a stranger only the lack of permission, whatever else holds |
| Outcomes.CreateSucceedsIff | app/services/note_service.py:58-72 | a creation succeeds unless the fresh identifier is taken |
| Outcomes.CreatedAsAsked | app/services/note_service.py:58-81 | the new note is the creator's, live and unpinned, in one-layer form, with the title, text and privacy asked for, and is answered so |
| Outcomes.DeleteSucceedsIff | app/services/note_service.py:167-178 | exactly the owner deletes, and exactly a live note |
| Outcomes.PinSucceedsIff | app/services/note_service.py:270-289 | exactly the owner pins, exactly a live unpinned note, and exactly below the limit |
| Outcomes.UnpinSucceedsIff | app/services/note_service.py:297-308 | exactly the owner unpins, and exactly a pinned note |
| Outcomes.ShareSucceedsIff | app/services/note_service.py:197-227 | exactly the owner shares a live note, with an existing other user who is not granted that permission already |
| Outcomes.UnshareSucceedsIff | app/services/note_service.py:250-259 | exactly the owner withdraws, and exactly what is granted |
| Outcomes.RestoreSucceedsIff | app/services/note_service.py:336-366 | exactly the owner of a live note restores, exactly its versions 1..k, and under a key version that is not empty never fails after that |
| Outcomes.CreateLinkSucceedsIff | app/services/note_service.py:383-407 | exactly the owner of a live note creates a link, unless the token was drawn before |
| Outcomes.CreatedLinkAnswer | app/services/note_service.py:395-417 | the answer carries the raw token and the link that is stored under its hash |
| Outcomes.LinksAreTheOwners | app/services/note_service.py:390-401 | in every run each link was created by its note's owner |
| Outcomes.ProfileIsFold | app/services/note_service.py:63-72 | in every run a note's owner, privacy, pin time and deletion time are those told by the successful requests alone |
| Outcomes.NoteRepliesShowTheNote | app/services/note_service.py:473-493 | under a key version that is not empty, the note answered is the one asked about, as stored in every column but the content, which is its plaintext |
| Outcomes.CiphertextIsFresh | app/core/security.py:154-163 | whatever ciphertext a request stores where it was not before is made with that request's own nonce |
| Outcomes.ShareReplies | app/services/note_service.py:210-248 | a successful share answers the share as it now stands |
| Links.CountIsGrants | app/services/note_service.py:431-434 | access_count is the number of granted requests of the run |
| Links.QuotaIsRespected | app/services/note_service.py:431-433 | grants never exceed the quota, and the link is inactive exactly when it is used up |
| Links.AccessGrantedIff | app/services/note_service.py:424-445 | an access is granted exactly when the link exists, is in time, has had fewer grants than its quota, and its note is live |
| Links.LimitCheckNeverFires | app/services/note_service.py:428-429 | no request of any run fails on the second quota check |
| Links.LinkOnlyCounts | app/services/note_service.py:431-433 | terms never change, the count never falls, an inactive link never reactivates |
| Links.GrantsAreInTime | app/models/note.py:181-185 | every grant of a run happened no later than the link's expiry |
| Links.ExpiredStaysRefused | app/services/note_service.py:426-427 | with a clock that never goes back, a token refused as expired is never granted later |
| Links.GrantsWithinTerms | app/services/note_service.py:395-434 | through the token of a created link only its note is answered, within 1, 24 or 168 hours of its creation, and no more often than its quota |
| Deletion.DeletionIsTerminal | app/services/note_service.py:167-185 | in every continuation a deleted note keeps its row, versions and links with their counters, is not pinned, and gains no share |
| Deletion.DeletedIsUnreachable | app/repositories/note_repository.py:25-82 | a deleted note is in no list and no link to it is granted |
| Deletion.PinsStayWithinLimit | app/services/note_service.py:278-289 | the counting query agrees with the set of pinned notes and stays within the limit; pinned_at iff is_pinned |
| Replay.ReplayReconstructs | app/repositories/activity_repository.py:17-29 | replaying the log from empty gives existing, deleted and pinned notes, shares, and version, link and access counts |
| Replay.LogIsAppendOnly | app/repositories/activity_repository.py:17-29 | no continuation changes or removes a log entry |
| Audit.EveryWriteIsLoggedOnce | app/services/note_service.py:74-79 | a successful write appends one entry with its actor, action, note and time; only a changed permission is silent; a read changes nothing |
| Audit.LogAnnouncesVersions | app/services/note_service.py:158-163 | the numbers and users in the log's entries are exactly the numbers and authors of the note's versions, in order |
| Audit.EntriesTellDetails | app/services/note_service.py:436-441 | in every run an entry carries what was created, shared, withdrawn or offered, which version was saved, or the how-manieth access it is |
| Activity.TimelineIsExact | app/repositories/activity_repository.py:40-58 | the timeline is the user's own entries of the action and note asked for, each as often as it was logged, latest first |
| Activity.TimelineCountsOwnWrites | app/repositories/activity_repository.py:40-58 | in every run a user's timeline counts exactly the user's own successful writes |
| Activity.EntryLeadsIff | app/repositories/activity_repository.py:51-58 | a new entry comes before everything shown so far if and only if nothing shown was made later |
| Activity.TimelineGrowsAtFront | app/repositories/activity_repository.py:31-60 | with a clock that never goes back, a filtered timeline keeps everything it showed, in order, behind what is newer |
| Activity.TimelinePagesPartition | app/repositories/activity_repository.py:47-60 | its pages together are the matching entries, each once, and its total counts the matching rows |
| Listing.OwnedListIsExact | app/repositories/note_repository.py:25-55 | the ordered list is every matching live note exactly once |
| Listing.PinnedFirstNewestFirst | app/repositories/note_repository.py:47-50 | pinned before unpinned, and the later update first within each group |
| Lists.OwnedPagesPartition | app/repositories/note_repository.py:17-55 | the service's answers to pages 1..total_pages, put together, hold every live note of the user that the search selects exactly once, as the client reads it, pinned first and newest first; the total counts them, and has_next iff a later page answers something |
| Lists.SharedPagesPartition | app/repositories/note_repository.py:57-82 | in every run the answers to the shared-with-me pages, put together, hold every live note granted to the user exactly once, newest first |
| Lists.WalkIsWholeList | app/schemas/common.py:41-51 | whichever page announced total_pages, that many answers are the whole ordered list; has_next iff a later page answers something |
| Pagination.PagesPartition | app/schemas/common.py:20-51 | pages 1..total_pages concatenated are the list |
| Pagination.HasNextIff | app/schemas/common.py:48-49 | has_next iff some later page is not empty |
| Division.DivisionIsCorrectlyRounded | app/schemas/common.py:42 | the modelled quotient is a nearest 53-bit number to the exact one, as section 4.3.1 of IEEE 754-2019 asks |
| Division.FloatCeilingIsExact | app/schemas/common.py:42 | the float ceiling is the integer ceiling for every total up to 2^53 and every page size |
| Division.FloatCeilingFailsAbove2To53 | app/schemas/common.py:42 | one row more, on pages of one row, and the float ceiling loses the last page |
| Division.FloatCeilingIsExactIff | app/schemas/common.py:42 | over the allowed page sizes, the float ceiling is right for all totals up to a bound if and only if the bound is at most 2^53 |
| ColumnUpdates.PatchOfOwnRow | app/repositories/base_repository.py:40-44 | over the row an object was loaded from, an UPDATE of the changed columns stores the object |
| ColumnUpdates.MergeFitsIff | app/services/note_service.py:136-154 | over another request's row, the UPDATE leaves one layer if private and none if public, if and only if content and privacy do not come from different requests (or a publication under an empty key version) |
| ColumnUpdates.MergeIsOneLayerIff | app/services/note_service.py:136-154 | the same for privacy, key version and content together, under one configured key |
| ColumnUpdates.MergeIsIntended | app/services/note_service.py:136-154 | an unspoilt merge over a row that reads as the one loaded is the state the request was asked for |
| Interleaving.NumbersStayUniqueAndGapFree | app/repositories/note_repository.py:142-147 | with any number of edits and restores interleaved, whatever rows they leave, committed numbers are 1..k, each once |
| Interleaving.NextKeepsSafe | app/models/note.py:150-152 | each event keeps: a flushed number is the next one, only one request per note has flushed, and the note is unchanged since a number that is still next was read |
| Interleaving.SnapshotIsOverwrittenStateIff | app/services/note_service.py:112-134 | a committing snapshot is the overwritten state iff title and plaintext were the same at the two reads |
| Interleaving.HistoryIsCompleteIffAllReadTheSame | app/services/note_service.py:112-134 | after any interleaving, a note's versions followed by its current row are its initial record followed by the committed rows as they read, if and only if every committed request about it read the same title and plaintext at both reads |
| CommitOrder.CommitKeepsOneLayerIff | app/services/note_service.py:136-154 | under one configured key, a commit leaves privacy, key version and content agreeing if and only if it is unmixed, that is, its UPDATE does not put content of one request beside the privacy of another |
| CommitOrder.InterleavingKeepsLayersIff | app/services/note_service.py:112-154 | an interleaving keeps a note that starts in proper form (one layer if private, none if public, readable snapshots) in it from beginning to end if and only if all its commits about the note are unmixed |
| CommitOrder.HistoryFollowsCommitsIff | app/services/note_service.py:112-154 | for a note in proper form at the start: at every point of an interleaving its versions and current state are the states that its committed requests tell in their order of commit, if and only if each of them read the same at both reads and is unmixed |
| Overlaps.AloneIsStep | app/services/note_service.py:111-165 | a successful edit or restore that runs alone commits exactly the tables of the serial rules, log included |
| Overlaps.OverlapOutcome | app/services/note_service.py:112-156 | two edits of which the second loads the note before the first commits both commit, the second over the row of the first |
| Overlaps.InterleavingLosesAState | app/services/note_service.py:112-134 | a run of two edits in which one state is in no version |
| Overlaps.InterleavingSpoilsARow | app/services/note_service.py:136-156 | a run of two edits that leaves a private row with its content in clear, unreadable, although both reads of each saw the same title and plaintext |
| AuthTokens.AcceptedIffLatest | app/services/auth_service.py:122-135 | in any run a refresh is accepted exactly when its token is unexpired, of an active user, and the latest issued with no later logout |
| AuthTokens.HashIsOfLatest | app/services/auth_service.py:104-107 | the table holds exactly the hash of each user's latest token |
| AuthTokens.AtMostOneLive | app/services/auth_service.py:132-141 | at any moment a user has at most one token that would be accepted |
| AuthTokens.AcceptedAtMostOnce | app/services/auth_service.py:122-141 | with fresh jti each refresh token is accepted at most once in any run |
| AuthTokens.ReuseNeedsReissue | app/services/auth_service.py:122-141 | without fresh jti, between two acceptances of a token some answer issued that very token again |
| AuthTokens.SecondUseIff | app/core/security.py:93-103 | right after a rotation the old token is accepted again iff the rotation issued that very token, by a repeated jti in the same second |
| AuthTokens.LogoutEndsTheSession | app/services/auth_service.py:150-156 | after a logout a refresh is accepted again only after a login in between |
| AuthOutcomes.LoginGrantedIff | app/services/auth_service.py:84-98 | in every run a login is granted exactly for the right password of an active account, and to that account; every other is refused alike |
| AuthOutcomes.LogoutDoneIff | app/core/dependencies.py:49-75 | in every run a logout is done exactly for the active user of an unexpired access token |
| AuthOutcomes.AuthenticatesIff | app/core/security.py:106-125 | a bearer token speaks for a user exactly when it is an access token, unexpired, of an active account |
| AuthOutcomes.GrantedClaims | app/core/security.py:87-103 | the claims of the two tokens handed out: user, kind, issue and expiry in whole seconds, and each its own identifier |
| AuthOutcomes.AccessTokenWorksUntilExpiry | app/core/security.py:68-75 | an access token handed out speaks for its user until it expires, whatever happens in between, a logout included |
| AuthOutcomes.RefreshTokenWorksUntilExpiry | app/core/security.py:78-84 | a refresh token handed out is accepted, while nothing else happens to its user, exactly until it expires |
| AuthOutcomes.LoginsAreRecorded | app/services/auth_service.py:104-113 | in every run the log grows by exactly the logins and logouts, and last_login_at is the time of the last login |
| AuthenticationLayer.AuthService.Login | app/services/auth_service.py:83-120 | loads the user by e-mail, overwrites hash and login time, saves and logs: the session ends clean in the rules' tables, or the rules' refusal is raised |
| AuthenticationLayer.AuthService.Refresh | app/services/auth_service.py:122-148 | loads the token's user, replaces the hash by the new token's and saves, or raises the rules' refusal |
| AuthenticationLayer.AuthService.CurrentUser | app/core/dependencies.py:49-75 | the user object of an unexpired access token of an active user, or none |
| AuthenticationLayer.AuthService.Logout | app/services/auth_service.py:150-156 | clears the hash of the loaded user, saves and logs |
| AuthenticationLayer.UserRepository.Save | app/repositories/base_repository.py:40-44 | the flush writes the object's row and no other, and the session is clean afterwards |
| AuthenticationLayer.AuthApp.Handle | app/db/session.py:22-32 | each auth request commits exactly the rules' tables; a refusal changes nothing |

## Left out

- Routers, middleware, rate limits, mapping of exceptions to status codes, configuration loading, migrations and the
  front end: no property beyond a table lookup.
- `get_versions` and `get_note_shares`: plain reads. `get_versions` calls the read guard without awaiting it
  (`app/services/note_service.py:322`), so no permission claim is made about it.
- Registration, user names, e-mail lower-casing, password hashing beyond equality of symbolic hashes, and the e-mail
  notification of a share. The set of users is fixed during a run; activation flags do not change.
- Full-text search and `ILIKE`: the search filter is an arbitrary set of notes, used by the count and the page alike.
- Other keys: one key is ever loaded, so decryption fails only on text that is no ciphertext.
- Text typed by a user that happens to be a valid ciphertext: typed content is always readable text.
- A link or log entry whose note row is missing: the foreign keys exclude it, and the model answers such a link with
  the violated key of its log entry.
- Column lengths and the 32-bit range of `access_count` and `version_number`; integers are unbounded.
- Several readings of the clock within one request are one reading. Log entries made at one time are listed by order of
  insertion, the last first.
- Surrogate keys of shares, versions, links and log entries: their unique keys identify them.
- A new row's object joins the identity map when its INSERT has succeeded, not when it is added.
- Rows with equal sort keys are ordered by identifier, so that the lists have one order.
- Pins and link counters run serially: they are read, then written, with no constraint behind them. Sessions other
  than those of `Interleaving` run one after the other, and so do logins and refreshes.
- In `Interleaving` a flush waits for the same version key and not for the row lock of the UPDATE, so the database's own
  schedules are among the model's. The permission guards are not repeated there, and a request reads the clock once.
- In `Routes` the note tables and the accounts are two stores with the same users; in the source one session reads
  both.
- The owned-notes route answers a bare list and drops the total (`app/api/v1/notes.py:75-87`), so no client of it is
  told `total_pages`; `Lists.OwnedPagesPartition` is about the service's result put into the envelope that the
  shared and activity routes answer with.
- Division.DivisionIsCorrectlyRounded: the exponent range is unbounded, which quotients of row counts never leave.
- AuthTokens.AcceptedAtMostOnce: assumes that refresh identifiers do not repeat; they are 128 random bits.
