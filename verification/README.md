# A Dafny model of the rooti back end

The back end is a FastAPI / SQLAlchemy / Redis application whose logic sits in small services over two stores: a
transactional database and a Redis map with expiry. This project models the services whose behaviour spans several
calls, and proves properties of all their runs.

- The database is a set of maps from id to row. A request edits a working copy; `get_db_session` commits it after a normal
  return and throws it away after an exception or in read-only mode. Id sequences never go back.
- Redis is a map from key to value and expiry. A command is applied at its instant, or raises and is not applied.
- The clock counts microseconds and never goes back. A request may read it several times.
- A service object is a class whose methods change fields step by step. Each method is proved equal to a step function on
  the state before the call; theorems about runs are lemmas about those step functions, and the lemmas named `…Answers`,
  `…Means`, `…Listed` and `…Stores` say what a step does without naming it. `commits` parameters say whether
  the transaction at the end of the request holds.

## Files

| file | what it models |
|---|---|
| `Prelude.dfy`, `Relational.dfy` | options, filters, inner joins, `scalar_one_or_none` |
| `Tokens.dfy`, `SessionProtocol.dfy`, `AuthService.dfy`, `SessionReplies.dfy`, `SessionTheorems.dfy`, `SessionInterleaving.dfy` | refresh-token sessions |
| `CacheCodec.dfy`, `CatalogServices.dfy`, `CacheStaleness.dfy` | the read-through cache: codec, serial coherence, staleness under interleaving |
| `ProcessSync.dfy`, `ProcessSyncTheorems.dfy`, `ProcessFlush.dfy` | reconciliation of a standard's process list, in place on objects, and the flush that stores it |
| `WorkRecords.dfy`, `WorkRecordInterleaving.dfy`, `ProcessRecords.dfy`, `JobAssignments.dfy` | work records, process records, job workers and schedules |
| `BulkMail.dfy`, `BulkMailJobs.dfy` | bulk journal mail: selection and preview, the job's life |
| `Tenant.dfy`, `Leaves.dfy`, `Kiosks.dfy`, `TenantScope.dfy`, `TenantLists.dfy` | company scope: isolation over runs, scoped lists |
| `Paging.dfy` | pages, with IEEE 754 division |
| `ExceptionChain.dfy`, `JournalSchedules.dfy` | the exception-chain walk; next run and update of journal schedules |

## What the code does that its documentation does not say

- **Rotation.** The docstring of `refresh` says the old refresh token is invalid at once. Tokens carry no nonce and `iat`
  counts seconds, so a refresh within the second of issue returns the same token, which stays valid
  (`SessionTheorems.SameSecondRefreshKeepsToken`); `RotationRetiresIffLaterSecond` gives the exact condition.
- **Read-only mode.** `change_password` confirms the change and revokes the session, but the password stays as it was
  (`SessionTheorems.ReadOnlyChangeKeepsThePassword`). The same happens whenever the commit after the reply fails.
- **Cache codec.** Responses are dumped under their aliases and validated under their field names, so both cached schemas
  can never be read back (`CacheCodec.CachedSchemasAlwaysMiss`). The cache claims are proved for a codec that decodes and
  for one that does not.
- **Eviction precedes the commit.** A reader that comes wholly in between caches the old row again
  (`CacheStaleness.RefillBetweenEvictionAndCommit`). Evicting after the commit would leave only fills in flight
  (`EvictAfterCommitLeavesFills`), which reach the staleness bound in either order (`StalenessBoundIsReached`);
  `AlwaysCurrentIffNoOldCopy` is the exact condition.
- **Repeating a process list.** The flush sends UPDATEs by id, then INSERTs, then DELETEs, under a unique constraint that is
  checked at once. So a repeated request that creates a process is refused (`ProcessFlush.RepeatPassesIffNothingNew`), and
  so are swapping two sequences and replacing a process under its sequence (`SwapAndReplaceAreRefused`).
- **Process records.** `begin_process` has no duplicate check: a second begin is accepted
  (`ProcessRecords.SecondBeginIsAccepted`), and two open records can never be ended (`TwoOpenRecordsAreStuck`).
- **Work records.** The only guard against two open records is a check before the insert, so two overlapping requests
  break it (`WorkRecordInterleaving.OverlapBreaksIt`); two overlapping ends rewrite a closed record
  (`OverlappingEndsRewrite`).
- **Bulk mail.** With mailing switched off a job becomes SUCCESS with its full count although nothing is sent
  (`BulkMail.MailIsTakenIff`). A lost second commit leaves a job SENDING although its mail is out
  (`BulkMailJobs.MailMeansSuccessOrLostCommit`).
- **Overlapping refreshes.** Two refreshes of one token between each other's GET and SET are both accepted
  (`SessionInterleaving.OverlapAcceptsTwice`).
- **Journal schedules.** `create` stores weekday and day of month as sent, whatever the frequency
  (`JournalSchedules.CreateCanBeInconsistent`); the first update that names a frequency repairs the row.
- **Leave ranges.** A date range that runs backwards is not refused: it lists the leaves around the gap
  (`TenantLists.BackwardRangeListsAround`).

## Model

| member | source | states |
|---|---|---|
| Tokens.CreatedTokenParses | app/core/security.py:80-152 | A created token is readable from its second of issue until its lifetime has run out, as its own type only, and gives back subject, username and roles |
| Tokens.SameTokenIffSameSecond | app/core/security.py:89-103 | Two refresh tokens of one user are the same string exactly when issued in the same second |
| Tokens.KeyOutlivesToken | app/services/auth.py:86-90 | The Redis key stored with the refresh lifetime at or after `iat` never ends before the token's `exp` |
| AuthService.RefreshTokenStore.Save | app/services/auth.py:69-70 | SET with expiry: the token is found until exactly `ttl` later, nothing if the command raises |
| AuthService.RefreshTokenStore.Matches | app/services/auth.py:72-80 | True exactly when an unexpired key holds this token |
| AuthService.RefreshTokenStore.Remove | app/services/auth.py:75-76 | Deletes the user's key and no other |
| AuthService.AuthService.IssuePair | app/services/auth.py:86-96 | With Redis up: an access and a refresh token that each read as this user, with the username and the one role of the row, as their own type only and for their own lifetime, and the refresh token stored under the user's key alone; with Redis down, nothing |
| AuthService.AuthService.Login | app/services/auth.py:108-125 | A pair exactly for the enabled user of that name whose password was sent, with Redis up; the pair and the key are that user's; a refused login leaves every key alone |
| AuthService.AuthService.Refresh | app/services/auth.py:128-155 | Refines the refresh step: rotation, reuse revokes, disabled account revokes, missing user leaves the key |
| AuthService.AuthService.Logout | app/services/auth.py:157-158 | Removes the session |
| AuthService.AuthService.ChangePassword | app/services/auth.py:160-168 | Refines the password step: the session is revoked before the transaction is known to hold |
| AuthService.AuthService.SignupAsCaregiver | app/services/auth.py:171-193 | Refines the signup step: duplicates, the read-only flush, tokens issued for a row a rollback can take back |
| AuthService.AuthService.SetEnabled | app/services/user.py:50-53 | Sets the flag and leaves the session key alone |
| SessionReplies.PasswordVerifiesIffSameBytes | app/core/security.py:41-58 | A password verifies against the hash of another exactly if they are equal or agree in their first 72 bytes |
| SessionReplies.IssuedPairIsFor | app/services/auth.py:86-96 | Both tokens of a pair read exactly from their second of issue to their own lifetime, as their own type only, with this subject, username and role; the key holds the refresh token for its lifetime |
| SessionReplies.LoginAnswers | app/services/auth.py:108-125 | Login answers with a pair exactly for an enabled user of that name with that password and Redis up, says which refusal every other case gets, and leaves everything as it was then |
| SessionReplies.RefreshAnswers | app/services/auth.py:128-155 | Every answer of refresh in terms of the token, the stored key and the user row: a new pair of that user, a revocation, or no change |
| SessionReplies.SignupAnswers | app/services/auth.py:171-193 | A signup creates an enabled caregiver under a fresh id whose password is the one sent, and refuses exactly a taken username, a taken email and a read-only database |
| SessionReplies.ChangePasswordAnswers | app/services/auth.py:160-168 | Confirmed exactly for the right current password with Redis up; touches one hash and one key; a refusal changes nothing |
| SessionReplies.SetEnabledAnswers | app/services/user.py:50-53 | Touches the flag of one existing user, unless the transaction does not hold, and no key |
| SessionReplies.TokensNameTheirUser | app/services/auth.py:86-193 | Over every run, whoever is answered with tokens gets that user's own with the committed role: a login or refresh for an enabled user only, a signup for the caregiver it creates |
| SessionTheorems.RunKeepsInv | app/services/auth.py:57-193 | Over every serial run the Redis key of a user reflects the last save-or-remove event observable from the replies, and issue times never go back |
| SessionTheorems.AcceptanceCriterion | app/services/auth.py:128-155 | After any serial run a refresh succeeds if and only if the token is the user's last issued one, unexpired, its key alive, the user present and enabled, and Redis answering |
| SessionTheorems.ExpiryOfKeyIsRedundant | app/services/auth.py:86-96 | While the current token is unexpired its key is alive, so the key's own expiry never decides |
| SessionTheorems.RotatedTokenIsDead | app/services/auth.py:128-155 | A token refreshed in a later second than its `iat` is never accepted again, whatever requests follow |
| SessionTheorems.RotationRetiresIffLaterSecond | app/services/auth.py:131-132 | Rotation returns another token, and retires the old one, exactly when the second of the refresh differs from its `iat` |
| SessionTheorems.SameSecondRefreshKeepsToken | app/services/auth.py:131-132 | A concrete run in which a refreshed token is accepted again |
| SessionTheorems.ReuseIsDetected | app/services/auth.py:139-147 | Any readable refresh token that is not the current one is refused as unknown |
| SessionTheorems.RefusalEndsSession | app/services/auth.py:139-154 | After such a refusal no token of the user is current |
| SessionTheorems.ReuseRevokesEverything | app/services/auth.py:133-147 | Every token accepted after a refusal was issued after it, and none has an `iat` before the user's next issue |
| SessionTheorems.ConfirmedPasswordChange | app/services/auth.py:160-168 | A confirmed change always ends this session and no other; the new password verifies exactly when the transaction persists or it equals the old one to bcrypt |
| SessionTheorems.ReadOnlyChangeKeepsThePassword | app/services/auth.py:160-168 | In read-only mode a correct current password is answered with success while the old password still verifies and the session is gone |
| SessionInterleaving.NonOverlappingRefreshesAcceptOnce | app/services/auth.py:128-155 | With refresh split into GET and SET, runs in which no two refreshes of a token overlap accept it at most once, whatever other requests do, if no new token falls in its second |
| SessionInterleaving.AcceptedTwiceOverlaps | app/services/auth.py:128-155 | Every run that accepts a token twice contains two overlapping refreshes of it |
| SessionInterleaving.OverlapAcceptsTwice | app/services/auth.py:128-155 | Two overlapping refreshes of a stored token are both accepted, and only the later answer is then stored |
| SessionInterleaving.UninterruptedRefreshIsSerial | app/services/auth.py:128-155 | The split refresh, uninterrupted, is the serial refresh: accepted, refused or without user, it ends with the same keys |
| CacheCodec.MissIffRequiredFieldRenamed | app/core/cache.py:30-60 | A stored model is unreadable exactly when a required field is dumped under a name no field validates under |
| CacheCodec.RoundTripWithoutAliases | app/core/cache.py:30-60 | With every alias equal to its name the cache gives back what was stored |
| CacheCodec.CachedSchemasAlwaysMiss | app/schemas/company.py:30-39 | Neither cached schema can be read back after it was stored |
| CatalogServices.ModelCache.GetModel | app/core/cache.py:30-42 | A hit exactly when Redis answers, the entry decodes and has not expired; every failure is a miss |
| CatalogServices.ModelCache.SetModel | app/core/cache.py:45-60 | Stores with the 600-second expiry, or silently does nothing |
| CatalogServices.ModelCache.Evict | app/core/cache.py:63-67 | Deletes the entry, or silently does nothing |
| CatalogServices.CompanyService.Get | app/services/company.py:35-44 | With a coherent cache, answers what a direct read of the database would, hit or miss, whichever of GET and SET fails, keeps coherence, and fills exactly its own entry on a miss |
| CatalogServices.CompanyService.Create | app/services/company.py:64-83 | Refuses exactly a taken name; otherwise one new row, or none on rollback; coherence kept |
| CatalogServices.CompanyService.Update | app/services/company.py:85-106 | Each sent field is stored in its own column and shown so, every other column and row is kept; coherence survives exactly when the eviction applies, the request rolls back, nothing is cached or nothing visible changed |
| CatalogServices.CompanyUpdateMeans | app/services/company.py:85-106 | Each field sent is stored in its own column, every other column is kept, and the response shows each column under its own name |
| CatalogServices.CompanyService.Deactivate | app/services/company.py:108-114 | Clears the flag; the same condition for coherence |
| CatalogServices.JobStandardService.Get | app/services/job.py:41-58 | The standard's own columns are always the committed ones; the whole response is current whenever the cache is coherent or missed |
| CatalogServices.JobStandardService.Update | app/services/job.py:108-128 | Each sent field is stored in its own column, every other column and row is kept; the exact condition under which cached columns stay current |
| CatalogServices.StandardUpdateMeans | app/services/job.py:108-128 | Each field sent is stored in its own column, every other is kept, and the response carries the row and its company's name |
| CatalogServices.JobStandardService.Deactivate | app/services/job.py:130-133 | Clears the flag; the same condition |
| CatalogServices.JobStandardService.CommitSync | app/services/job.py:135-172 | A process sync evicts nothing: columns stay current, and the cached response goes stale exactly when the list changed under an entry |
| CatalogServices.JobStandardService.CommitRename | app/services/company.py:85-106 | A company rename evicts no standard: the exact condition under which cached responses stay current |
| CacheStaleness.RunKeepsInv | app/core/cache.py:30-67 | Under arbitrary interleaving and silently failing commands every cached or half-read part was committed when it was read |
| CacheStaleness.BoundedStaleness | app/services/company.py:35-44 | Every part of a hit was the committed value at some instant less than 600 seconds plus the fill delay ago |
| CacheStaleness.QuietPartsAreCurrent | app/services/job.py:41-58 | A part not written for that long is shown with its current value by every hit |
| CacheStaleness.MissReturnsCommittedParts | app/services/job.py:41-58 | What a miss returns was committed, part by part, when it was read |
| CacheStaleness.StalenessBoundIsReached | app/services/company.py:85-106 | The bound is tight: a run with no Redis failure, its read after the eviction, serves the old value one tick short of it; evicting after the commit does not prevent that |
| CacheStaleness.AlwaysCurrentIffNoOldCopy | app/core/cache.py:30-67 | With no further write of a part, every hit on every continuation shows its current value if and only if no live entry, and no fill that can still be set, holds another one |
| CacheStaleness.EvictBeforeCommitLeavesEntries | app/services/company.py:85-106 | In the order of the services, exactly the live entries and fills in flight with another value remain old after the commit |
| CacheStaleness.EvictAfterCommitLeavesFills | app/services/company.py:85-106 | Evicting after the commit would leave exactly the fills in flight |
| CacheStaleness.RefillBetweenEvictionAndCommit | app/services/company.py:85-106 | A reader wholly between eviction and commit leaves an old entry although every command succeeds |
| ProcessSync.KeptAt | app/services/job.py:150-155 | The positions of the processes that stay, ascending; picking them gives the requested processes in their old order |
| ProcessSync.JobStandard.KeepRequested | app/services/job.py:148-155 | The list keeps exactly the requested objects, in their old order |
| ProcessSync.JobStandard.FindProcess | app/services/job.py:161-162 | The first process with the id, or none if there is none |
| ProcessSync.JobStandard.Enter | app/services/job.py:158-170 | One entry rewrites the process it names or appends a new one; an unknown id fails |
| ProcessSync.JobStandard.SyncProcesses | app/services/job.py:135-188 | Succeeds exactly if every id sent names a process of the standard; the list is then the kept objects rewritten in place, then new objects, and its values are the specified ones |
| ProcessSync.EnteredAllIsPartial | app/services/job.py:157-170 | The loop over entries builds the declarative list and stops at the first unknown id |
| ProcessSyncTheorems.LastEntryWins | app/services/job.py:157-170 | A process sent several times carries its last entry |
| ProcessSyncTheorems.RoundTrip | app/services/job.py:135-172 | Sending back what `get` returned leaves the list unchanged |
| ProcessSyncTheorems.ContentsConserved | app/services/job.py:135-172 | With distinct ids the stored contents are the sent contents, as multisets |
| ProcessFlush.WriteIffClear | migrations/V1__init_schema.sql:167 | A series of UPDATEs and INSERTs under the immediate unique constraint succeeds exactly if each finds its sequence free of earlier writes and of rows still in their old state |
| ProcessFlush.FlushOutcome | app/services/job.py:171 | The flush succeeds exactly if the final sequences are distinct, none of a dropped process is taken over, no kept process moves to the old sequence of one with a larger id, and no dropped process is recorded; it then stores the reconciled list |
| ProcessFlush.SyncOutcome | app/services/job.py:135-172 | The whole request: which of the three errors, or the stored list |
| ProcessFlush.SuccessfulSync | app/services/job.py:171-172 | After a successful request ids and sequences are distinct, every recorded process is still there and no old id was invented |
| ProcessFlush.RoundTripPasses | app/services/job.py:135-172 | Sending back what `get` returned passes the flush and stores the same rows |
| ProcessFlush.SwapAndReplaceAreRefused | app/services/job.py:135-172 | Inputs that end in a list without duplicates and are refused: swapping two sequences, replacing a process under its sequence |
| ProcessSyncTheorems.SyncTwice | app/services/job.py:135-170 | Reconciling the stored rows, in any load order, with the same request again gives the same contents |
| ProcessFlush.RepeatPassesIffNothingNew | app/services/job.py:135-172 | Repeating a request that went through passes the flush exactly when it creates nothing; otherwise the unique constraint refuses it |
| Relational.ScalarOneOrNone | app/services/workrecord.py:139-149 | No row, the only row, or an error exactly when there are several |
| WorkRecords.WorkRecordService.FindOpenRecord | app/services/workrecord.py:139-149 | The open record of a schedule and type, none, or several |
| WorkRecords.WorkRecordService.Begin | app/services/workrecord.py:37-52 | Accepted exactly for a known schedule without an open record of the type; a commit adds one record with the instant sent, else now, and nothing else; at most one stays open |
| WorkRecords.WorkRecordService.End | app/services/workrecord.py:54-64 | Accepted exactly if a record of the type is open; a commit sets that record's end to the instant sent, else now, and changes no other field or record; only an OFF changes a schedule, this one, and only its end |
| WorkRecords.WorkRecordService.Close | app/services/schedule.py:154-157 | Sets the end of an existing schedule to the instant sent, else now, and touches no record and no other schedule |
| WorkRecords.SerialRunsKeepOneOpen | app/services/workrecord.py:37-64 | In every serial run each schedule has at most one open record of each type |
| WorkRecords.NoMultipleRows | app/services/workrecord.py:139-149 | So the lookup never fails on several rows |
| WorkRecords.OpennessStep | app/services/workrecord.py:37-64 | What one request does to the open record of one schedule and type |
| WorkRecords.BeginsAndEndsAlternate | app/services/workrecord.py:37-64 | Accepted begins and ends strictly alternate, and the record is open exactly in between |
| WorkRecords.ClosedRecordsAreFinal | app/services/workrecord.py:54-64 | A closed record never changes again |
| WorkRecords.EndMeans | app/services/workrecord.py:54-64 | What a committed end does to every record and schedule, field by field: exactly the open record of the type gets this end, and only an OFF ends the working day |
| WorkRecords.OnlyOffOrCloseEndsTheDay | app/services/workrecord.py:54-64 | Over every serial run a schedule's end changes only by a close or by a committed end of its OFF record; its start never changes and no schedule is lost |
| WorkRecordInterleaving.NonOverlappingBeginsKeepOneOpen | app/services/workrecord.py:37-52 | With begin split into check and commit, runs in which no two begins of one schedule and type overlap keep one open record, whatever the ends do |
| WorkRecordInterleaving.BrokenRunsOverlap | app/services/workrecord.py:37-52 | Every run that breaks it contains such an overlap |
| WorkRecordInterleaving.OverlapBreaksIt | app/services/workrecord.py:37-52 | Two overlapping begins that both commit do break it |
| WorkRecordInterleaving.ClosedOnceIsFinal | app/services/workrecord.py:54-64 | A record closed by some prefix of a run never changes again if no two ends of it overlap, whatever else does |
| WorkRecordInterleaving.OverlappingEndsRewrite | app/services/workrecord.py:54-64 | Two overlapping ends that both commit rewrite a closed record |
| WorkRecordInterleaving.UninterruptedBeginIsSerial | app/services/workrecord.py:37-52 | The split begin, uninterrupted, is the serial one |
| WorkRecordInterleaving.UninterruptedEndIsSerial | app/services/workrecord.py:54-64 | So is the split end, on the records |
| ProcessRecords.WorkProcessRecordService.Begin | app/services/workrecord.py:81-98 | Refines the begin step of a process record |
| ProcessRecords.WorkProcessRecordService.End | app/services/workrecord.py:100-118 | Refines the end step of a process record |
| ProcessRecords.BeginMeans | app/services/workrecord.py:81-98 | Which refusal, or one new open record with every field as sent and the default type; nothing else changes |
| ProcessRecords.EndMeans | app/services/workrecord.py:100-118 | The end and its note, and the process text if sent, go into the one open record; no other field or record changes |
| ProcessRecords.EndsIffExactlyOneOpen | app/services/workrecord.py:100-118 | A record is closed exactly when one open record exists; otherwise nothing changes |
| ProcessRecords.OpenCountStep | app/services/workrecord.py:81-118 | A committed begin adds one open record, a committed end takes the only one away, and nothing else changes the count |
| ProcessRecords.TwoOpenRecordsAreStuck | app/services/workrecord.py:81-118 | Once two are open the count never decreases on any run |
| ProcessRecords.SecondBeginIsAccepted | app/services/workrecord.py:81-98 | With one record open a further begin is accepted and leaves two, after which every end is refused |
| ProcessRecords.NeverTwoOpenIffBeginsMeetNone | app/services/workrecord.py:81-118 | A run never has two open exactly when it starts with at most one and every committed begin meets none |
| ProcessRecords.RunsKeepRefs | migrations/V1__init_schema.sql:229 | In every reachable state records point to existing processes, because a sync that would drop a recorded one fails |
| ProcessRecords.SyncStores | app/services/job.py:135-172 | A committed sync leaves exactly the rows of its reply under its standard and every other standard's processes as they were; a refused or rolled-back one changes no process, and none touches a record |
| ProcessRecords.ProcessesBelongToTheirStandard | app/services/job.py:139-155 | Over every run a process never changes its standard, and without a committed sync of its standard it stays exactly as it is |
| ProcessRecords.ListProcessIsComplete | app/services/workrecord.py:120-130 | The inner join lists every record of the schedule exactly once, with its own process |
| JobAssignments.AssignmentServices.Assign | app/services/job.py:230-258 | Refines the assign step: reuse of an inactive row, refusal of an active one, or a new row |
| JobAssignments.AssignmentServices.Unassign | app/services/job.py:260-264 | Refines the unassign step |
| JobAssignments.AssignmentServices.Create | app/services/schedule.py:117-131 | Refines schedule creation: the standard comes from the job worker |
| JobAssignments.AssignmentServices.BatchMake | app/services/schedule.py:133-152 | The loop makes the specified schedules and inserts them in one flush |
| JobAssignments.RunsKeepInv | app/services/job.py:230-264 | In every reachable state one row per (company worker, standard), and every schedule carries its job worker's standard |
| JobAssignments.StepRefinesPairSet | app/services/job.py:230-264 | Assign and unassign refine adding to and removing from a set of active pairs, with the exact cases of refusal and the row the reply names |
| JobAssignments.RowsKeepTheirPair | app/services/job.py:230-264 | Over every run a job worker keeps its pair and its row is never lost; only its flag moves |
| JobAssignments.CreateMeans | app/services/schedule.py:117-131 | A schedule carries what was sent and its job worker's standard, under a fresh id; an unknown job worker is refused; nothing else changes |
| JobAssignments.BatchMakesOnePerListedId | app/services/schedule.py:133-152 | One schedule per listed matching id, repetitions included, in order under consecutive ids, and nothing else changes |
| BulkMail.SelectionIsExact | app/services/document.py:298-318 | The mail's query selects exactly the schedules whose job worker and company worker exist, of this company, that start on the day, each as often as it is in the table and in its order |
| BulkMail.PreviewSelectsWhatSendSelects | app/services/document.py:298-412 | The preview's three extra inner joins neither drop nor duplicate a schedule |
| BulkMail.PreviewAnnouncesTheMail | app/services/document.py:291-433 | For one state the mail attaches min(300, announced) journals, truncated exactly beyond 300, with the announced ids before the cap and no attached start after an omitted one |
| BulkMail.EveryInstantInOneDay | app/services/document.py:298-312 | Every instant lies in exactly one day's window, to the microsecond |
| BulkMail.Send | app/services/document.py:320-366 | The ZIP loop and the mail compute the specified answer and the mails the provider took |
| BulkMail.ZipAttachesEachRow | app/services/document.py:336-345 | One attachment per row in order, each with its own rendering, or the error of the first row that has none |
| BulkMail.SendMeans | app/services/document.py:320-366 | What the answer says: min(300, selected) journals, truncated exactly beyond 300, the provider's id and the one mail it took |
| BulkMail.MailIsTakenIff | app/integrations/email.py:27-68 | A mail is taken exactly if every journal renders and mailing is switched on and accepts; switched off, send returns all the same |
| BulkMailJobs.BulkEmailService.CreateJob | app/services/document.py:436-456 | Adds a QUEUED row |
| BulkMailJobs.BulkEmailService.MarkSending | app/services/document.py:458-466 | Moves an existing row to SENDING with its start |
| BulkMailJobs.BulkEmailService.CompleteJob | app/services/document.py:468-492 | Calls send and records what it returned, or why it raised, and the end |
| BulkMailJobs.BulkEmailService.RunBulkEmailJob | app/services/document.py:562-582 | For every point of failure, the committed row after the two-commit runner and the mails taken |
| BulkMailJobs.RunnerIsStartThenFinish | app/services/document.py:562-582 | That effect is a Start and a Finish of the system machine |
| BulkMailJobs.JobsOnlyAdvance | app/api/v1/work_journals.py:122-127 | Over every run with failures anywhere, committed rows keep the shape of their status and move only QUEUED, SENDING, then SUCCESS or FAILED |
| BulkMailJobs.EventsStampTheirInstant | app/services/document.py:458-492 | A start stamps SENDING and its instant, a committed finish its end status and instant, and nothing else touches a row |
| BulkMailJobs.SuccessMeansSent | app/services/document.py:476-488 | Over every run a committed SUCCESS row counts min(300, what the preview of the database it read announces), is truncated exactly beyond 300, and unless there was nothing to send or mailing is off exactly one mail with those journals was taken, to the job's recipient, under the row's message id; every attachment is a schedule of the job's own company and day |
| BulkMailJobs.MailMeansSuccessOrLostCommit | app/services/document.py:562-582 | At most one mail per job; a job with a mail is SUCCESS, or SENDING for good exactly when the second commit was lost; FAILED and QUEUED jobs have none |
| BulkMailJobs.PostedIsDelivered | app/api/v1/work_journals.py:109-136 | From the request to the mail: the job a committed request creates keeps the company, recipient, day, format and requester posted over every run, and if it ends as SUCCESS it was delivered as posted |
| BulkMailJobs.FailedGivesTheReason | app/services/document.py:486-492 | Over every run a FAILED row gives the first 1000 characters of what send raised, counts nothing and has no mail |
| Tenant.ResolveCompanyFilter | app/core/tenant.py:20-31 | Refuses exactly a charger asking for another company; the filter lets through exactly the companies in scope and asked for |
| Leaves.LeaveService.Create | app/services/leave.py:148-170 | Checks in order; a new leave counts both end days and is approved or pending as asked |
| Leaves.LeaveService.Decide | app/services/leave.py:172-187 | Sets the status and appends a comment to the reason, in scope only |
| Leaves.LeaveService.Delete | app/services/leave.py:189-193 | Deletes in scope; a missing row is no error |
| Leaves.LeaveService.Serve | app/api/v1/leaves.py:74-92 | The writing endpoints refine the handler the runs are made of: assertion of the company on creation, the service's own check otherwise |
| Leaves.HandleMeans | app/services/leave.py:148-193 | Exactly when each leave request is refused, that the status becomes the one sent, how the comment joins the reason, and that nothing else is stored |
| Kiosks.KioskService.Bind | app/services/kiosk.py:65-92 | Refuses a missing company and a bound kiosk; otherwise an offline, empty kiosk with a name |
| Kiosks.KioskService.SetAssignee | app/services/kiosk.py:94-103 | Changes the assignee only, in scope only |
| Kiosks.KioskService.Unbind | app/services/kiosk.py:105-109 | Deletes in scope; a missing row is no error |
| Kiosks.KioskService.Serve | app/api/v1/kiosks.py:41-59 | The writing endpoints refine the handler the runs are made of: assertion of the company on creation, the service's own check otherwise |
| Kiosks.HandleMeans | app/services/kiosk.py:65-109 | Exactly when each kiosk request is refused, every field a binding stores, that an assignment touches one column of one row, and that nothing else is stored |
| TenantScope.RequestsStayInScope | app/core/tenant.py:34-41 | One leave, kiosk or schedule request leaves every other company's rows alone, in the working copy too, whether it returns or raises halfway |
| TenantScope.PostStaysInScope | app/api/v1/work_journals.py:109-136 | So does a bulk-mail request, and the runner it enqueues is for its own company |
| TenantScope.PostMeans | app/api/v1/work_journals.py:109-136 | A job is created exactly in scope, for an existing company and when the request commits, and it is the one asked for |
| TenantScope.RequestsAreAtomic | app/core/database.py:92-109 | An accepted request commits its whole working copy; any other commits nothing, half-edited rows included |
| TenantScope.RefusedRunsChangeNothing | app/core/database.py:92-109 | Over every run without an accepted request the tables stay as they were |
| TenantScope.RunsLeaveOthersAlone | app/core/database.py:92-109 | Over every run of requests whose scopes exclude a company, with failures, rollbacks and the runners they enqueue, its rows in all four tables stay exactly as they were |
| TenantScope.RunsKeepValid | app/services/leave.py:148-170 | Over every run of any scopes each leave ends no earlier than it starts and counts both end days, and no kiosk is bound twice to one company |
| TenantScope.LeavesAreOnlyDecided | app/services/leave.py:172-187 | Over every run of any scopes a leave stays about the same worker, company and days, and its reason is only ever extended |
| TenantLists.ScopedIsFiltered | app/core/tenant.py:20-31 | Each scoped list is the unrestricted list filtered to what may be seen, in the same order, or refused exactly when another company is asked for |
| TenantLists.SearchIsFiltered | app/services/leave.py:75-114 | So is leave search, before its page is cut |
| TenantLists.ApprovedAreFiltered | app/services/leave.py:135-146 | So are the approved leaves of the calendar |
| TenantLists.WorkerLeavesAreFiltered | app/services/leave.py:116-133 | A worker's leaves are narrowed to the scope and never refused |
| TenantLists.ApprovedAreListed | app/services/leave.py:135-146 | The calendar lists exactly the approved leaves of the visible companies with a day in the range |
| TenantLists.WorkerLeavesAreListed | app/services/leave.py:116-133 | A worker's list holds exactly that worker's leaves in scope with a day in the range |
| TenantLists.SearchedAreListed | app/services/leave.py:75-114 | A search holds exactly the leaves that meet every condition sent |
| TenantLists.BackwardRangeListsAround | app/services/leave.py:135-146 | A range that runs backwards lists exactly the leaves around the gap, although no day is in it |
| TenantLists.KiosksAreListed | app/services/kiosk.py:30-63 | A kiosk search holds exactly the kiosks that meet every condition sent |
| TenantLists.KiosksOfIsFiltered | app/services/kiosk.py:19-63 | The list of a company's kiosks is the search narrowed to that company |
| TenantLists.JobsAreLimitedAfterFiltering | app/services/document.py:522-536 | The limit is applied after the company filter |
| TenantLists.OthersDoNotShow | app/services/journal_schedule.py:56-66 | An id-ordered scoped list shows the same ids and the same rows whatever happens to other companies' rows |
| TenantLists.RunsOfOthersDoNotShow | app/services/document.py:522-536 | End to end: in no run do other companies' requests change the kiosks, schedules or jobs a charger sees, row for row |
| Paging.CeilingIsExact | app/core/pagination.py:67 | Under correctly rounded double division the ceiling of total/size is exact for every total and size below 2^53 |
| Paging.TotalPagesIsExact | app/core/pagination.py:59-76 | So the page count is the exact one, at least 1 |
| Paging.EnvelopeAgrees | app/core/response.py:62-80 | `PageResponse.of` recomputes the page that `Page.build` built |
| Paging.WalkIsComplete | app/core/pagination.py:27-76 | Following `has_next` from page 0 ends after exactly `total_pages` pages whose contents concatenate to the whole list |
| Paging.NextPageIffMoreRows | app/core/pagination.py:59-76 | There is a next page exactly when rows remain after this one, and a previous one exactly from the second on |
| ExceptionChain.IsReadOnlyViolation | app/core/exceptions.py:244-255 | Terminates on every finite graph, cycles included, and is true exactly if some exception on the chain has sqlstate 25006 |
| JournalSchedules.AcceptedTimesParse | app/services/journal_schedule.py:20-25 | A time the request pattern accepts never takes the 09:00 fallback and is read as the hour and minute it denotes |
| JournalSchedules.EveryTimeIsAccepted | app/schemas/journal_schedule.py:30 | The pattern leaves out no time of day: every hour and minute has a string that denotes it |
| JournalSchedules.NextRunIsTheLeast | app/services/journal_schedule.py:20-30 | The next run is the least instant not before now at that hour and minute, less than a day away |
| JournalSchedules.IsAtMeans | app/services/journal_schedule.py:20-30 | To be at a time of day is to lie that many hours and minutes after some midnight |
| JournalSchedules.JournalScheduleService.EndRequest | app/core/database.py:92-109 | Commits or rolls back the working copy |
| JournalSchedules.JournalScheduleService.Create | app/services/journal_schedule.py:68-85 | Adds the row as sent, with its next run, for an existing company |
| JournalSchedules.JournalScheduleService.Update | app/services/journal_schedule.py:87-126 | The exact new row, or the exact problem and what it leaves half-edited in the session |
| JournalSchedules.JournalScheduleService.Delete | app/services/journal_schedule.py:128-132 | Deletes in scope; a missing row is no error |
| JournalSchedules.JournalScheduleService.Serve | app/api/v1/work_journals.py:183-206 | The writing endpoints refine the handler the runs are made of: assertion of the company on creation, the service's own check otherwise |
| JournalSchedules.CreateMeans | app/services/journal_schedule.py:68-85 | Creation stores every field as sent, and the next run is the least instant at the time sent |
| JournalSchedules.UpdateMeans | app/services/journal_schedule.py:87-126 | Each field sent is stored in its own column and the others stay; a time sent moves the next run to the least instant at that time; what each frequency leaves in weekday and day |
| JournalSchedules.NextRunStaysAtTheSendTime | app/services/journal_schedule.py:87-126 | Over any updates the next run stays at the send time the row shows |
| JournalSchedules.HandleMeans | app/api/v1/work_journals.py:183-206 | Exactly when each writing endpoint is refused, which row it stores, and that a refusal edits at most the flag of the row asked for |
| JournalSchedules.AssignFrequency | app/services/journal_schedule.py:108-117 | Touches three fields; exactly the field the frequency needs is set, from the request, else the row, else the default, so any row with an admissible day becomes consistent |
| JournalSchedules.ConsistentOnceAFrequencyIsSent | app/schemas/journal_schedule.py:30-58 | After any accepted updates the fields match the frequency exactly when they did at creation or some update named a frequency; days stay within 1..28 |
| JournalSchedules.CreateCanBeInconsistent | app/services/journal_schedule.py:68-85 | Creation keeps an inconsistent request as it is |

## Assumptions

- bcrypt is a function of the first 72 bytes, injective on them; signing is injective; a token not made by this server
  does not verify. Usernames and roles never change and no service deletes a user.
- The reply of a request is what the service returned; the commit afterwards may still fail.
- A flush of a process list runs UPDATEs in id order, INSERTs, then DELETEs, each statement checked at once; the other flushes send one kind of statement.
- Primary keys are unique in the tables the bulk mail reads.
- A mail the provider refuses or does not answer is not delivered.
- A cached fill takes at most `delay` from its first read to its set, and a Redis command is applied at once or not at all.
- Decimal digits beyond ASCII, which the time pattern and `int()` both accept, are any table that agrees with ASCII.
- The bulk-mail runner is started at most once per committed job, as the endpoint does.
- A request to the modelled journal-schedule service has passed the patterns and bounds of its schema.

## Left out

- Routing, schema validation, roles, middleware, metrics, rate limiting and health checks: wrappers over libraries.
- bcrypt, HMAC and JWT byte formats; PDF, XLSX, HWP and ZIP bytes; e-mail, push, S3 and disk I/O: `render` and the mail provider are parameters.
- SQL text, ILIKE matching (a parameter of the lists) and lazy loading.
- `update_profile`: no session property depends on it.
- AuthService.AuthService.Login: does not model the `last_login` and FCM writes; no session property depends on them.
- AuthService.AuthService.SignupAsCaregiver: does not model the caregiver row, which commits or rolls back with the user.
- Redis commands applied after the client gave up, and Redis or database clocks that differ from the server's.
- `int()` on strings other than plain digits: it is only reached with what the time pattern lets through; the `sub` claim is an integer or not.
- Company and standard search, creation of a standard with its processes, and the plain readers: queries without state.
- Paging of searches ordered by a non-unique column (leaves by start date): the page walk needs a total order; `TenantLists.RunsOfOthersDoNotShow` covers the id-ordered lists.
- Page sizes and totals of 2^53 and more.
- Calendar conversion and daylight saving: days and instants are integers.
- The read-only variant of the bulk-mail endpoint, which records no job.
- How a request's scope is looked up (`get_company_scope`): the scope is a parameter.
- Foreign keys to chargers and actors, and the joins that only add names to a row.
- Boards, chargers, caregivers, worker profiles, seed scripts and deployment files: they would only add easy members.
- CatalogServices.JobStandardService.CommitSync: the new process list is a parameter here; what a sync computes is proved in ProcessSync and ProcessFlush.
- CatalogServices.JobStandardService.CommitRename: models the effect of a company update on cached standards, which show its name only; the update itself is CatalogServices.CompanyService.Update.
- BulkMailJobs.JobsOnlyAdvance: assumes one runner per job, as the endpoint starts it; `mark_sending` does not look at the status, so a second start would take a finished job back to SENDING.
