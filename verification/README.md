# Verification of the modern-mcs backend

A Dafny model of the stateful services of the backend and proofs of what they keep over whole runs.

* `session_machine.dfy` is the session service of `internal/auth/service.go` as a transition system: one event per
  critical section, so that logins, validations, logouts, revocations, listings, failing saves and restarts
  interleave freely. It holds the invariant.
* `session_runs.dfy` proves what every run keeps: durability of logins, finality of removals, the exact fate of
  sessions whose save failed, and the provenance of every accepted token.
* `session_linear.dfy` proves that `ValidateToken`, which takes the lock twice, behaves as one atomic step, and that
  purging expired sessions never changes an answer.
* `session_store.dfy` is the Postgres session store with its DELETE and INSERT transaction.
* `auth_service.dfy` is the service as a class that changes its map in place. Each method writes what it did into a
  ghost history, which `Valid()` keeps to be the history of a run of the machine; `state` is where that run ended, so
  `state.disk` is the durable copy and `state.mem` the map.
* `user_store.dfy`, `password_policy.dfy`, `profiles.dfy`, `profile_services.dfy`, `migrations.dfy`, `parsers.dfy`
  and `server.dfy` are the user stores, the password policy, both SQL-profile services, the migration status, the
  header and path parsers, and the HTTP handlers over them.
* `listing.dfy` (a Go map walked in any order), `sorting.dfy` (`sort.Slice`), `text.dfy` (Go's `strings`),
  `faults.dfy` (how a database statement may go) and `options.dfy` serve the others.

## What is taken as given

* Times are integers and the clock does not go back. A method takes its clock readings as parameters.
* Random tokens and ids are parameters; a drawn token or session id has not been drawn before and is not empty.
* SHA-256 is an arbitrary function. No injectivity is assumed: where a digest matters, results say "exactly the
  passwords with this digest". Start-up and the HTTP server assume that no digest is the empty string.
* A whole-map session save may fail with the old content in place or, as seen by the caller, with the new content
  already in place; every result about sessions covers both. For the JSON files of profiles, users and migrations a
  failed write leaves the old content.
* One server process per store; a restart loses what was in memory and the calls in progress, nothing else.
* Strings are sequences of Unicode characters. Case folding and lower-casing cover ASCII letters; no other
  character folds to a letter of `bearer` or `admin` or lower-cases to a letter of a database type.
* Class `AuthService` uses the file user store, whichever session store it has.

## What turned out not to hold as one would expect

* A session whose `Logout` or revocation reported a failed save comes back at the next restart exactly when no later
  save took hold (`UnsavedRemovalReturnsIff`; `UnsavedLogoutReturns` is a run in which it does). A session whose
  `Login` reported a failed save can appear the same way (`FailedLoginAppearsIff`, and `FailedLoginAppears` for a
  run). The logout handler reports such a failure as a bad token, status 401 (`Server.Server.HandleLogout`).
* The user file does not hold password hashes, so after a restart on a user file every account in it is locked out,
  the bootstrap account included (`AuthService.StartUp`), and no sequence of requests lets it in again or gives it a
  new password (`Server.LockedOutForever`).
* A `ChangePassword` that fails has changed the password all the same exactly when policy, token and old password were
  good, the user file could not be written, and the two passwords have different digests
  (`AuthService.AuthService.ChangePassword`; `FailedWriteSetsPassword` is a case). The HTTP answer is then 500 with
  the new password in force (`Server.Server.HandleChangePassword`).
* A refused call to the Postgres profile service has changed the table exactly when it had something to change, ran,
  and its answer was lost (`PgRefusalKeepsTableIff`, `PgRefusalMayChange`). The two profile services differ exactly
  on ids with white space around the id of a stored profile (`ServicesAgreeIff`, `PaddedIdsDisagree`).
* `SetApplied` on the migration state file can lose the name of an overlapping call (`OverlapLosesAName`). A run of
  such calls never loses a name if and only if every write that goes through while another writing call is between
  its load and its save is of a name that call has already loaded or writes itself (`NamesKeptIff`).

## Model

| member | source | states |
|---|---|---|
| SessionMachine.InvStep | internal/auth/service.go:108-333 | every critical section, with any fate of its save, keeps memory a part of the durable copy, that a part of what was ever issued, tokens and ids unique, and every call in progress consistent with the history |
| SessionMachine.ReachableMapsWellFormed | internal/auth/service.go:92-113 | in memory and on disk, every key is its session's token, no token is empty and no id repeats |
| SessionMachine.FailedLoginRestores | internal/auth/service.go:108-115 | a login whose save failed leaves the map exactly as it was |
| SessionRuns.RunInv | internal/auth/service.go:241-333 | the invariant holds in every state of every run, across save failures, interleavings and restarts |
| SessionRuns.LoginSurvives | internal/auth/service.go:108-118 | an acknowledged login is in memory and on disk in every later state, over any failures and restarts, until a request takes it out or it expires |
| SessionRuns.AcknowledgedRemovalIsFinal | internal/auth/service.go:139-150 | a session whose logout or revocation returned nil is never in memory or on disk again |
| SessionRuns.OrphanFate | internal/auth/service.go:311-333 | a session on disk but not in memory stays out of memory until a restart, and stays on disk exactly while no save takes hold |
| SessionRuns.UnsavedRemovalReturnsIff | internal/auth/service.go:145-149 | a session whose removal was not saved comes back at the next restart if and only if no save in between took hold |
| SessionRuns.UnsavedLogoutReturns | internal/auth/service.go:145-149 | a run of a login, an unsaved logout and a restart after which the session is in memory again |
| SessionRuns.FailedLoginAppearsIff | internal/auth/service.go:110-114 | a session whose login failed to save appears at the next restart if and only if that save had taken hold and no later one did |
| SessionRuns.FailedLoginAppears | internal/auth/service.go:110-114 | a run in which the session of a failed login is in memory after the restart |
| SessionRuns.StoredByCommit | internal/auth/service.go:108-115 | every session on disk was put there by the commit of the login that stamped exactly it |
| SessionRuns.Origin | internal/auth/service.go:82-118 | every session on disk goes back to one login: a user read with a matching password, a stamp that took that user's own id, name and roles and the clock of that moment, a life of one lifetime from there, and a commit whose save took hold |
| SessionRuns.CheckReadBefore | internal/auth/service.go:120-137 | a validation in progress holds the session its own read section found, and no restart came since |
| SessionRuns.Provenance | internal/auth/service.go:82-137 | every accepted token goes back to a login that committed its session before this read; the answer falls within the session's life, both ends included; no acknowledged removal came between commit and read |
| SessionLinear.AcceptedReadIsLive | internal/auth/service.go:120-137 | the session an accepting call read was live already when it was read |
| SessionLinear.PurgeIsAtomic | internal/auth/service.go:128-133 | the unconditional delete only ever removes an expired session, and equals an atomic look-up-and-expire at that moment |
| SessionLinear.EveryStepIsAtomic | internal/auth/service.go:120-137 | every run is, step by step, a run in which validations are instantaneous |
| SessionLinear.EveryCallHasItsInstant | internal/auth/service.go:120-137 | every finished validation has its instant within the call and among its own events: its read section when it accepts, its last section otherwise; the atomic answer there is the answer it returned |
| SessionLinear.EveryInstantHasItsCall | internal/auth/service.go:120-137 | every atomic validation of a run is the instant of a finished call, and of one call only |
| SessionLinear.PurgingIsInvisible | internal/auth/service.go:203-223 | at every moment of every run the purged map answers every token as a map that is never purged |
| SessionLinear.CallsAnswerAsIdeal | internal/auth/service.go:120-137 | what a finished validation returned is what the never-purging service answers at that call's own instant |
| SessionStore.PostgresSessionStore.InsertAll | internal/auth/session_store_postgres.go:87-98 | in any map order, the loop builds the rows of the map exactly when ids are distinct and no insert breaks |
| SessionStore.PostgresSessionStore.Save | internal/auth/session_store_postgres.go:76-104 | all or nothing: the table holds the map's rows or is untouched, and which of the two follows from the place of the failure |
| SessionStore.PostgresSessionStore.Load | internal/auth/session_store_postgres.go:46-74 | one session for each row, keyed by the token column, with every field from its own column |
| SessionStore.RowsMirror | internal/auth/session_store_postgres.go:87-95 | every session is saved with each of its fields in its own column |
| SessionStore.LoadAfterSave | internal/auth/session_store_postgres.go:46-95 | loading what was saved gives the same map if and only if every key is its session's token |
| SessionStore.SaveAfterLoad | internal/auth/session_store_postgres.go:46-95 | saving what was loaded gives the same table |
| SessionStore.ClashMeansRepeat | internal/auth/session_store_postgres.go:31-33 | the unique constraint turns a save away only if an id repeats in the map |
| UserStore.ReloadFades | internal/auth/store_file.go:53-95 | writing the users in any order and reloading gives the same users minus blank names, every hash erased |
| UserStore.LoadRecordsExact | internal/auth/store_file.go:66-74 | a name has a user exactly when it is not blank and some entry has it; the id and roles are those of the last such entry |
| UserStore.LoadedUsersHaveNoHash | internal/auth/types.go:5-10 | no user read from the file has a password hash |
| UserStore.FileUserStore.Load | internal/auth/store_file.go:53-76 | loads the file entry by entry; absent or empty is no error, undecodable is |
| UserStore.OpenUserStore | internal/auth/store_file.go:20-33 | a store opens exactly over a path that is not blank and a file that can be read, and holds the file's users |
| UserStore.FileUserStore.Put | internal/auth/store_file.go:46-51 | the map changes even when the write fails; after a good write the file reloads as the faded users |
| UserStore.FileUserStore.PersistLocked | internal/auth/store_file.go:78-95 | writes every user once, in some order, or leaves the file; what was written reloads as the faded users |
| UserStore.LookupExact | internal/auth/store_postgres.go:42-63 | with unique names, a name answers with its own row |
| UserStore.UpsertLookup | internal/auth/store_postgres.go:75-82 | an upsert keeps ids and names unique, answers its name with the new user and changes no other name's answer |
| UserStore.PostgresUserStore.GetByUsername | internal/auth/store_postgres.go:42-63 | finds exactly the user of the trimmed name; an error exactly for a name that is not blank when the query fails |
| UserStore.PostgresUserStore.Put | internal/auth/store_postgres.go:65-88 | goes through exactly when the fields are there, the id is nobody else's and the statement is answered; the table changes exactly when the statement ran on good fields |
| PasswordPolicy.ValidatePasswordPolicy | internal/auth/service.go:176-201 | the flag loop accepts exactly the trimmed passwords of 12 to 128 bytes with a character of each kind |
| PasswordPolicy.Utf8LengthExact | internal/auth/service.go:180-182 | the length counts the bytes of each character's UTF-8 encoding (section 3 of RFC 3629) |
| AuthService.AuthService.EverySessionHasALogin | internal/auth/service.go:82-118 | every session the object holds was made by one login in the object's history, from the user record read there with a matching password: its user id, name and roles are that record's, field by field, and its life starts at the stamp |
| AuthService.AuthService.PersistSessionsLocked | internal/auth/service.go:311-333 | the durable copy becomes the map or stays, by store, file or neither |
| AuthService.AuthService.LoadSessionState | internal/auth/service.go:275-309 | on success memory is the durable copy and the machine has restarted; on failure nothing changed |
| AuthService.AuthService.CheckCredentials | internal/auth/service.go:83-90 | yields the user exactly when name and digest match |
| AuthService.AuthService.Login | internal/auth/service.go:82-118 | succeeds exactly when credentials match, a token was drawn and the save held, with a session of the user's own id, name and roles that lives from now for one lifetime; otherwise the sessions are as before |
| AuthService.AuthService.StoreSession | internal/auth/service.go:97-118 | inserts, saves and takes back on failure, as three machine events of one login |
| AuthService.AuthService.ValidateToken | internal/auth/service.go:120-137 | accepts exactly a stored session up to and including its expiry and answers with it, removes only an expired session, and saves only then |
| AuthService.AuthService.Logout | internal/auth/service.go:139-150 | removes the token's session for good in memory, and reports the fate of the save (RevokeToken has the same text) |
| AuthService.AuthService.FindById | internal/auth/service.go:258-264 | in any map order finds the one session with the id; the empty string means exactly that there is none |
| AuthService.AuthService.RevokeSessionByID | internal/auth/service.go:254-273 | removes the session with the id and no other, and reports the fate of the save |
| AuthService.AuthService.PurgeAndCollect | internal/auth/service.go:203-223 | deleting while walking, returns each session that has not expired once and leaves exactly those |
| AuthService.AuthService.ListSessions | internal/auth/service.go:203-223 | exactly the sessions that have not expired stay and are listed, with a save exactly when something was purged |
| AuthService.AuthService.ListSessionViews | internal/auth/service.go:225-239 | one view per session that has not expired, with every field but the token, and pairwise different ids |
| AuthService.AuthService.RevokeEach | internal/auth/service.go:254-273 | ids of stored sessions revoked one after the other in any order: each call returns nil while saves hold, and exactly those sessions go |
| AuthService.AuthService.ListThenRevoke | web/src/pages/SessionsPage.tsx:14-45 | a listing, then revocations of any of the listed sessions: every one returns nil while saves hold, and what is left are the unexpired sessions that were not chosen |
| AuthService.AuthService.ChangePassword | internal/auth/service.go:152-174 | each answer exactly for its inputs; with good policy, token and old password exactly the passwords with the new digest log the user in, written or not, and other users and all sessions are untouched; a failed call leaves the users alone exactly when an input was bad or the digests agree |
| AuthService.FailedWriteSetsPassword | internal/auth/service.go:169-172 | a case of a change that reports a failure and has replaced the password |
| AuthService.AuthService.EnsureBootstrapUser | internal/app/app.go:79-99 | adds the bootstrap user when its name is free, and otherwise leaves the stored record |
| AuthService.OpenFileService | internal/app/app.go:63-77 | builds the service over what earlier processes left; fails exactly on a bad configuration or a damaged file |
| AuthService.StartUp | internal/app/app.go:58-99 | fails exactly on a blank path, a damaged file, a bad configuration or an unwritable bootstrap user; the only account that can log in afterwards is a bootstrap account that was not in the user file, which is an admin; accounts from the file have no hash |
| Profiles.NormalizeIsNormal | internal/sqlprofile/service.go:68-69 | a valid profile normalises to a normal form |
| Profiles.NormalFormIsFixed | internal/sqlprofile/service.go:210-231 | a normal form passes validation and is left alone by normalisation |
| Profiles.NormalizeIdempotent | internal/sqlprofile/service.go:120-121 | normalising twice is normalising once, for every profile |
| Profiles.StepKeepsWellFormed | internal/sqlprofile/service.go:54-153 | every call keeps profiles stored under their own ids in normal form, created no later than modified |
| Profiles.ServicesKeepWellFormed | internal/sqlprofile/service_postgres.go:52-178 | both services keep that form, whatever breaks |
| Profiles.ReachedProfilesAreNormal | internal/sqlprofile/service.go:54-153 | from an empty store, every profile ever held is in normal form, whichever writes failed |
| Profiles.ReachedRowsAreNormal | internal/sqlprofile/service_postgres.go:52-178 | from an empty table, so is every row of the Postgres service, under any sequence of faults |
| Profiles.StepChangesOneProfile | internal/sqlprofile/service.go:106-153 | a refused call changes nothing, any other at most the profile it names; an update keeps id and creation time |
| Profiles.SelfUpdate | web/src/pages/SQLProfilesPage.tsx:31-42 | sending a stored profile back changes its modification time only |
| Profiles.PgRefusalKeepsTableIff | internal/sqlprofile/service_postgres.go:121-178 | a refused call leaves the table alone unless its answer was lost and the call was a new creation, the deletion of a stored profile, or an update with other content or another time |
| Profiles.PgRefusalMayChange | internal/sqlprofile/service_postgres.go:160-178 | a refused deletion after which the profile is gone |
| Profiles.ServicesAgreeIff | internal/sqlprofile/service_postgres.go:102-178 | the services give the same reply and map for a call, except exactly when its id has white space around a stored id |
| Profiles.PaddedIdsDisagree | internal/sqlprofile/service_postgres.go:102-119 | with one space in front of a stored id Postgres finds the profile and the file service does not |
| Profiles.SameRuns | internal/sqlprofile/service_postgres.go:52-178 | on every regular sequence of calls both services give the same replies and end with the same profiles |
| Profiles.PickLists | internal/sqlprofile/service.go:183-186 | the values in any map order are a listing, each profile once |
| Profiles.LoadListExact | internal/sqlprofile/service.go:155-177 | an id is loaded exactly when it is not empty and some entry has it, and the last such entry is what it stands for |
| Profiles.LoadAfterPersist | internal/sqlprofile/service.go:155-200 | writing the values in any order and loading them rebuilds the identical map |
| Profiles.ListingDetermined | internal/sqlprofile/service.go:84-94 | sorted listings of one map are equal when creation times differ |
| ProfileServices.CloneProfiles | internal/sqlprofile/service.go:202-208 | the copy equals the map |
| ProfileServices.SortedValues | internal/sqlprofile/service.go:183-187 | every profile once, in order of creation |
| ProfileServices.FileProfileService.LoadState | internal/sqlprofile/service.go:155-177 | memory becomes what the file holds |
| ProfileServices.FileProfileService.PersistLocked | internal/sqlprofile/service.go:179-200 | the file becomes a sorted listing that loads as the map, or stays |
| ProfileServices.FileProfileService.Create | internal/sqlprofile/service.go:54-82 | adds, under the drawn id and created now, a profile with exactly the submitted fields, name and type in their stored spelling, or changes neither map nor file; the file always reloads as the map |
| ProfileServices.FileProfileService.Get | internal/sqlprofile/service.go:96-104 | the stored profile of the id, or not found |
| ProfileServices.FileProfileService.Update | internal/sqlprofile/service.go:106-138 | gives the stored profile the submitted fields and keeps its id and creation time, or changes neither map nor file; each refusal exactly for its cause |
| ProfileServices.FileProfileService.Delete | internal/sqlprofile/service.go:140-153 | removes exactly the profile of the id, or changes neither map nor file |
| ProfileServices.FileProfileService.List | internal/sqlprofile/service.go:84-94 | a permutation of the profiles sorted by creation time |
| ProfileServices.Restart | internal/sqlprofile/service.go:39-52 | a new service over the file a valid one left behind holds the same profiles |
| ProfileServices.PgProfileService.Create | internal/sqlprofile/service_postgres.go:52-77 | inserts one row with exactly the submitted fields under the drawn id exactly when the statement runs on a valid profile and a free id; found only when it was answered |
| ProfileServices.PgProfileService.Get | internal/sqlprofile/service_postgres.go:102-119 | the row of the trimmed id, not found, or the failure of the query |
| ProfileServices.PgProfileService.Update | internal/sqlprofile/service_postgres.go:121-158 | UPDATE then read-back give the row of the trimmed id the submitted fields, keep its id and creation time, and answer with that row |
| ProfileServices.PgProfileService.Delete | internal/sqlprofile/service_postgres.go:160-178 | deletes exactly the row of the trimmed id when the statement runs, not found when there is none |
| ProfileServices.PgProfileService.List | internal/sqlprofile/service_postgres.go:79-100 | every readable row once, in order of creation; nothing when the query fails |
| Migrations.ListingUnique | internal/migrations/service.go:62-83 | a directory has one listing only |
| Text.LessExact | internal/migrations/service.go:81 | the order of names: a proper prefix comes first, otherwise the first difference decides |
| Migrations.MigrationService.List | internal/migrations/service.go:62-83 | exactly the .sql files, each once, each name before the next in byte order; an error exactly when the directory or one of them cannot be read |
| Migrations.MigrationService.Status | internal/migrations/service.go:85-107 | List's entries in List's order, each with name and checksum of a directory entry, called applied exactly when the store has the name, with the store's time; an error exactly when one of the two fails |
| Migrations.MigrationService.MarkApplied | internal/migrations/service.go:109-125 | succeeds exactly for an existing single .sql element that can be looked up when the store can be written, and sets that name only |
| Migrations.MarkFlipsOneEntry | internal/migrations/service.go:85-125 | between a report and the report after a mark, the one entry with the marked name becomes applied, if the directory has such a migration, and all else is the same |
| Migrations.MigrationService.StatusAroundMark | web/src/pages/MigrationsPage.tsx:14-45 | the same of the calls: Status, MarkApplied, Status |
| Migrations.FileAppliedStore.SetApplied | internal/migrations/service.go:153-160 | load, change one entry, write back |
| Migrations.PgAppliedStore.SetApplied | internal/migrations/service.go:218-228 | one upsert, which may have run although the call reports an error |
| Migrations.UpsertsOnlyAdd | internal/migrations/service.go:218-228 | any interleaving of upserts grows the applied set by exactly the names of those that ran |
| Migrations.NamesKeptIff | internal/migrations/service.go:153-177 | for every run of interleaved calls: the names in the file never get fewer between two moments if and only if each write that goes through while another writing call is under way is of a name already in the file that call loaded, or of its own name |
| Migrations.OverlapLosesAName | internal/migrations/service.go:153-177 | two overlapping calls succeed and the first name is lost |
| Migrations.SerialCallsOnlyAdd | internal/migrations/service.go:153-177 | over every run of serialised calls no name is lost |
| Parsers.BearerExact | internal/httpserver/server.go:550-556 | the parser accepts exactly "scheme SP rest" with scheme bearer in any case and a rest that is not blank (section 2.1 of RFC 6750) |
| Parsers.BearerRoundTrip | web/src/api/client.ts:17-19 | parsing the printed header gives the token back exactly for trimmed, non-empty tokens, so for every issued one |
| Parsers.SessionPathRoundTrip | internal/httpserver/server.go:273-278 | parsing the printed path gives the id back exactly for trimmed, non-empty ids without a slash, so for every issued one |
| Parsers.MigrationPathRoundTrip | internal/httpserver/server.go:459-469 | parsing the printed path gives the name back exactly for non-empty names without a slash |
| Parsers.ParsedNamesAreSafe | internal/httpserver/server.go:459-469 | which paths reach the migration service, and that the name is one path element |
| Parsers.FindRole | internal/httpserver/server.go:541-548 | finds the role exactly when some role equals it, trimmed and ignoring case |
| Parsers.ProfilePathRoundTrip | internal/httpserver/server.go:341-345 | the profile id is the rest of the path as it stands, for exactly the non-empty ids without a slash |
| Text.EqualFoldExact | internal/httpserver/server.go:541-556 | roles and schemes are compared letter by letter, ignoring the case of the 26 ASCII letters and nothing else |
| Text.TrimExact | internal/httpserver/server.go:541-556 | trimming takes the white space at both ends and nothing else |
| Server.Server.RequireSession | internal/httpserver/server.go:516-539 | lets exactly the live bearers with the role through and changes nothing then; otherwise the status of the refusal |
| Server.GateExact | internal/httpserver/server.go:516-539 | 200 exactly for a token of a stored session that has not expired and has the role, 401 exactly without such a token, 403 exactly without the role |
| Server.Server.HandleLogin | internal/httpserver/server.go:102-148 | opens a session exactly for good credentials, a drawn token and a save that held, and answers with that session: the user's own id, name and roles |
| Server.Server.HandleLogout | internal/httpserver/server.go:168-190 | removes the bearer's own session; 204 exactly for a live token and a save that held, 401 otherwise |
| Server.Server.HandleMe | internal/httpserver/server.go:150-166 | 200 with every field of the bearer's session but the token, exactly for a live token |
| Server.Server.HandleChangePassword | internal/httpserver/server.go:192-238 | 204 and 500 exactly for a live bearer with the old password and a good new one, by the fate of the write; in both cases exactly the passwords with the new digest log that user in; 400 exactly for a policy failure; otherwise 401 and no user changes |
| Server.Server.HandleSessions | internal/httpserver/server.go:242-257 | an admin sees exactly the sessions that have not expired, each once; nobody else sees anything |
| Server.Server.HandleSessionItem | internal/httpserver/server.go:259-292 | an admin revokes exactly the session of the path's id |
| Server.Server.HandleProfiles | internal/httpserver/server.go:296-329 | past the gate, GET lists every profile once, oldest first, and changes nothing; POST adds one profile with the submitted fields or changes nothing, each status exactly for its cause |
| Server.Server.HandleProfileItem | internal/httpserver/server.go:331-396 | past the gate, GET answers with the stored profile and changes nothing, PUT gives it the submitted fields, DELETE removes it and no other; 400, 404, 405 and 500 exactly for their causes, with no change |
| Server.Server.HandleMigrations | internal/httpserver/server.go:402-445 | past the gate, the directory listing, or that listing with each entry applied exactly when the store has its name |
| Server.Server.HandleMigrationItem | internal/httpserver/server.go:445-478 | past the gate, marks exactly the path's migration |
| Server.Server.Handle | internal/httpserver/server.go:77-99 | whatever the request: data changes only by an admin's POST, PUT or DELETE made for it, sessions end only by expiry, own logout or admin revocation, users change only by their bearer, and accounts without a hash stay locked |
| Server.Server.Converse | internal/httpserver/server.go:77-99 | handling any request carries a conversation on, so the results about conversations are about every sequence of handled requests |
| Server.DataChangesNeedAnAdmin | internal/httpserver/server.go:295-478 | if profiles or applied migrations differ between two moments of any sequence of requests, some writing request in between carried a live admin's token and succeeded |
| Server.SessionsEndForAReason | internal/httpserver/server.go:168-292 | a session gone at the end of any sequence of requests expired, was logged out with its own token, or was revoked by an admin at one of them |
| Server.LockedOutForever | internal/httpserver/server.go:102-238 | an account without a password hash keeps its record over every conversation: no login with its name succeeds and no request gives it a password, live sessions or not |

## Left out

- Real file and database access, JSON and SQL text, timestamp rounding and formatting: replaced by values, tables and failure parameters.
- SHA-256, random generation and constant-time comparison: parameters, see above.
- Partial file writes and several server processes on one database: outside the single-process design.
- The HTTP library, URL escaping and route matching, request ids, audit logging, static hosting: no state the properties need. A request carries the handler it reaches.
- The in-memory user store: it is the file store without the file.
- The Postgres start-up, and the session service over the Postgres user store: class `AuthService` uses the file user store; the Postgres user store is verified on its own.
- The Postgres profile service and applied-migrations store behind the HTTP handlers: the server class holds the file-backed ones.
- AuthService.AuthService.Login: the class runs its calls one after the other; interleaving is covered by the machine, whose events the class records.
- PasswordPolicy.ValidatePasswordPolicy: the Unicode character tables are parameters, and passwords are valid UTF-8.
