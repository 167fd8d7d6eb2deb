# Verified models of p3portal's core logic

p3portal is a web portal over Proxmox. Most of it forwards requests, but a few parts carry
algorithms and protocols of their own. This project models those parts in Dafny and proves what
they promise, for every input or every run. `dafny verify dfyconfig.toml` checks everything.

| files | what they model |
|---|---|
| `Text`, `PosixPath` | Python's `split`, `join`, `strip`, `partition`, decimal integers; `pathlib` parts and `posixpath` join, normpath, commonpath |
| `ZipNames`, `ZipExtract` | the ZIP guard: a lexical check on the *cleaned* entry name, a target built from the *raw* one, and the whole extraction on a tree-shaped disk |
| `License`, `LicenseProtocol`, `LicenseRuns`, `LicenseEndpoints`, `Dispatch` | licence status, its 60-second cache in every process, the admin requests, and the routing of Plus hooks, as one state machine over any number of processes |
| `RateLimit`, `Challenge` | the sliding-window login limiter and the second-factor attempt counter, each compared with one that never forgets |
| `Utf8`, `LogTail` | the log-tailing loop against an arbitrary schedule of writers |
| `Schema`, `Migration`, `MigrationProofs`, `MigrationSuccess`, `MigrationRun`, `MigrationRepeat`, `MigrationMeaning` | the in-place schema migration as SQL statements on small relational tables, for both dialects: what it keeps, when it succeeds, what is left when a statement fails, what a second start-up comes to, and what it all means in the names of the schema |
| `Bits`, `Addresses`, `Allowlist` | netmasks, the two address classifiers, wildcard host patterns |
| `FirewallUsage`, `BackupFanOut`, `Retention`, `HaRules` | the usage search, the backup fan-out, and the text codecs |

Conventions. Code that updates state in place is a class or a method with loops, proved against a
function on values; the laws are lemmas about that function. Exceptions are result values. What
the model cannot see is a parameter: character classes, `str.lower`, the address parser,
cryptography, ISO dates, network reads and requests. Times are integers of microseconds in the
limiters and reals of seconds in the licence cache.

Results where the code meets its promise only under a condition; the condition is proved exact:

* Under a root that starts with two slashes `commonpath` refuses every entry the lexical ZIP check
  accepts; on all other roots the two checks agree. This concerns the helper alone: extraction
  passes a resolved path, which on POSIX never starts with two slashes.
* A valid key licence is never turned into a trial when one process takes all admin requests, as the
  single web process that `entrypoint.sh` starts does. With two it can be: a start overwrites a valid
  key licence exactly when the asking process still has a fresh cache without one.
* Within the second after its expiry instant a pre-auth token still decodes while its attempt
  counter is already dropped, because decoding compares whole seconds and the cleanup does not. A
  wrong code can be the sixth failure of an otherwise timely run exactly when it falls in that second;
  in general a token has at most five failures and one more for each such request.
* The log reader advances by the length of the text after newline translation. Every schedule that
  ends with a given log is delivered exactly when the log holds no carriage return followed by a
  line feed; otherwise the reader falls behind, and the next turn repeats text the viewer already has
  or ends in the middle of a character.
* A firewall usage answer without the incomplete flag is documented to cover all nodes and all guests.
  Whatever the reads return, it does exactly when a list could not be read (then the flag is raised)
  or every listed item has one the search goes to that speaks of the same place; an offline node, or
  a guest without an integer VMID or a node, is skipped without a flag.
* The setup classifier blocks every loopback, link-local, multicast and unspecified address, in either
  version or mapped form, with the single exception of "::".
* The first run of the migration loses nothing exactly when, on SQLite, the tables it copies have
  only the known columns and all pins are of the old kinds; PostgreSQL never loses anything.
* The two dialects agree on migrated announcements exactly when the old table has no column of its
  own, because the SQLite copy keeps only the known ones.
* `*.d` means "d's labels are a suffix of the host's" for all hosts exactly when d has no leading dot.
* HA rule nodes survive printing and parsing exactly when no name holds a comma or a colon.
* A hosted guest is backed up exactly when the coverage test says so, unless the text is "all".

## Model

| member | source | states |
|---|---|---|
| `ZipNames.AcceptedTargetIsBelowRoot` | backend/services/_zip_safety.py:26-113 | if the check on the cleaned suffix accepts, the target built from the raw suffix has exactly the root's components followed by the suffix's, all plain names; the second check agrees iff the root has one leading slash |
| `ZipNames.ParentSurvivesCleaning` | backend/services/_zip_safety.py:36-45 | stripping and replacing backslashes cannot hide a ".." component of the raw name |
| `ZipNames.SafeRawName` | backend/services/_zip_safety.py:26-50 | an accepted name is, raw, non-empty, relative and free of ".." components |
| `ZipNames.SafeIff` | backend/services/_zip_safety.py:26-50 | accepted exactly when the stripped, slash-normalised name is not empty, starts with no slash and has neither ".." nor a drive-letter prefix among its components |
| `ZipNames.VerdictByPosition` | backend/services/_zip_safety.py:26-50 | by the characters of the stripped name: refused are exactly blank names, a slash or backslash in front, and ".." or a letter and a colon anywhere between slashes, backslashes and the ends; with the exact reason of the first two |
| `ZipNames.InsideRootIff` | backend/services/_zip_safety.py:53-60 | the second check by itself: under a root with one leading slash it accepts exactly the absolute paths whose components start with the root's |
| `ZipNames.ChecksDisagreeUnderDoubleSlash` | backend/services/_zip_safety.py:53-60 | a concrete root and entry on which the two checks disagree |
| `PosixPath.JoinNormalised` | backend/services/_zip_safety.py:107-109 | joining a suffix without ".." and normalising appends its components to the root's |
| `PosixPath.CommonPathBelow` | backend/services/_zip_safety.py:53-60 | `commonpath` of a root and a path below it is the root iff the root has one leading slash |
| `PosixPath.ParentTakesBack` | backend/services/_zip_safety.py:107-109 | normalising a path with "..": it takes back the component before it, has no effect at the root, and stays in front of a relative path |
| `ZipExtract.PlanIff` | backend/services/_zip_safety.py:83-121 | under an ordinary root, with names judged by their characters: an entry writes a file, makes a directory, is skipped or is refused for its name under exactly these conditions, at the root's components plus the suffix's; the escape refusal never fires |
| `ZipExtract.DoubleSlashRootRefusesEverything` | backend/services/_zip_safety.py:53-113 | under a root with two leading slashes nothing is ever created: every entry the lexical check accepts is refused as escaping |
| `ZipExtract.RunContained` | backend/services/_zip_safety.py:63-134 | every run, completed or stopped anywhere, leaves files outside the root unchanged, loses no directory and creates none outside but missing ancestors of the root |
| `ZipExtract.NothingOutsideExistingRoot` | backend/services/_zip_safety.py:63-134 | with an existing root nothing outside it appears or changes |
| `ZipExtract.RunProgress` | backend/services/_zip_safety.py:83-134 | a run completes all entries or stops at the first one it cannot process, a refused entry is the first refused, and the count is the number of files written |
| `ZipExtract.RunFiles` | backend/services/_zip_safety.py:115-132 | the last processed entry for a location decides its bytes; a location no processed entry writes is unchanged |
| `ZipExtract.FileSystem.MakeDirs` | backend/services/_zip_safety.py:115-121 | directory creation adds the location and its ancestors unless a file is in the way |
| `ZipExtract.FileSystem.CopyStream` | backend/services/_zip_safety.py:123-131 | the chunk loop leaves exactly the source bytes in the target and touches nothing else |
| `ZipExtract.ProcessEntries` | backend/services/_zip_safety.py:83-134 | the loop over the entries ends in the run's disk, count and stop reason |
| `ZipExtract.ExtractZipSafely` | backend/services/_zip_safety.py:63-134 | the extraction realises the run: contained, exact contents at every location, and the number of file entries as result |
| `License.PayloadDeterminesFields` | backend/core/license.py:109-110 | without the separator in a field, equal MAC payloads force equal fields up to None and empty |
| `License.AcceptedPayloadFixesExpiry` | backend/core/license.py:157-227 | two accepted records with equal payloads agree on the expiry itself, the id and the edition |
| `License.BarBreaksPayload` | backend/core/license.py:109-110 | two different records share a payload once a field holds the separator |
| `License.KeyValidIff` | backend/core/license.py:157-227 | a key file is valid iff authentic and not past a readable expiry, so validity is lost once and for all; only then is there no reason text |
| `License.RefusalReasonIff` | backend/core/license.py:157-227 | the exact condition of each refusal: a readable expiry in the past first, tampering a bad MAC on a file whose key opens the token, everything else a failed decryption |
| `License.KeyStatusFields` | backend/core/license.py:86-97 | a record's status repeats its contacts and expiry, carries no trial flag, and has its edition, "plus_v1" when absent, "core" for an unreadable expiry or a valid "basis" |
| `License.PayloadSpells` | backend/core/license.py:109-110 | the text under the MAC is id, edition, expiry, name and e-mail in this order with bars between, absent ones empty |
| `License.LicenseCache.GetLicenseStatus` | backend/core/license.py:230-243 | a cache under 60 seconds old answers, otherwise the present status is loaded, stored and answered |
| `License.LicenseCache.Reset` | backend/core/license.py:250-257 | the cache is empty again |
| `LicenseProtocol.RunKeeps` | backend/routers/license.py:104-200 | every run keeps the protocol invariant |
| `LicenseRuns.RoutingIsLicensed` | backend/core/plus_protocol.py:1132-1182 | over every interleaving a gate call reaches Plus iff one was registered before and the licence was valid in a load of the same process under 60 seconds old, valued as the shared state of the run was around that load; a lifecycle call iff one was registered |
| `LicenseRuns.LogTellsStates` | backend/core/license.py:230-243 | over every run each load entry carries the shared state and the clock the run had before or after the step that made it, each trial entry the state it was written over |
| `LicenseRuns.AnswersAreRecent` | backend/core/license.py:230-243 | every status answered is that of the shared state the run had at an instant under 60 seconds earlier |
| `LicenseRuns.TrialStartsOnce` | backend/routers/license.py:137-177 | the trial start date is written at most once in any run |
| `LicenseRuns.TrialNeverOverKeyLicense` | backend/routers/license.py:145-157 | if every upload, deactivation and trial start reaches one process, then over every run the state before the step that starts a trial holds no valid key licence |
| `LicenseRuns.StartsOverKeyLicenseIff` | backend/routers/license.py:137-157 | whoever asks: a start overwrites a valid key licence iff the trial is unused and the process has a fresh cache without such a licence |
| `LicenseRuns.TwoAdminsTurnKeyIntoTrial` | backend/routers/license.py:104-157 | with two processes a query, an upload elsewhere and a start turn any valid key licence into a trial |
| `LicenseRuns.TrialStartsOnRecentStatus` | backend/routers/license.py:145-157 | when the start date is written, the status of a load under 60 seconds old was not that of a valid key licence |
| `LicenseRuns.ActiveTrialIsInWindow` | backend/core/license.py:118-154 | a load reports an active trial only without a key file and between the start date and 30 days later |
| `LicenseRuns.ExpiryIsFinal` | backend/core/license.py:118-165 | after a load reported an expired trial no later load is valid without a key file |
| `LicenseRuns.TrialUnlocks` | backend/core/license.py:118-154 | without a key file a started trial is valid exactly up to day 30 and expired after, and the status says "plus_trial" or "core", the flags and the last day |
| `LicenseRuns.MissingIff` | backend/core/license.py:118-140 | the licence is missing iff there is no key file and no used trial with a readable start date |
| `LicenseRuns.AdminSeesOwnEffect` | backend/routers/license.py:104-200 | an upload, deactivation or trial start answers with the status of the state it has just written |
| `LicenseRuns.EveryProcessConverges` | backend/core/license.py:230-257 | if the shared state rests for 60 seconds, the next answer of any process is its present status |
| `LicenseEndpoints.UploadLicense` | backend/routers/license.py:104-134 | the endpoint on mutable state takes the protocol's upload step and answers the new status |
| `LicenseEndpoints.DeactivateLicense` | backend/routers/license.py:180-200 | the endpoint takes the deactivation step, or refuses without a key file |
| `LicenseEndpoints.BeginTrial` | backend/routers/license.py:137-177 | the endpoint takes the trial step, or refuses and leaves the store alone |
| `Dispatch.BuildDispatchMethods` | backend/core/plus_protocol.py:1192-1213 | for any class body, generation succeeds iff every public method is stamped "gate" or "lifecycle", else names the first that is not; every public method, and nothing else, gets a wrapper, a gate one iff stamped "gate", a lifecycle one iff stamped "lifecycle" |
| `Dispatch.Dispatcher.CallByName` | backend/core/plus_protocol.py:1132-1182 | calling a method by name: one stamped "gate" reaches Plus iff an implementation is registered and the licence, as cached for under 60 seconds or else as just loaded, is valid; one stamped "lifecycle" iff one is registered |
| `Dispatch.Dispatcher.Call` | backend/core/plus_protocol.py:1132-1182 | a call through a wrapper takes the protocol's gate or lifecycle step |
| `Dispatch.Dispatcher.SetActive` | backend/core/plus_protocol.py:1151-1152 | registration takes the protocol's registration step |
| `RateLimit.Limiter.CheckRateLimit` | backend/routers/auth.py:48-57 | one check decides and updates as the limiter's step functions say |
| `RateLimit.PrunedAgrees` | backend/routers/auth.py:48-57 | the pruned list and the complete accepted history keep the same attempts at every later time |
| `RateLimit.DecidesAsFullHistory` | backend/routers/auth.py:48-57 | the limiter decides exactly as one with the complete history |
| `RateLimit.LockoutEnds` | backend/routers/auth.py:48-57 | a call is allowed iff fewer than five were accepted or the fifth-last is 60 seconds old |
| `RateLimit.AtMostFivePerWindow` | backend/routers/auth.py:43-57 | no address has more than five accepted attempts in a half-open window of 60 seconds |
| `RateLimit.ClosedWindowCanHoldSix` | backend/routers/auth.py:50-51 | a closed window can hold six, so the bound is about half-open ones |
| `RateLimit.RejectedChangesNoDecision` | backend/routers/auth.py:52-57 | taking a rejected attempt out of a run changes no later decision |
| `Challenge.ChallengeStore.Cleanup` | backend/routers/auth.py:184-186 | exactly the counters past their expiry instant go, the others stay as they are |
| `Challenge.ChallengeStore.LoginTwoFactor` | backend/routers/auth.py:198-236 | one request decides and updates as the step functions say |
| `Challenge.HandledEffect` | backend/routers/auth.py:198-236 | a success forgets the token's failures, a wrong code adds one, requests turned away earlier change nothing, and every other token keeps its count until it expires |
| `Challenge.DecodesIff` | backend/core/security.py:63-65 | a good token decodes until a whole second has passed since its expiry instant |
| `Challenge.CounterIsComplete` | backend/routers/auth.py:216-236 | until a token's expiry instant its stored count is that of a counter that never forgets |
| `Challenge.JudgedOnFullCount` | backend/routers/auth.py:216-223 | over every run, the verdict on a timely request, case by case, by its complete count: too many attempts iff five failures, logged in iff unlimited, well-formed, fewer than five failures, and user and code good |
| `Challenge.FailsAreBounded` | backend/routers/auth.py:180-236 | over every run a token has at most five failures since its last success, and one more for each decoded request past its expiry instant |
| `Challenge.AtMostFiveFails` | backend/routers/auth.py:180-236 | over every run without such late requests, at most five |
| `Challenge.SixthFailureIffLate` | backend/routers/auth.py:180-236 | a request can be the sixth failure of an otherwise timely run iff it is late, unlimited and has a wrong code |
| `Challenge.FullCounterStopsIffTimely` | backend/core/security.py:63-65 | a full counter stops a decoded request iff it is timely, and untimely ones lie within one second of expiry |
| `Challenge.OnlyUnexpiredRemain` | backend/routers/auth.py:184-236 | after a decoded, timely request only unexpired tokens are counted |
| `Utf8.DecodeEncode` | backend/routers/jobs.py:426-430 | strict UTF-8 decoding undoes encoding |
| `Utf8.EncodedExamples` | backend/routers/jobs.py:426-430 | the encoder agrees with the examples of RFC 3629 |
| `LogTail.TailLog` | backend/routers/jobs.py:412-443 | the polling loop ends, against every schedule of the writers, as the specified reader: chunks, messages, position and outcome |
| `LogTail.WorldAfterSchedule` | backend/routers/jobs.py:412-443 | what the writers leave: the log with every text appended around the turns, in order, and the status the last change set |
| `LogTail.TurnLeavesIff` | backend/routers/jobs.py:417-443 | a turn that can read the log ends the reader iff the status read was "success" or "failed", or the row was gone, announced as "failed" |
| `LogTail.DeliveredIffNoCrLf` | backend/routers/jobs.py:412-443 | every schedule that ends with a log is delivered (no decode error, all of it sent in its lines, at exit everything logged before the terminal status was read) iff the log holds no carriage return followed by a line feed |
| `LogTail.ScheduleDelivers` | backend/routers/jobs.py:412-443 | the same for one schedule, whose log is free of that pair |
| `LogTail.IdleTurnIsSilentIff` | backend/routers/jobs.py:425-432 | after one turn has sent a finished log, a second is silent iff the log holds no carriage return followed by a line feed; else the viewer gets further lines or decoding fails |
| `LogTail.FallingBehindBreaksDecoding` | backend/routers/jobs.py:426-430 | a finished log on which the second read cannot be decoded |
| `LogTail.SendNewLines` | backend/routers/jobs.py:425-432 | one read and its sends are the specified poll: position, chunk and messages advance together, or decoding fails |
| `LogTail.PollCatchesUp` | backend/routers/jobs.py:425-432 | one poll of a log without that pair sends exactly the rest and advances by its bytes |
| `LogTail.LinesCarryText` | backend/routers/jobs.py:431-432 | the text is its lines with one line break put back after each, none after an unterminated last one; no line holds a break |
| `LogTail.LinesReadBack` | backend/routers/jobs.py:431-432 | no other list of lines spells the text, so the boundaries sent are those of the log |
| `LogTail.LineBreaksAre` | backend/routers/jobs.py:431-432 | the line breaks, one by one |
| `LogTail.TranslatedAround` | backend/routers/jobs.py:426-428 | text mode turns each pair of carriage return and line feed into one line feed and translates what stands around it for itself |
| `LogTail.PositionKeepsUpIffNoCrLf` | backend/routers/jobs.py:426-430 | the position advances by the bytes read iff they hold no carriage return followed by a line feed |
| `MigrationRun.Connection.MigrateDb` | backend/db/database.py:192-469 | database, poisoning and result are the specified ones whatever fails; nothing is lost, the run is done iff every statement succeeds and raises iff a column cannot be added |
| `MigrationRun.Connection.ExecuteBlock` | backend/db/database.py:200-269 | a try block leaves the database of the statements before the first failing one |
| `MigrationRun.Connection.AddColumns` | backend/db/database.py:192-196 | the column loop adds what is missing up to the first failure |
| `MigrationRun.DoneIsMigrate` | backend/db/database.py:192-469 | a run is done iff every statement succeeds, and raises iff a column cannot be added |
| `MigrationRun.RunIsSafe` | backend/db/database.py:192-469 | done, swallowed or raised: every table, row and value of a known column is still there, every announcement has its severity, every pin of an old kind its place |
| `MigrationRun.StartUpsAreSafe` | backend/db/database.py:192-469 | the same over any number of start-ups with any results |
| `MigrationRun.RunEnforces` | backend/db/database.py:192-469 | done, swallowed or raised: if every constraint of every table held before a run, every constraint, old or new, holds after it |
| `Schema.ExecEnforces` | backend/db/database.py:213-467 | the same for each statement that succeeds |
| `Schema.DropColumnKeepsTheRest` | backend/db/database.py:248-267 | dropping the type column touches no row, no other column and no constraint that does not speak of it |
| `Schema.UniqueIsNeverKnownEqual` | backend/db/models.py:125-148 | the unique constraints and the partial index in three-valued logic: refused are only rows all of whose columns are known to be equal |
| `Schema.CheckIsNeverFalse` | backend/db/database.py:231-460 | a CHECK refuses a row only where it is false, so NULL passes |
| `MigrationRepeat.RunRepeatsItself` | backend/db/database.py:192-469 | on SQLite, for every column list and database, a second run on what the first left has the same result and changes nothing |
| `MigrationRepeat.BlockRepeatsItself` | backend/db/database.py:213-269 | the same for each block alone |
| `MigrationRepeat.InterruptedCopyStaysForGood` | backend/db/database.py:427-467 | databases on which a copy is interrupted, its empty table stays behind, and every later start-up ends the same way |
| `MigrationProofs.AddMissingWidens` | backend/db/database.py:192-196 | the column loop adds the listed columns and keeps every row, value and constraint |
| `MigrationProofs.NewColumnHasDefault` | backend/db/database.py:192-196 | a column that was not there has its listed default in every row |
| `MigrationProofs.NewAnnouncementsReplaceType` | backend/db/database.py:213-247 | the SQLite copy keeps all rows and the values of the known columns and makes type "error" severity "critical", "warn" "warn", anything else "info" |
| `MigrationProofs.AlteredAnnouncementsReplaceType` | backend/db/database.py:248-267 | the PostgreSQL alteration keeps all rows and all other columns and maps the types alike |
| `MigrationMeaning.AnnouncementsAfter` | backend/db/database.py:211-267 | after a successful run of either dialect: "error" has become "critical", "warn" and "info" are kept, every other type, NULL included, is "info"; a table that had severities, or no types, is as before |
| `MigrationMeaning.SeverityAfterAnyRun` | backend/db/database.py:211-267 | the same for every announcement once the type column is gone, whatever the run came to |
| `MigrationMeaning.AnnouncementTextAfterAnyRun` | backend/db/database.py:211-267 | whatever a run came to, announcements keep their text, dates and author |
| `MigrationMeaning.AssignmentsAfterAnyRun` | backend/db/database.py:271-386 | whatever a run came to, assignments keep all eight columns |
| `MigrationMeaning.AssignmentsAfter` | backend/db/database.py:271-386 | after a success a constraint over user, type, node and resource stands where the three-column one stood, and rows without a node are unique under an index of their own |
| `MigrationMeaning.PinsAfterAnyRun` | backend/db/database.py:427-467 | whatever a run came to, each pin of one of the eight old kinds is still there with all its columns |
| `MigrationMeaning.CopiedPin` | backend/db/database.py:440-463 | the columns of a copied pin, one by one |
| `MigrationMeaning.PinsAfter` | backend/db/database.py:427-467 | after a success some check of the pins allows "node_tab"; a replaced check allows it beside exactly the eight old kinds |
| `MigrationMeaning.NewSchemas` | backend/db/database.py:217-460 | of the copied tables: the columns that may be NULL and the unique keys |
| `MigrationProofs.DialectsAgreeIff` | backend/db/database.py:211-267 | both dialects give the same rows and columns iff the old table had only the known columns |
| `MigrationRepeat.OwnColumnSplitsDialects` | backend/db/database.py:211-267 | databases with an announcement column of their own, on which both dialects succeed and differ |
| `MigrationProofs.OldUniquenessSuffices` | backend/db/database.py:271-386 | the old three-column uniqueness implies the new constraint and the partial index |
| `MigrationProofs.ConstraintsMeanNoDuplicates` | backend/db/models.py:125-148 | the new constraint and the partial index together mean uniqueness with NULL as an ordinary value |
| `MigrationSuccess.OriginalAssignmentsMigrate` | backend/db/database.py:286-386 | on a table of the original schema the rebuild and the index creation succeed, on both dialects |
| `MigrationSuccess.OriginalShapeMigrates` | backend/db/database.py:108-469 | on every database of the original shape whose constraints hold the whole migration succeeds, on both dialects |
| `MigrationSuccess.PortalUpgrade` | backend/db/database.py:108-469 | with the portal's column list and a known shape: the first run succeeds and loses nothing, the second changes nothing |
| `MigrationSuccess.SomePortalUpgrades` | backend/db/database.py:108-469 | on both dialects some database is changed by a first run that succeeds and not by a second |
| `MigrationSuccess.StrayPinIsLost` | backend/db/database.py:427-467 | a database of the original shape from which a successful SQLite run drops a pin of an unknown kind |
| `MigrationProofs.OldPinsSurvive` | backend/db/database.py:427-467 | no pin whose kind passes the old check is lost |
| `MigrationProofs.SecondRunChangesNothing` | backend/db/database.py:108-469 | a second run of a successful migration succeeds and changes nothing |
| `MigrationProofs.PortalSecondRun` | backend/db/database.py:114-184 | the same for the portal's own column list |
| `MigrationProofs.FirstRunLosslessIff` | backend/db/database.py:108-469 | a successful first run keeps every table, row and value, with the announcement type turned into its severity, iff the database had a known shape: on SQLite no column the copies drop and only pins of the old kinds, on PostgreSQL any |
| `Bits.MaskIsInterval` | backend/core/http_client.py:50-63 | masking a prefix is membership in an interval, for every width, prefix and address |
| `Addresses.ContainsIsInterval` | backend/core/http_client.py:58 | being in a proper network is lying in its interval |
| `Addresses.Intervals4` | backend/core/http_client.py:20-47 | the interval of every listed IPv4 network |
| `Addresses.Intervals6` | backend/core/http_client.py:20-47 | the interval of every listed IPv6 network |
| `Addresses.MappedFormSameVerdict` | backend/core/http_client.py:50-86 | an IPv4 address and its mapped form get the same verdict from both classifiers |
| `Addresses.UnsafeIsPrivate` | backend/core/http_client.py:66-86 | every setup-unsafe address is private |
| `Addresses.ClassifiersDifferExactlyOnLan` | backend/core/http_client.py:20-86 | the classifiers differ exactly on the LAN ranges and the mapped forms of the IPv4 ones |
| `Addresses.NeverLanIsUnsafeIff` | backend/core/http_client.py:75-86 | a loopback, link-local, multicast or unspecified address, itself or as the mapped form of one, is setup-unsafe iff it is not "::" |
| `Addresses.UnspecifiedSixPasses` | backend/core/http_client.py:66-86 | neither classifier blocks "::" |
| `Addresses.VerdictsByNumber` | backend/core/http_client.py:20-86 | both verdicts by number: text that is no address is blocked, an IPv4 or IPv6 address in exactly the listed ranges, a mapped one where the IPv4 address inside is |
| `Allowlist.MatchesAllowlist` | backend/core/http_client.py:158-175 | the search accepts iff some pattern matches |
| `Allowlist.VerdictDependsOnPatternSet` | backend/core/http_client.py:158-175 | adding patterns never removes a match, and order does not matter |
| `Allowlist.WildcardIsLabelSuffix` | backend/core/http_client.py:168-171 | a wildcard matches by label suffix, for all hosts, iff its domain has no leading dot |
| `Allowlist.ExactPattern` | backend/core/http_client.py:164-174 | a pattern without a leading "*." matches exactly the host equal to its stripped lower-case text; a blank one none |
| `Allowlist.LStripDotsIs` | backend/core/http_client.py:168-171 | what is left of a domain without its leading dots starts with none |
| `FirewallUsage.MatchIsExact` | backend/routers/firewall.py:1710-1724 | for any source and destination fields: an alias matches iff its very name is among the stripped entries of one, an IP set iff its name after a plus sign is, a security group iff the type is "group" and the action its name, so no rule names two groups |
| `FirewallUsage.FieldIsSpelled` | backend/routers/firewall.py:1719-1724 | every field is spelled by some list of entries, so `MatchIsExact` covers all of them |
| `FirewallUsage.FindUsage` | backend/routers/firewall.py:1727-1832 | the fan-out reports the hits of every place in order, and flags itself incomplete iff a read failed |
| `FirewallUsage.UsageIsSound` | backend/routers/firewall.py:1727-1832 | every reported entry is a matching rule of a place the search goes to |
| `FirewallUsage.GroupUsageIff` | backend/routers/firewall.py:1716-1832 | of a security group are reported exactly the rules of type "group" with its name as action at the places that could be read, whatever their source and destination |
| `FirewallUsage.UsageIsComplete` | backend/routers/firewall.py:1727-1832 | unless incomplete, every place the search goes to was read and every matching rule there is reported |
| `FirewallUsage.UnflaggedCoversAllIff` | backend/routers/firewall.py:1043-1044 | answers without the flag cover every item of the three lists, whatever the reads return, iff a list was unread or every item has one the search goes to that speaks of the same place |
| `FirewallUsage.SkippedPlaceGoesUnnoticed` | backend/routers/firewall.py:1777-1832 | at any place the search does not go to, failing reads and matching rules leave the answer empty and unflagged |
| `FirewallUsage.OfflineNodeGoesUnnoticed` | backend/routers/firewall.py:1777-1781 | a node listed as offline is such a place |
| `FirewallUsage.ReportedPerListing` | backend/routers/firewall.py:1727-1832 | the entries of a place are its matching rules in order, once for every time it is listed |
| `FirewallUsage.HitAtPosition` | backend/routers/firewall.py:1735-1832 | a matching rule is reported between those before and those after it |
| `BackupFanOut.HostIsLast` | backend/routers/backup_jobs.py:395-400 | a VMID is known iff a resource with a node and this VMID, not zero, is listed, and its host is that of the last one |
| `BackupFanOut.GroupByNode` | backend/routers/backup_jobs.py:402-407 | exactly the hosting nodes of the requested VMIDs, in the order the request comes to them, each with its own VMIDs in order, no group empty |
| `BackupFanOut.EarlierNodesFirst` | backend/routers/backup_jobs.py:402-407 | a longer request only adds nodes behind those already there |
| `BackupFanOut.RequestedAroundComma` | backend/routers/backup_jobs.py:378-381 | a comma separates requests |
| `BackupFanOut.RequestedAlone` | backend/routers/backup_jobs.py:378-381 | a text without a comma requests itself, stripped, unless blank |
| `BackupFanOut.GroupsPartitionRequest` | backend/routers/backup_jobs.py:378-407 | requested equals grouped plus unknown, with multiplicities |
| `BackupFanOut.FanOutRun` | backend/routers/backup_jobs.py:378-422 | the backups started are those of the groups' nodes whose request succeeded, in order; one fallback request when the resource read fails |
| `BackupFanOut.StartedAre` | backend/routers/backup_jobs.py:409-422 | a backup is returned for exactly the nodes whose request succeeded, with their group's text |
| `BackupFanOut.SentTextSpellsGroup` | backend/routers/backup_jobs.py:409-412 | the text sent to a node spells exactly that node's VMIDs |
| `BackupFanOut.DispatchedIffCovered` | backend/routers/cluster.py:927-932 | a hosted guest is dispatched iff the job covers it, unless the text is "all" |
| `BackupFanOut.CoversIff` | backend/routers/cluster.py:927-932 | a job without a text, or with "all", covers every guest, any other text those it requests |
| `Retention.ToProxmoxParam` | backend/models/vms.py:215-226 | the printer realises the printing function |
| `Retention.FromProxmoxParam` | backend/models/vms.py:228-252 | the parser's loop realises the parsing function |
| `Retention.ParsePrinted` | backend/models/vms.py:215-252 | parsing a printed retention setting gives it back, for any fields and sizes |
| `Retention.PrintedItems` | backend/models/vms.py:215-226 | the printed text is the given fields, "keep-last=", "keep-daily=", "keep-weekly=" and "keep-monthly=" in this order with their numbers, joined by commas |
| `Retention.ParsedSetting` | backend/models/vms.py:228-252 | any text: parts may be padded, repeated, unknown or no numbers; the last part that says something of a field decides it, and a negative decision refuses the text |
| `HaRules.ValidResources` | backend/models/ha.py:171-184 | the stripped list iff all entries are valid and distinct, else the first offence by name |
| `HaRules.ValidSidIff` | backend/models/ha.py:171-184 | a valid resource id is "vm:" or "ct:" and at least one digit |
| `HaRules.CheckTypeFields` | backend/models/ha.py:186-203 | accepted iff the conditions of the rule's type hold, else refused with the error of the first that fails |
| `HaRules.ValidatedNodeIsValid` | backend/models/ha.py:122-131 | a node is accepted iff its stripped name is not empty and its priority, if any, is from 0 to 1000; kept are the stripped name and the priority |
| `HaRules.NodesParam` | backend/models/ha.py:205-210 | the printing loop joins one part per node |
| `HaRules.ParseRuleNodes` | backend/routers/ha.py:216-230 | the parsing loop realises the parsing function |
| `HaRules.ParseResourcesList` | backend/routers/ha.py:233-245 | the parsing loop realises the parsing function, for text and lists |
| `HaRules.ResourcesRoundTrip` | backend/routers/ha.py:233-245 | parsing the printed resources of a validated rule returns the same list |
| `HaRules.NodesRoundTripIffNoSeparators` | backend/routers/ha.py:216-230 | parsing the printed nodes of a validated rule returns them iff no name holds a comma or a colon |
| `HaRules.NodePartSpells` | backend/routers/ha.py:216-230 | any part of a node list: blank is nothing, a name without a colon a node, else name and priority, which is dropped unless it is a number |
| `HaRules.NodesAroundComma` | backend/routers/ha.py:216-230 | a node list is read part by part between the commas |
| `HaRules.SidPartSpells` | backend/routers/ha.py:233-245 | any part of a resource list: its stripped text without the prefix "service:" |
| `HaRules.ResourcesAroundComma` | backend/routers/ha.py:233-245 | a resource list is read between the commas of a text or entry by entry |
| `Text.StripPadded` | backend/services/_zip_safety.py:36-36 | stripping takes off exactly the white space around a text |
| `Text.AsciiSpaces` | backend/services/_zip_safety.py:36-36 | which characters below 128 count as white space |
| `Text.DecimalIsCanonical` | backend/models/vms.py:215-226 | a printed number is the one digit string of its value without a leading zero |
| `Text.ParseSigned` | backend/models/vms.py:228-252 | one sign and digits with single underscores are read as the number they spell |
| `Text.ParseGroups` | backend/models/vms.py:228-252 | the same without a sign |
| `Text.DigitWorth` | backend/models/vms.py:228-252 | each digit is worth 0 to 9, a further one ten times what stands before it |
| `Text.ParsedIsNumeral` | backend/models/vms.py:228-252 | and nothing else is read |

## Left out

- Network, database-driver, SMTP, webhook and WebSocket traffic, and the handlers that only forward to it.
- AES-GCM, HMAC, JWT and TOTP internals: opaque parameters, only their verdicts are used.
- The bodies of the Plus hooks and of the Core default methods: only stamp and routing matter.
- Symbolic links, permissions, NUL bytes and full disks during extraction; an archive member that cannot be decompressed.
- `License.KeyValidIff`: a MAC text outside ASCII makes the comparison behind a valid key raise, so that no status is given; the model answers as for a wrong MAC.
- `Retention.ParsePrinted`: does not model CPython's refusal to print or read integers beyond 4300 digits.
- Licence files whose JSON fields are not strings, and dates beyond the calendar's last day.
- Failing reads of the trial flags, and a failure between the two writes of `mark_trial_started`: the start date may then be written again.
- Requests that interleave inside one handler: each admin or login request is one step.
- What PostgreSQL makes of a poisoned transaction at commit; the model stops at the end of `_migrate_db`.
- The creation of `notification_reads`, foreign keys, defaults and column types of the migration.
- The "all", "pool" and "exclude" modes of the backup fan-out, and job descriptions whose `vmid` is a list.
- `Text.ParseInt`: reads ASCII digits only; Python also accepts other decimal digits.
- The places of the usage search are visited one after another, as their results are; the concurrency limit is not modelled.
