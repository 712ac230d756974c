# Verified models of the control plane's stateful managers

This project models, in Dafny, the parts of the CapRover Next control plane whose correctness depends on state
that lives across requests, and a few self-contained transformations, and proves properties of the models that hold
for all inputs, all runs or all interleavings.

`dafny verify dfyconfig.toml` checks everything. Each file is one module:

| file | what it models |
|---|---|
| `RateLimiter.dfy` | the capped fixed-window limiter: refinement of an unbounded one, sliding-interval bounds, `Retry-After` |
| `BuildScheduler.dfy` | the build queue and its flags as a transition system with its pending microtasks: one build at a time, and exactly which events break that |
| `BuildHistory.dfy` | the same system with memory: what becomes of every schedule call |
| `PromiseChain.dfy` | the promise-chain mutex over interleaved reads and writes: serializability and progress |
| `AuthSessions.dfy` | refresh sessions: acceptance, rotation, revocation, the cap, and their runs |
| `SessionLifetimes.dfy` | from being issued to being refused: exactly how long a token is accepted |
| `AuditQueue.dfy` | the bounded audit log behind a promise chain |
| `ParentChains.dfy` | chains of parent links between projects, cycles included |
| `ProjectForest.dfy` | ordering projects from the leaves to the roots when parent links may form cycles |
| `ProjectOrder.dfy` | what that ordering contains, in which order, and its independence of the order of the input |
| `SiblingOrder.dfy` | the exact order of the list, and that its laws determine it |
| `ProjectStore.dfy` | saving and deleting projects, one by one and in bulk |
| `VersionHistory.dfy` | numbering, truncation and image lookup of an app's versions |
| `AppStore.dfy` | the app store's mutators through `saveApp`, and runs of them |
| `AppUpdates.dfy` | what each accepted change of an app leaves stored, field by field |
| `Names.dfy`, `VolumeRemoval.dfy` | service and volume names, and deleting volumes safely |
| `Redact.dfy` | redaction and restoration of secrets in JSON trees |
| `AgentRequests.dfy` | pruning and migrating stored agent requests |
| `ApacheMd5.dfy` | the digest encoding and the context loops of the Apache MD5 hash |
| `CommandTokenizer.dfy` | splitting a compose command into arguments |
| `ThemeParser.dfy` | the theme-file parser |
| `Wrappers.dfy` | optional values, results, the end of a list |
| `Text.dfy` | `trim`, white space and character classes |

Conventions. A class stands for an object that the source updates in place; its methods are proved against pure
specification functions, and the results are lemmas about those functions. Clock readings, random draws, hashes,
`Date.parse`, `localeCompare` (any comparison, for all results but one), the path library and Docker's answers are
parameters. Random ids are assumed fresh, and hashes collision-free only where a lemma says so.

## Where the code differs from what one might expect

- The limiter allows at most `2 * maxAttempts - 1` calls in an interval of one window's length, one fewer than two
  full allowances, and this bound is reached for every window of at least two milliseconds; windows of one
  millisecond allow `maxAttempts` (`SlidingBound`, `SlidingBoundIsTight`).
- `RateLimiter.reset` does not normalise its key as `consume` does, so it undoes `consume` for every key but the empty
  one (`ResetUndoesConsume`).
- One build at a time fails exactly when an app is rescheduled while its own build is running, when a second call comes
  while a build runs, nothing is queued and a dequeueing microtask is still due, or when a second report comes while
  something is queued or its app's flag is set (`SafeIsExact`). `DoubleReportStartsTwo` and `SplitTurnStartsTwo`
  illustrate it.
- A queued build does not always start with the last source scheduled for it: a call that finds no flag set although its
  app is queued starts its own source at once, and the queued, older one starts later (`StaleStartIsReachable`). Exactly
  these calls break the promise (`StaleCallIsExact`, `LastSourceOverRuns`); a safe run makes none
  (`SafeRunsStartLastSource`).
- A session is pushed out by a login once nine newer ones are held; as rotations count among the newer ones, fewer than
  ten later logins can do it (`EndsExactly`, `PushedOutByTen`).
- Saving projects accepts parent cycles, exactly when a project is put below one of its own descendants
  (`SaveKeepsForest`; `CyclesAreAccepted` is an illustration).
- A redacted tree can be restored exactly when no array in it that is reached through insensitive keys only holds a
  secret (`RoundTrip` in `Redact`).
- A new app's volume whose name is that of an inherited property, such as "constructor", is never deleted
  (`WithheldExactly`).
- Version numbers are reused when the configurable history length is 1 or less (`NumbersNeverReused`).
- An empty quoted argument of a compose command comes back as its two quotes (`RoundTrip` in `CommandTokenizer`).
- Saving accepts ports that are not integers, such as 0.5 (`HalfPortIsStored`); ports lie in 1..65534 exactly when they
  are whole (`PortNumbersOverRuns`).
- Renaming an app that forces SSL succeeds only if a custom domain of its own has SSL (`ForcedSslRename`).

## Model

| member | source | states |
|---|---|---|
| RateLimiting.RateLimiter.Consume | src/utils/RateLimiter.ts:115-141 | one call updates the ordered bucket map and answers as specified, and keeps the map well formed |
| RateLimiting.RateLimiter.Reset | src/utils/RateLimiter.ts:143-145 | reset removes exactly the raw key's bucket |
| RateLimiting.RateLimiter.EvictIfNeeded | src/utils/RateLimiter.ts:147-162 | the deletion loops drop expired buckets, then oldest insertions |
| RateLimiting.EvictEffect | src/utils/RateLimiter.ts:147-162 | eviction restores the cap; an unexpired bucket goes only when none is expired, and it is the oldest insertion |
| RateLimiting.ConsumeEffect | src/utils/RateLimiter.ts:115-162 | the map never exceeds `maxBuckets`, the key just consumed survives, other buckets are untouched unless evicted |
| RateLimiting.KeptExactly | src/utils/RateLimiter.ts:115-162 | exactly which keys a call leaves: only a new key at a full table evicts, every expired one, or if there is none the first in the order |
| RateLimiting.ConsumeKeepsOrder | src/utils/RateLimiter.ts:115-162 | keys held before and after a call keep their order, and a new key stands behind them all |
| RateLimiting.ResetKeepsOrder | src/utils/RateLimiter.ts:143-145 | a reset keeps the order of the other keys |
| RateLimiting.OrderIsInsertionOrder | src/utils/RateLimiter.ts:100-162 | over every run, one key stands before another if and only if it was inserted earlier, counting from the last time it was absent |
| RateLimiting.FirstInsertedGoes | src/utils/RateLimiter.ts:156-161 | an unexpired bucket that a call drops is that of the key inserted first |
| RateLimiting.ConsumeRefines | src/utils/RateLimiter.ts:115-162 | each answer is the unbounded limiter's; agreement lasts if and only if at most `maxBuckets` buckets are unexpired |
| RateLimiting.CapIsExact | src/utils/RateLimiter.ts:115-162 | all questions that may follow at once agree with the unbounded limiter if and only if the cap suffices |
| RateLimiting.NewLimiterRefines | src/utils/RateLimiter.ts:107-162 | over every run within the cap the capped and the unbounded limiter answer alike |
| RateLimiting.SlidingBound | src/utils/RateLimiter.ts:115-141 | any half-open interval of one window's length allows at most `2 * maxAttempts - 1` calls of a key, and at most `maxAttempts` when the window is one millisecond |
| RateLimiting.SlidingBoundIsTight | src/utils/RateLimiter.ts:115-141 | that bound is attained for every limit and window, by a run that meets its hypotheses |
| RateLimiting.WindowBound | src/utils/RateLimiter.ts:115-141 | each bucket window allows at most `maxAttempts` calls |
| RateLimiting.RetryAfterIsHonest | src/utils/RateLimiter.ts:129-140 | after a refusal, a call made at least the announced seconds later is allowed, and the announced wait is the least |
| RateLimiting.RemainingIsExact | src/utils/RateLimiter.ts:126-139 | the next call in the window is allowed exactly if `remaining` was positive, and leaves one less |
| RateLimiting.ResetUndoesConsume | src/utils/RateLimiter.ts:115-145 | resetting a key removes the bucket that consuming it left if and only if the key is not empty |
| BuildScheduling.ServiceManager.ScheduleDeployNewVersion | src/user/ServiceManager.ts:116-177 | sets the flag and starts its own source, queues it, or replaces the queued source |
| BuildScheduling.ServiceManager.OnBuildFinished | src/user/ServiceManager.ts:237-246 | clears the flag at once and leaves one dequeueing microtask |
| BuildScheduling.ServiceManager.DequeueAndStart | src/user/ServiceManager.ts:241-245 | the microtask starts the build that stood first in the queue, name and source, without setting its flag |
| BuildScheduling.ServiceManager.IsAnyBuildRunning | src/user/ServiceManager.ts:872-882 | finds a flagged app if and only if there is one |
| BuildScheduling.ServiceManager.EnsureNotBuilding | src/user/ServiceManager.ts:630-636 | refuses if and only if the app's flag is set |
| BuildScheduling.SafeIsExact | src/user/ServiceManager.ts:116-246 | an event leaves every safe continuation to one build at a time if and only if it meets a condition that can be checked beforehand |
| BuildScheduling.UnsafeStartsTwo | src/user/ServiceManager.ts:116-246 | after any event that fails the condition, a run of safe events starts a second build beside a running one |
| BuildScheduling.OneBuildAtATime | src/user/ServiceManager.ts:116-246 | in every safe run at most one build runs, the true flags are the running and the queued apps, and a nonempty queue has a running build or a dequeue due |
| BuildScheduling.OneBuildAtATimeFromStart | src/user/ServiceManager.ts:116-246 | in particular in every safe run of a new scheduler |
| BuildScheduling.DisciplinedTurnsStayGood | src/user/ServiceManager.ts:116-246 | the same for runs of whole turns in which no app is rescheduled while its own build runs |
| BuildScheduling.QueueDrains | src/user/ServiceManager.ts:237-246 | a queue of n builds is empty and running its last build after n completions, and idle with all flags down after one more |
| BuildScheduling.DrainingTurns | src/user/ServiceManager.ts:237-246 | those completions can be made: for every number up to n + 1 there is such a run |
| BuildScheduling.RescheduleIsExact | src/user/ServiceManager.ts:119-176 | all disciplined continuations keep to one build if and only if the scheduled app was not the running one |
| BuildHistory.Handle | src/user/ServiceManager.ts:116-246 | each event, by the method that handles it, is one step of the history, whose started builds are those the class has started |
| BuildHistory.HandleAll | src/user/ServiceManager.ts:116-246 | the same for every run of events |
| BuildHistory.StartedIsMerged | src/user/ServiceManager.ts:116-246 | in every run the started builds are those started on a call and those taken from the queue, each kind in its order |
| BuildHistory.EveryCallHasOneFate | src/user/ServiceManager.ts:119-176 | in every run each schedule call is exactly one of started, still queued, or replaced by a later call for the same app; queued apps are distinct; the queue is first in, first out |
| BuildHistory.ScheduleKeepsLastSource | src/user/ServiceManager.ts:124-176 | a call leaves an older source queued if and only if no flag is set although the app is queued |
| BuildHistory.StaleCallIsExact | src/user/ServiceManager.ts:119-245 | an event leaves every continuation without stale calls to start queued builds with the last source scheduled for them if and only if it is not a stale call itself: one that finds no flag set although its app is queued |
| BuildHistory.StaleCallStartsStale | src/user/ServiceManager.ts:119-245 | after a stale call, reports of running builds and their dequeues alone start the older source |
| BuildHistory.LastSourceOverRuns | src/user/ServiceManager.ts:119-245 | over every run, started and queued builds have the last source scheduled for them at every moment if and only if no call was stale |
| BuildHistory.StaleStartIsReachable | src/user/ServiceManager.ts:119-245 | from a new scheduler, with every build reporting once and every report followed by its dequeue, an older source can start after a newer one |
| PromiseChain.NextIsSerialized | src/user/AuthSessionManager.ts:14-29 | every step of every call keeps store and results serial |
| PromiseChain.Serializable | src/user/AuthSessionManager.ts:14-29 | every interleaving leaves store and results as if the calls ran one at a time in submission order, with the same failures |
| PromiseChain.NeverStuck | src/user/AuthSessionManager.ts:19-27 | a failing call never blocks later ones: some step is always possible, and every step brings the end nearer |
| AuditQueue.AuditLogIsExact | src/datastore/DataStore.ts:559-573 | the log ends as the last 500 of the old events followed by the successfully written ones in call order |
| AuthSessions.SessionStore.GetRefreshSessions | src/datastore/DataStore.ts:508-521 | returns and keeps exactly the unexpired sessions |
| AuthSessions.SessionStore.SetRefreshSessions | src/datastore/DataStore.ts:523-527 | keeps the last ten |
| AuthSessions.CreateRefreshSession | src/user/AuthSessionManager.ts:67-77 | the login operation, against its specification |
| AuthSessions.ConsumeRefreshSession | src/user/AuthSessionManager.ts:79-132 | check, rotation and touch, against their specification |
| AuthSessions.RevokeRefreshSession | src/user/AuthSessionManager.ts:134-148 | revocation of one session, against its specification |
| AuthSessions.RevokeAllRefreshSessions | src/user/AuthSessionManager.ts:150-152 | leaves no session |
| AuthSessions.TokenRoundTrip | src/user/AuthSessionManager.ts:35-52 | an issued token parses back to its session id |
| SessionLifetimes.ParsesExactly | src/user/AuthSessionManager.ts:35-41 | the expression accepts exactly the tokens that well-formed draws can give, and finds their ids |
| SessionLifetimes.CreatedIsAccepted | src/user/AuthSessionManager.ts:67-77 | a login hands out the token of the newest session held, and it is accepted if and only if both clock readings are less than 30 days after the login |
| SessionLifetimes.CreatedRecord | src/user/AuthSessionManager.ts:50-65 | what a login records, with the user agent and the address cut short |
| SessionLifetimes.RotatedIsAccepted | src/user/AuthSessionManager.ts:98-113 | the token a rotation answers with is accepted if and only if the original login is less than 30 days old |
| SessionLifetimes.RotatedRecord | src/user/AuthSessionManager.ts:98-113 | a rotation answers with a fresh token for the newest session held, which keeps the old one's end, user agent and address |
| SessionLifetimes.TouchedExactly | src/user/AuthSessionManager.ts:115-130 | a check leaves the store place by place as the read left it, but for the presented session's time of last use |
| SessionLifetimes.EndsExactly | src/user/AuthSessionManager.ts:67-152 | a held session stays held if and only if it is not expired at a read, rotated, revoked, or pushed out by a login at nine newer ones |
| SessionLifetimes.AcceptedAfterRun | src/user/AuthSessionManager.ts:67-152 | after any run, failures included, a token is accepted if and only if nothing in the run ended its session and its login is less than 30 days old |
| SessionLifetimes.PushedOutByTen | src/user/AuthSessionManager.ts:71-76 | a login pushes a session out only as at least the tenth token issued after its own |
| AuthSessions.RunIsConsistent | src/user/AuthSessionManager.ts:67-152 | in every run, whichever reads and writes fail, at most ten sessions are held, with distinct ids, in the order of issue, each expiring 30 days after the login it descends from |
| AuthSessions.AcceptedExactly | src/user/AuthSessionManager.ts:84-96 | a token is accepted if and only if it was issued, its session is held, and its login is less than 30 days old |
| AuthSessions.GoneForGood | src/user/AuthSessionManager.ts:67-152 | once a session id has left the store no continuation holds it or accepts its token again |
| AuthSessions.NoTokenOutlivesItsLogin | src/user/AuthSessionManager.ts:98-112 | along every chain of rotations and touches no token is accepted 30 days or more after the original login |
| AuthSessions.RotationRetires | src/user/AuthSessionManager.ts:98-113 | rotation removes the presented session at once and pushes no other unexpired one out |
| AuthSessions.TouchEffect | src/user/AuthSessionManager.ts:115-130 | a check without rotation writes at most the presented session's time of last use, and only after five minutes |
| AuthSessions.RevocationRetires | src/user/AuthSessionManager.ts:134-148 | revocation removes exactly the presented session, and expired ones |
| AuthSessions.CreateDropsOldest | src/user/AuthSessionManager.ts:71-76 | a login drops an unexpired session only when ten newer ones remain |
| AuthSessions.EveryMomentIsConsistent | src/user/AuthSessionManager.ts:14-152 | at every moment of every interleaving, failing reads and writes included, the store keeps that invariant |
| AuthSessions.DepartedIsRefused | src/user/AuthSessionManager.ts:14-152 | and no later call is ever answered with a grant for a token whose session had left the store |
| AuthSessions.SessionsAreSerializable | src/user/AuthSessionManager.ts:14-152 | concurrent create, consume and revoke calls leave store and answers as if handled in submission order |
| ProjectForest.DescendIsSafe | src/datastore/ProjectsDataStore.ts:144-173 | the recursion from a root never meets a project it has come through, so that the ordering terminates for distinct nonempty ids even when parent links form cycles |
| ProjectOrder.OrganizeMembers | src/datastore/ProjectsDataStore.ts:144-173 | the result holds a project if and only if its parent chain reaches a root |
| ProjectOrder.OrganizeOrder | src/datastore/ProjectsDataStore.ts:144-173 | each project once, and before its parent |
| SiblingOrder.SiblingsAscend | src/datastore/ProjectsDataStore.ts:153-172 | of two projects with the same parent, roots included, the one with the smaller id stands first |
| SiblingOrder.DescendantsAreAdjacent | src/datastore/ProjectsDataStore.ts:149-172 | a project's descendants fill the stretch right before it |
| SiblingOrder.OrderingIsDetermined | src/datastore/ProjectsDataStore.ts:144-173 | a list of the projects that reach a root obeys these two laws if and only if it is the one the source computes |
| ProjectOrder.DescendantsFirst | src/datastore/ProjectsDataStore.ts:144-173 | every project after all its descendants |
| ProjectOrder.OrderOfInputIsIrrelevant | src/datastore/ProjectsDataStore.ts:153-168 | the result depends only on the set of projects, if the comparison orders their ids |
| ProjectStore.ProjectsDataStore.SaveProject | src/datastore/ProjectsDataStore.ts:32-111 | trims, validates in the source's order, stores under the id, and keeps the store intact |
| ProjectStore.ProjectsDataStore.DeleteProject | src/datastore/ProjectsDataStore.ts:201-243 | refuses a missing project, one with apps and one with sub-projects, and otherwise removes exactly it |
| ProjectStore.ProjectsDataStore.DeleteProjects | src/datastore/ProjectsDataStore.ts:175-199 | removes exactly the stored projects that reach a root and whose whole subtree was requested and is app-free, and fails exactly if it leaves a requested one that reaches a root |
| ProjectStore.SaveExactly | src/datastore/ProjectsDataStore.ts:32-111 | saving succeeds if and only if the trimmed name, ids and parent are allowed, and stores the four fields trimmed |
| ProjectStore.DeleteExactly | src/datastore/ProjectsDataStore.ts:201-243 | deleting succeeds if and only if the project is stored, without apps and without sub-projects, and removes only it |
| ProjectStore.RunsKeepIntegrity | src/datastore/ProjectsDataStore.ts:32-111 | over every run of saves and deletes parents exist, and a project disappears only by its own delete while it held no app |
| ProjectStore.SaveKeepsForest | src/datastore/ProjectsDataStore.ts:70-108 | an accepted save leaves every project reaching a root if and only if the new parent is not below the project at present |
| ProjectStore.ForestRuns | src/datastore/ProjectsDataStore.ts:70-108 | over every run of saves and deletes no cycle ever comes up if and only if no accepted save puts a project below itself |
| ProjectStore.BulkDelete | src/datastore/ProjectsDataStore.ts:185-197 | the computed order deletes every removable project and no other |
| ProjectStore.CleanRequestIsRemovedExactly | src/datastore/ProjectsDataStore.ts:175-199 | a requested set that is app-free, closed under children and reaches roots is removed exactly |
| VersionHistory.NumbersNeverReused | src/datastore/AppsDataStore.ts:687-730 | from an empty history numbers strictly increase in every run if and only if the bound is at least 2 |
| VersionHistory.NumbersIncrease | src/datastore/AppsDataStore.ts:687-730 | numbers given out strictly increase and exceed the newest kept one |
| VersionHistory.RunKeepsBounded | src/datastore/AppsDataStore.ts:687-730 | the list stays increasing and within its bound |
| VersionHistory.NumbersAreCounted | src/datastore/AppsDataStore.ts:687-730 | from an empty history the creations of any run are numbered 0, 1, 2 and so on |
| VersionHistory.DeployExactly | src/datastore/AppsDataStore.ts:637-685 | deploying a listed version records its image and commit, makes it the deployed one, and changes no other |
| VersionHistory.Retention | src/datastore/AppsDataStore.ts:697-701 | a version d places from the newest survives a run if and only if it holds at most `max - 1 - d` creations, and keeps its image |
| VersionHistory.DeployedImageIsFound | src/user/ServiceManager.ts:954-967 | the image lookup finds a deployed version's image through the next `max - 1` creations |
| VersionHistory.LookupExactly | src/user/ServiceManager.ts:954-967 | after every run from an empty history, rollbacks included, the lookup finds the deployed version's image if and only if an image was ever recorded and the deployed version came from one of the last `max` creations |
| VersionHistory.LookupWithoutHistory | src/user/ServiceManager.ts:954-967 | with a bound of 1 or less, if and only if an image was recorded since the last creation |
| VersionHistory.RollbackFindsImage | src/datastore/AppsDataStore.ts:1068-1082 | an accepted rollback lands on a version whose image the lookup finds; a refused one changes nothing |
| AppStore.AppsDataStore.SaveApp | src/datastore/AppsDataStore.ts:89-278 | the validation loops and the write |
| AppStore.AppsDataStore.RegisterAppDefinition | src/datastore/AppsDataStore.ts:992-1046 | registers an allowed, unused name with the default app |
| AppStore.AppsDataStore.RenameApp | src/datastore/AppsDataStore.ts:296-334 | moves an app to an allowed, unused name, or changes nothing |
| AppStore.AppsDataStore.DeleteAppDefinition | src/datastore/AppsDataStore.ts:964-983 | removes exactly the named app |
| AppStore.AppsDataStore.SetSslForDefaultSubDomain | src/datastore/AppsDataStore.ts:451-458 | sets the flag, through `saveApp` |
| AppStore.AppsDataStore.EnsureAllAppsSubDomainSslDisabled | src/datastore/AppsDataStore.ts:461-486 | is a run of mutations; from every store that mutators have made it succeeds and changes nothing but the two SSL flags of every app |
| AppStore.AppsDataStore.EnableCustomDomainSsl | src/datastore/AppsDataStore.ts:488-507 | sets SSL on the named domain only |
| AppStore.AppsDataStore.RemoveCustomDomainForApp | src/datastore/AppsDataStore.ts:509-546 | removes the named domain, and a redirect to it |
| AppStore.AppsDataStore.AddCustomDomainForApp | src/datastore/AppsDataStore.ts:548-590 | appends a domain without SSL, refusing duplicates |
| AppStore.AppsDataStore.CreateNewVersion | src/datastore/AppsDataStore.ts:687-730 | truncates, numbers and appends a version, and returns its number |
| AppStore.AppsDataStore.SetDeployedVersionAndImage | src/datastore/AppsDataStore.ts:637-685 | records the image of a listed version and deploys it |
| AppStore.AppsDataStore.RollbackAgentDeployment | src/datastore/AppsDataStore.ts:1068-1082 | deploys a listed version that has an image |
| AppStore.AppsDataStore.UpdateAppDefinitionInDb | src/datastore/AppsDataStore.ts:824-961 | replaces the edited fields, skipping empty entries, through `saveApp` |
| AppStore.SavedExactly | src/datastore/AppsDataStore.ts:89-278 | saving succeeds if and only if the app is named, its domain types can be normalized, its paths are valid and it is sound |
| AppStore.SavedIsSound | src/datastore/AppsDataStore.ts:89-278 | a saved app is sound, keeps the stored legacy flag, and is otherwise unchanged but for the spelling of domain types |
| AppStore.HalfPortIsStored | src/datastore/AppsDataStore.ts:73-75 | an update with the port 0.5 is accepted and stored |
| AppStore.ExecKeepsPortNumbers | src/datastore/AppsDataStore.ts:73-75 | a command leaves only port numbers 1..65534 in the store if and only if it is not an accepted update with a fraction among its own ports |
| AppStore.PortNumbersOverRuns | src/datastore/AppsDataStore.ts:167-191 | over every run all ports stay in 1..65534 if and only if no update with a fractional port was accepted |
| AppStore.StoredPortsExactly | src/datastore/AppsDataStore.ts:167-191 | each stored port of every run is one of 1..65534 if and only if it is a whole number |
| AppUpdates.OthersUntouched | src/datastore/AppsDataStore.ts:89-334 | a command leaves every app it does not name as it was, and a refused one leaves all of them |
| AppUpdates.UpdateStoresExactly | src/datastore/AppsDataStore.ts:824-961 | an accepted update stores the submitted variables, ports and volumes that are not empty, in order, trimmed and otherwise as submitted, and leaves everything else alone |
| AppUpdates.DefaultSslExactly | src/datastore/AppsDataStore.ts:451-458 | switching SSL on the default sub-domain changes only that, and is refused only if it would leave a forced app without any |
| AppUpdates.EnableSslExactly | src/datastore/AppsDataStore.ts:488-507 | enabling SSL succeeds if and only if the domain is attached, and changes only its flag |
| AppUpdates.RemoveDomainExactly | src/datastore/AppsDataStore.ts:509-546 | when removing a domain succeeds, and what then becomes of the others and of the redirect |
| AppUpdates.AddDomainExactly | src/datastore/AppsDataStore.ts:548-590 | when attaching a domain succeeds, and where it goes |
| AppUpdates.DomainTypeExactly | src/utils/AppDomains.ts:6-25 | a domain type is accepted if and only if, trimmed, it spells a standard one in any case |
| AppUpdates.RenameMovesEverything | src/datastore/AppsDataStore.ts:296-334 | a rename moves the app as it is, but for SSL on the default sub-domain |
| AppUpdates.RegisterExactly | src/datastore/AppsDataStore.ts:992-1046 | when registering succeeds, and what it stores |
| AppUpdates.HistoryFollows | src/datastore/AppsDataStore.ts:637-730 | the three mutators that touch the history make the moves of `VersionHistory` exactly when they are possible, and the others leave it alone |
| AppStore.EveryStoredAppIsSound | src/datastore/AppsDataStore.ts:89-278 | after every run of the modelled mutators from an empty store each app forces SSL only with an SSL domain, has ports between 0 and 65535, nonempty environment keys, one source and accepted paths per volume, distinct domains and, for a history bound of at least 2, a bounded increasing version list |
| AppStore.AddThenRemoveDomain | src/datastore/AppsDataStore.ts:509-590 | removing a domain undoes attaching it; attaching or removing twice is refused |
| AppStore.FlagFollowsRenames | src/datastore/AppsDataStore.ts:120-130 | through every run an app keeps its legacy flag, under whatever name renames have given it |
| AppStore.ForcedSslRename | src/datastore/AppsDataStore.ts:325-329 | an app that forces SSL can be renamed if and only if a custom domain of its own has SSL |
| Names.ServiceNamesAreDistinct | src/datastore/AppsDataStore.ts:336-342 | over allowed names, name and legacy flag are determined by the service name |
| Names.VolumeNamesAreDistinct | src/datastore/AppsDataStore.ts:344-350 | the same for volumes |
| Names.ServiceNameRoundTrip | src/datastore/AppsDataStore.ts:336-342 | an allowed name and the kind of its app can be read back from the service name, which for a new app is the name itself |
| Names.VolumeNameRoundTrip | src/datastore/AppsDataStore.ts:344-350 | the same for volumes |
| VolumeRemoval.VolumeRemover.RemoveVolsSafe | src/user/ServiceManager.ts:548-599 | Docker is asked for exactly the requested volumes that no app maps to and no object inherits; the others, and those Docker fails on, are reported |
| VolumeRemoval.InUseExactly | src/user/ServiceManager.ts:561-576 | a volume counts as used if and only if an app of the same kind lists the same logical name |
| VolumeRemoval.WithheldExactly | src/user/ServiceManager.ts:561-590 | a requested volume is withheld from Docker if and only if it is so used, or is a new app's and named like an inherited property |
| VolumeRemoval.ReportedExactly | src/user/ServiceManager.ts:579-598 | a logical name is reported if and only if a requested volume of that name was withheld or Docker failed on it |
| Redact.RedactSensitive | src/utils/Redact.ts:21-38 | the recursive loops compute the redacted tree |
| Redact.RestoreRedactedSecrets | src/utils/Redact.ts:40-56 | the recursive loop computes the restored tree |
| Redact.RoundTrip | src/utils/Redact.ts:21-56 | restoring a redacted tree from the original gives it back if and only if no array reached through insensitive keys holds a secret |
| Redact.CleanIsUnchanged | src/utils/Redact.ts:21-38 | redaction leaves a tree alone if and only if it holds no secret |
| Redact.RedactTwice | src/utils/Redact.ts:21-38 | redaction is idempotent |
| Redact.RedactionHidesExactlySecrets | src/utils/Redact.ts:21-38 | two trees redact alike if and only if they differ only in truthy values under sensitive keys |
| Redact.RestoringKeepsEdits | src/utils/Redact.ts:40-56 | along every path restoring keeps the edited value, except that the marker under a sensitive key gives way to the current value |
| AgentRequests.RequestStore.GetAgentDeploymentRequests | src/datastore/DataStore.ts:529-541 | returns the migrated pruned list, and the store then holds just that |
| AgentRequests.RequestStore.SetAgentDeploymentRequests | src/datastore/DataStore.ts:543-550 | stores the migrated pruned list |
| AgentRequests.RequestStore.MigrateSecrets | src/datastore/DataStore.ts:81-104 | migrates every request, and says whether anything changed |
| AgentRequests.PruneKeepsNewest | src/datastore/DataStore.ts:55-79 | keeps the newest 500 of the requests no older than 30 days and nothing else |
| AgentRequests.RecentExactly | src/datastore/DataStore.ts:59-67 | a request's age is that of its last update, or of its creation if it was never updated |
| AgentRequests.SortIsStable | src/datastore/DataStore.ts:73-77 | requests of the same time keep their order |
| AgentRequests.PruneTwice | src/datastore/DataStore.ts:55-79 | pruning is idempotent at a fixed time |
| AgentRequests.MigrateMeaning | src/datastore/DataStore.ts:81-104 | migration keeps order and other fields, is idempotent, and leaves a raw key only beside an existing hash |
| AgentRequests.GetAfterSet | src/datastore/DataStore.ts:529-550 | at a fixed time a read after a write returns what was stored |
| ApacheMd5.To64 | src/utils/ApacheMd5.ts:14-24 | the loop writes the lowest digits first |
| ApacheMd5.DigitsRoundTrip | src/utils/ApacheMd5.ts:14-24 | reading the digits back gives the number, for numbers that fit |
| ApacheMd5.GetPassword | src/utils/ApacheMd5.ts:45-82 | the six pieces of the encoded digest |
| ApacheMd5.PasswordRoundTrip | src/utils/ApacheMd5.ts:45-82 | the encoding is 22 characters of the alphabet and can be decoded to the 16 bytes |
| ApacheMd5.BuildContext | src/utils/ApacheMd5.ts:95-111 | the loops append as many cycled digest characters as the password is long, then one character per bit of that length |
| ApacheMd5.BitLengthMeaning | src/utils/ApacheMd5.ts:105-111 | the second loop runs once per binary digit |
| ApacheMd5.BitsRoundTrip | src/utils/ApacheMd5.ts:105-111 | the bit characters tell the length again, unless the password starts with the zero character |
| CommandTokenizer.ParseDockerCmd | src/utils/DockerComposeToServiceOverride.ts:40-58 | the match loop collects the arguments |
| CommandTokenizer.NothingIsLost | src/utils/DockerComposeToServiceOverride.ts:40-58 | for every input the arguments hold exactly its characters other than white space and quotes, in order |
| CommandTokenizer.ParsePrinted | src/utils/DockerComposeToServiceOverride.ts:40-58 | arguments printed bare or in either kind of quotes come back, empty ones as their quotes |
| CommandTokenizer.RoundTrip | src/utils/DockerComposeToServiceOverride.ts:47-54 | the parser undoes the printer if and only if no argument is empty |
| CommandTokenizer.DoubleQuotedRoundTrip | src/utils/DockerComposeToServiceOverride.ts:40-58 | a list of arguments free of double quotes, each printed in double quotes, parses back if and only if none is empty |
| CommandTokenizer.SingleQuotedRoundTrip | src/utils/DockerComposeToServiceOverride.ts:40-58 | the same for single quotes |
| CommandTokenizer.BlankIsSkipped | src/utils/DockerComposeToServiceOverride.ts:41-46 | white space of any kind and length before an argument is skipped |
| CommandTokenizer.LoneQuoteIsSkipped | src/utils/DockerComposeToServiceOverride.ts:41-46 | so is a quote that is never closed |
| CommandTokenizer.QuoteEndsWord | src/utils/DockerComposeToServiceOverride.ts:41-54 | a quote right after a word starts another argument |
| ThemeParser.ParseCapRoverTheme | src/user/ThemeManager.ts:34-60 | the line loop and the final trimming |
| ThemeParser.RoundTrip | src/user/ThemeManager.ts:34-60 | printing distinct trimmed fields with trimmed contents, none of whose lines is a marker, parses back to the same fields |
| ThemeParser.ContentExactly | src/user/ThemeManager.ts:34-60 | for every input, a field's content is the text from its last marker line to the next marker line, trimmed |
| ThemeParser.FieldsExactly | src/user/ThemeManager.ts:34-60 | the fields are exactly those that some marker line names |
| ThemeParser.FieldNameExactly | src/user/ThemeManager.ts:40-43 | a field's name is what stands between the marker and the line's last character, trimmed |
| Text.TrimExactly | src/user/ThemeManager.ts:56-58 | trimming takes off white space at both ends and nothing else |

## Left out

- The web frontend, Express routing, `Injector`, `CaptainInstaller`, `DockerApi` and `GitHelper`: user interface, I/O and foreign calls.
- Cryptography: JWT, bcrypt, SHA-256, AES and MD5 are parameters or absent; so are the thousand rounds of `createApacheHash`, which only feed MD5.
- BuildScheduling.ServiceManager.ScheduleDeployNewVersion: app names are taken to be nonempty, as routes and tokens make them; the truthiness test would overlook a flagged empty name. Build logs, events and the settlement of saved promises are absent.
- BuildScheduling.ServiceManager.EnsureNotBuilding: reads flags that were set only; the source's look-up also finds what every object inherits, so that an app named "constructor" is refused although no flag was ever set.
- AuthSessions.Accepted: compares hashes as strings, where the source compares the bytes that hexadecimal hashes stand for; stored hashes are all made by the same function.
- Redact.Get: reads an object's own entries only, not indices of arrays and strings or inherited properties; keys are taken not to be `__proto__`.
- AppStore.Exec: reads an object's own entries only, so that an app name such as "constructor" is free until it is registered; the source's look-ups would find the property of that name that every object inherits.
- AppStore.Number: an infinite instance count and the rounding of numbers are absent.
- AppStore.App: encryption of repository credentials, tokens, tags, descriptions, time stamps and other fields that no modelled check reads are absent, and so are the mutators that only touch those, `addCustomDomainForAppForMigration` and `setVersionsForMigration`.
- ProjectStore.ProjectsDataStore.DeleteProject: the 500 ms delay is absent, and each store operation is one step.
- ProjectForest.OrganizeFromTheLeafsToRoot: lists with repeated or empty ids, on which the source may recurse for ever, are excluded; the store never holds such.
- ThemeParser.Parse: field names are taken not to be `__proto__`.
- The agent deployment state machine beyond pruning and migration, `SafeUrl`, `SafeTar`, proxy-address helpers and `redactText`: library-defined string handling or outside the files modelled.
- `CircularQueue`, `BuildLog`, registries, theme CRUD, `EnvVars` and API status classes: they would only add easy members.
