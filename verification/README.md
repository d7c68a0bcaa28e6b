# Verified models of the ACP web stack

This project models the parts of the ACP web backend, web frontend and mock agent whose correctness
cannot be read off one branch: the agent child registry with its launcher, spawner and forgetting
threads; the session store under concurrent use; routes and percent coding; the cancel generations of
the mock agent; the agent profile store; the per-session locks of the backend's ACP client; branch
listing and proxy bypass.

Code that computes a value is a function, code that changes state is a class or a method with a loop,
and code whose point is concurrency is a state machine: a state, one action per atomic step, `Enabled`
and `Apply`, and theorems about `Final(st, run)` for every run from an initial state. The number of
threads, the requests they make and the order of their steps are arbitrary. Record fields that no guard
reads (owners of children, tickets, removed locks) only serve to state the theorems.

| file | what it holds |
|---|---|
| `AgentRegistry` | the registry's critical sections, as functions and as a class changed in place |
| `LaunchProtocol`, `LaunchSafety`, `LaunchTheorems`, `LaunchProgress`, `LaunchWrapAround` | launches, spawner threads and forgets interleaved; what every step keeps; the promises; termination; a sharp bound |
| `LaunchRuns`, `LaunchOutcomes` | what a launch answers and what a forget does, told of the run |
| `AgentArguments`, `CgroupPid`, `Decimal`, `Bytes` | the `${ACP_*}` rewriter and the decimal printer |
| `SessionStore`, `Sorting` | the session store as one caller sees it, and sorting |
| `SessionProtocol`, `SessionTraces`, `SessionCap`, `SessionEffects` | the store under concurrent operations, its cap, and what each operation does and whom it touches |
| `SessionPruning`, `SessionPruneRace`, `SessionLimit`, `SessionLimitRace` | what a prune removes, the limit on closed sessions, and where both give way to restores |
| `Routing`, `PercentCoding`, `Utf8`, `Text` | route parser and printer, component coding, strings |
| `CancelGenerations`, `CancelRuns` | bump, send, subscribe, read, wait; the promises told of the run |
| `AgentProfiles`, `ProfileStore`, `SortedMap` | profile validation, the store and its file |
| `MockClient`, `SessionLocks`, `SessionOrder`, `SessionProgress` | lock table and upstream cache, alone and concurrently; termination |
| `Branches`, `ProxyBypass` | branch lists and NO_PROXY entries |

## Findings

- A forgotten launch leaves later reservations alone as long as fewer than 2^64 reservations were made
  after its own. The bound is sharp: with 2^64 the wrapped counter lets it clear a reservation that is
  not its own (`LaunchWrapAround.ForgottenLaunchDisturbsALaterOne`).
- A workspace id of white space only is accepted by the route parser but dropped by
  `app_session_path_for_workspace`, so a parsed workspace route survives that printer exactly when its
  workspace is not blank (`Routing.WorkspacePrinterKeepsRouteIffNotBlank`).
- A prune can remove an active session only if some caller restores that session as an active one: the
  store then holds it under a newer handle than the one the pruner read
  (`SessionPruning.PruneRemovesClosedOrRestored`, `PruneRemovesOnlyClosed`). With such a caller it
  can happen, whatever the limit (`SessionPruneRace.PruneDropsARestoredSession`).
- At most the limit of closed sessions is left in the end, not counting those that a caller restored as
  closed (`SessionLimit.ClosedSessionsStayWithinLimit`); restoring starts no prune, so those do exceed
  every limit (`SessionLimitRace.ClosedRestoresExceedTheLimit`).
- A prompt's wait can end early without a cancel, exactly when a send fell between its subscription and
  its reading of the generation (`CancelRuns.EndsEarlyIffSentBetween`).
- Operations of one backend session are not always serialised: two of them have different locks exactly
  when a forget removed the lock of the first to look up before the other did, and a queued one may start
  exactly when it is parted in this way from every running one of its session
  (`SessionOrder.LocksDifferIff`, `MayStartIff`; a run in `ForgetLetsTwoRun`).
- A failed write leaves the change in memory and the old content in the file. From a store that agrees
  with its file a command keeps the agreement exactly if the write works or the command would not change
  memory, which can be told before the call (`ProfileStore.AgreementKeptIff`; a failing upsert in
  `FailedWriteParts`). Reopening gives the profiles as of the last acknowledged change
  (`ProfileStore.ReopenGivesLastAcknowledged`).

## Assumptions

- No lock is poisoned and no thread panics. Terminating a process removes it; spawning may fail.
- `terminate` calls made while the registry mutex is held are separate steps here, which only adds
  interleavings.
- The order in which a HashMap hands out its entries is a parameter of the operation that iterates.
- Generated session ids are new; one of the generated profile ids is unused and all have the form
  `profile-` and 32 hexadecimal digits. Times and random ids are parameters.
- The watch channel of the mock agent drops a value sent while there is no receiver, and a receiver
  counts the version at its subscription as seen. The cancel counter stays below 2^64 where a theorem
  says so.
- Callers of `run_locked_operation` await it to its end.
- The profile file is a faithful codec of a list of profiles, and a write replaces it whole or leaves it.
- `sort_by` is a stable sort; a BTreeMap iterates in the order of its keys, which is the order of
  their Unicode scalar values.

## Model

| member | source | states |
|---|---|---|
| AgentRegistry.ChildRegistry.TryReserve | crates/acp-web-backend/src/agent_runtime.rs:489-514 | one pass of the reservation loop: a free slot is reserved with the next id, which wraps at 2^64; a reserved slot means waiting and a running one is refused, both without change |
| AgentRegistry.ChildRegistry.ClearLaunchReservation | crates/acp-web-backend/src/agent_runtime.rs:516-527 | removes the slot and notifies exactly if it still holds this reservation |
| AgentRegistry.ChildRegistry.StoreLaunchedChild | crates/acp-web-backend/src/agent_runtime.rs:529-562 | turns the own reservation into a running child and notifies; otherwise changes nothing and tells why |
| AgentRegistry.ChildRegistry.ForgetSession | crates/acp-web-backend/src/agent_runtime.rs:620-627 | removes whatever slot is there, hands it back and notifies if there was one |
| AgentRegistry.ChildRegistry.DropAll | crates/acp-web-backend/src/agent_runtime.rs:651-663 | empties the registry and terminates exactly the children that were running |
| LaunchSafety.KeepsInv | crates/acp-web-backend/src/agent_runtime.rs:489-639 | every atomic step of launches, spawner threads and forgets keeps the protocol's invariant |
| LaunchTheorems.LiveChildHasOneOwner | crates/acp-web-backend/src/agent_runtime.rs:489-639 | in every reachable state a child is alive exactly if a launch, a spawner thread, a running slot or a terminating forget holds it, and then exactly one of them does |
| LaunchTheorems.QuietRegistryLeaksNothing | crates/acp-web-backend/src/agent_runtime.rs:578-639 | with no thread in flight the live children are exactly those in running slots, one slot each, and no reservation is left |
| LaunchTheorems.WaiterHasSomeoneToWaitFor | crates/acp-web-backend/src/agent_runtime.rs:503-508 | a parked launch waits on a reservation in its slot whose maker is another launch still inside launch_session: no lost wake-up |
| LaunchTheorems.ExitLeavesNoReservation | crates/acp-web-backend/src/agent_runtime.rs:579-618 | however launch_session returns, no slot still holds the reservation it made |
| LaunchTheorems.HandOffIsExclusive | crates/acp-web-backend/src/agent_runtime.rs:1360-1473 | once launch and spawner thread have ended the child went to the caller, or was killed, or never was; a timed-out caller never has it and no two launches get the same child |
| LaunchTheorems.TouchesOnlyOwnReservation | crates/acp-web-backend/src/agent_runtime.rs:516-561 | with fewer than 2^64 reservations made after its own, a launch's clear or store changes the registry exactly if the slot is still the reservation it made itself, and never another session's slot |
| LaunchRuns.AttachesUnlessForgotten | crates/acp-web-backend/src/agent_runtime.rs:564-592 | a launch that finds its session running returns that child's metadata, unless a forget of the session lies between its reservation attempt and its reading of the slot; only then can it be refused |
| LaunchRuns.AttachedAfterLaunched | crates/acp-web-backend/src/agent_runtime.rs:564-592 | a launch attaches to a child only after another launch of the same session has returned that child |
| LaunchRuns.ForgetEmptiesSlot | crates/acp-web-backend/src/agent_runtime.rs:620-630 | a forget empties the slot of its session, leaves all others and takes the child that ran there |
| LaunchRuns.ForgottenChildDies | crates/acp-web-backend/src/agent_runtime.rs:620-630 | once a forget has finished, the child it found running is dead and stays so |
| LaunchOutcomes.AnswerHasItsCause | crates/acp-web-backend/src/agent_runtime.rs:579-618 | a returned launch failed to prepare, to spawn, to be ready or to be in time exactly if that happened in the run; it has no agent, is rejected or hands back stdio metadata exactly by its configuration |
| LaunchOutcomes.LosesOnlyToForget | crates/acp-web-backend/src/agent_runtime.rs:529-562 | with at most 2^64 reservations in all, a launch whose child is not stored lost its reservation to a forget of its session between reserving and storing |
| LaunchOutcomes.ToldWhyItLost | crates/acp-web-backend/src/agent_runtime.rs:541-561 | it is told that another agent runs exactly if one ran for its session when it came to store |
| LaunchWrapAround.ForgottenLaunchDisturbsALaterOne | crates/acp-web-backend/src/agent_runtime.rs:494-501 | a run with one reservation more in which a forgotten launch clears a later launch's reservation |
| LaunchProgress.NeverStuck | crates/acp-web-backend/src/agent_runtime.rs:503-508 | in every reachable state that is not quiescent some step other than a spurious wake-up is possible |
| LaunchProgress.StepDecreasesMeasure | crates/acp-web-backend/src/agent_runtime.rs:489-639 | every step lowers a natural measure, except that a spurious wake-up raises it by one |
| LaunchProgress.EveryRunIsFinite | crates/acp-web-backend/src/agent_runtime.rs:489-639 | the length of every run is bounded by the calls it started with and the spurious wake-ups in it |
| LaunchProgress.MaximalRunsSettle | crates/acp-web-backend/src/agent_runtime.rs:489-639 | a run that only spurious wake-ups could continue has ended every call and leaked no child |
| AgentArguments.ReplaceOneKind | crates/acp-web-backend/src/agent_runtime.rs:866-874 | replacing one more kind of placeholder in partly substituted text is substituting that kind in the original |
| AgentArguments.PlaceholderAlone | crates/acp-web-backend/src/agent_runtime.rs:866-874 | what each placeholder stands for: host, port, host and port, and the http address of both |
| AgentArguments.NoEndpointNoChange | crates/acp-web-backend/src/agent_runtime.rs:750-755 | without a reserved endpoint arguments pass unchanged, as any endpoint would have left them |
| AgentArguments.ExpansionIsOnePass | crates/acp-web-backend/src/agent_runtime.rs:866-874 | the four replacements in a row equal one simultaneous left-to-right substitution, for every argument and port |
| AgentArguments.ExpansionLeavesNoPlaceholder | crates/acp-web-backend/src/agent_runtime.rs:739-748 | an expanded argument contains no placeholder, not even across the seams of replaced text |
| AgentArguments.ExpansionChangesIffPlaceholder | crates/acp-web-backend/src/agent_runtime.rs:866-874 | expansion changes an argument exactly if it contains a placeholder |
| AgentArguments.EndpointReservedIffUsed | crates/acp-web-backend/src/agent_runtime.rs:695-755 | an endpoint is reserved exactly when some argument would come out different with one |
| CgroupPid.CgroupPidBytes | crates/acp-web-backend/src/agent_runtime.rs:1328-1343 | the 32-byte buffer holds, from a cursor of at least 21, the decimal of the unsigned id and a newline |
| CgroupPid.AsU32IsTheCast | crates/acp-web-backend/src/agent_runtime.rs:1328-1331 | the id is taken modulo 2^32 |
| CgroupPid.PidReadsBack | crates/acp-web-backend/src/agent_runtime.rs:1328-1343 | that decimal reads back to the id and is the only canonical numeral that does |
| SessionStore.Store.CreateSession | crates/acp-web-backend/src/sessions.rs:231-268 | refuses at the cap without change, else adds one active session with the next order; the owner's active sessions grow by one and stay within the cap |
| SessionStore.Store.CountActive | crates/acp-web-backend/src/sessions.rs:237-247 | the loop over the snapshot counts the owner's active sessions in whatever order they come |
| SessionStore.Store.RestoreSession | crates/acp-web-backend/src/sessions.rs:289-317 | a present session stays as it is and is shown to its stored owner only; an absent one is added with the snapshot's fields, closed at its last activity if it was closed; an order is claimed either way |
| SessionStore.Store.CloseSession | crates/acp-web-backend/src/sessions.rs:462-473 | an absent id, another owner's session and a closed one are told apart and change nothing; otherwise the session is closed now and a prune follows |
| SessionStore.Store.PruneClosedSessions | crates/acp-web-backend/src/sessions.rs:570-601 | removes all closed sessions but as many of the most recently closed as the limit allows |
| SessionStore.PruneKeepsMostRecentlyClosed | crates/acp-web-backend/src/sessions.rs:570-601 | such a prune keeps every session without closing time and the right number of closed ones, and none it removed was closed later than one it kept |
| SessionStore.Store.DeleteSession | crates/acp-web-backend/src/sessions.rs:486-495 | exactly the stored owner removes that session and no other; an absent id and another owner's session are told apart and change nothing |
| SessionStore.Store.ListOwnedSessions | crates/acp-web-backend/src/sessions.rs:319-336 | the returned items show exactly the owner's sessions, each once with its own fields, the most recently used first |
| SessionStore.Store.ListWorkspaceSessions | crates/acp-web-backend/src/sessions.rs:338-362 | the same for the owner's sessions in one workspace |
| SessionStore.EntryBeforeIsWeakOrder | crates/acp-web-backend/src/sessions.rs:608-617 | the comparator is a consistent order |
| SessionStore.EntriesSeparated | crates/acp-web-backend/src/sessions.rs:608-617 | on sessions with distinct ids the comparator never calls two entries equal |
| SessionStore.OwnedListIsNewestFirst | crates/acp-web-backend/src/sessions.rs:319-336 | for any handles with distinct ids the returned list is exactly the owner's, each once, ordered by recent use, then activity, then id |
| SessionStore.WorkspaceListIsNewestFirst | crates/acp-web-backend/src/sessions.rs:338-362 | the same for one workspace |
| Text.LessIff | crates/acp-web-backend/src/sessions.rs:608-617 | ids are compared lexicographically by scalar value |
| SessionStore.ListingIgnoresIterationOrder | crates/acp-web-backend/src/sessions.rs:319-336 | any iteration order of the map gives the same list |
| SessionStore.WorkspaceListIsFilteredOwnedList | crates/acp-web-backend/src/sessions.rs:338-362 | a workspace's list is the owner's list with the other workspaces' sessions left out: sorting commutes with filtering |
| SessionCap.ActiveCreatedSessionsStayWithinCap | crates/acp-web-backend/src/sessions.rs:231-268 | in every run of concurrent creates, restores, closes and deletes an owner has at most cap active sessions that create_session made, although the count is read handle by handle from a snapshot |
| SessionEffects.RefusedIffCountedCap | crates/acp-web-backend/src/sessions.rs:242-251 | a creation is refused exactly if it counted as many sessions as the cap |
| SessionEffects.CountedWasActive | crates/acp-web-backend/src/sessions.rs:242-247 | every session it counted was active and its owner's at the moment it was looked at |
| SessionEffects.EntriesComeBy | crates/acp-web-backend/src/sessions.rs:231-317 | an entry comes only with a creation, or with a restore of an id that was absent, and brings what was asked for |
| SessionEffects.EntriesGoBy | crates/acp-web-backend/src/sessions.rs:486-601 | an entry goes exactly when a removal lists its id |
| SessionEffects.RemovedForGood | crates/acp-web-backend/src/sessions.rs:486-601 | after a removal its ids never lead to a handle that was there before it |
| SessionEffects.HandlesChangeBy | crates/acp-web-backend/src/sessions/handle.rs:618-649 | a handle changes only by being closed or marked for deletion, and then is inactive with its first closing time |
| SessionEffects.ClosedForGood | crates/acp-web-backend/src/sessions/handle.rs:618-649 | a closed handle keeps its closing time in every run |
| SessionEffects.OnlyOwnersClose | crates/acp-web-backend/src/sessions.rs:539-557 | in every run a handle changes only at the request of its own owner, or of one that deletes that owner's sessions |
| SessionEffects.OnlyOwnersRemove | crates/acp-web-backend/src/sessions.rs:539-557 | apart from pruning an operation removes only ids under which it found a session of its own owner |
| SessionEffects.FindGoesOnIff | crates/acp-web-backend/src/sessions.rs:539-557 | the look-up refuses an absent id and another owner's session, and else goes on with the handle it found |
| SessionEffects.FindsAllOfOwners | crates/acp-web-backend/src/sessions.rs:497-515 | deleting for owners goes on with exactly their sessions |
| SessionEffects.StagesFit | crates/acp-web-backend/src/sessions.rs:231-526 | each request keeps to its own stages; only a close prunes, and it removes nothing else |
| SessionEffects.PruneKeepsLatest | crates/acp-web-backend/src/sessions.rs:579-594 | in every run a prune keeps as many of the closed sessions it read as the limit, none of them closed before one it removes |
| SessionLimit.ClosedSessionsStayWithinLimit | crates/acp-web-backend/src/sessions.rs:570-601 | in every run, once all operations have ended, at most the limit of closed sessions is left, not counting those some caller restored as closed |
| SessionLimit.LimitHoldsWithoutClosedRestores | crates/acp-web-backend/src/sessions.rs:570-601 | when no caller restores a closed session that is all closed sessions, with any number of active restores |
| SessionLimitRace.ClosedRestoresExceedTheLimit | crates/acp-web-backend/src/sessions.rs:289-317 | for every limit a run of one closed restore more, which ends with all of them in the store |
| SessionPruning.PruneRemovesOnlyClosed | crates/acp-web-backend/src/sessions.rs:570-601 | a session that no caller restores as active is closed when a prune removes it, in every run |
| SessionPruning.PruneRemovesClosedOrRestored | crates/acp-web-backend/src/sessions.rs:570-601 | in every run, if a session about to be pruned is active, then it sits under a newer handle than the one the prune read, restore_session made that handle, and some caller asks to restore that id as active |
| SessionPruneRace.PruneDropsARestoredSession | crates/acp-web-backend/src/sessions.rs:289-317 | for every limit of at least one, callers one of whom restores a session as active, and a run of them in which a prune removes that session while it is active |
| Sorting.SortIgnoresOrder | crates/acp-web-backend/src/sessions.rs:604-606 | sorting elements that never compare equal gives one result whatever order they come in |
| Sorting.SortCommutesWithFilter | crates/acp-web-backend/src/sessions.rs:604-606 | sorting a filtered list is filtering the sorted list |
| Routing.SessionPathParses | crates/acp-web-frontend/src/routing.rs:59-83 | a printed session path parses to its id, or to no route for the empty id |
| Routing.WorkspacePathParses | crates/acp-web-frontend/src/routing.rs:69-91 | a printed workspace path with non-empty parts parses to both parts |
| Routing.RouteUndoesPath | crates/acp-web-frontend/src/routing.rs:38-101 | for a non-empty session id the printed path parses back, with the workspace unless it is missing or blank |
| Routing.PrintedRouteParsesBack | crates/acp-web-frontend/src/routing.rs:38-101 | every pathname that names a session, printed from its route, parses to the same route |
| Routing.WorkspacePrinterKeepsRouteIffNotBlank | crates/acp-web-frontend/src/routing.rs:93-101 | the workspace-aware printer keeps a parsed workspace route exactly if the workspace is not blank |
| Routing.BlankWorkspaceIsLost | crates/acp-web-frontend/src/routing.rs:93-101 | a pathname whose workspace is one encoded space, which that printer loses |
| Routing.StaticPages | crates/acp-web-frontend/src/routing.rs:44-57 | the fixed pages and where they lead |
| Routing.TrailingSlashesPlayNoPart | crates/acp-web-frontend/src/routing.rs:44-57 | any number of slashes at the end of a fixed page's path |
| Routing.WorkspaceRouteIff | crates/acp-web-frontend/src/routing.rs:69-79 | a pathname names a workspace session exactly if it holds two non-empty parts at the first infix, the second a single segment, and both decode |
| Routing.SessionRouteIff | crates/acp-web-frontend/src/routing.rs:59-67 | a pathname names a plain session exactly if a non-empty part follows the prefix and decodes |
| PercentCoding.EncodeComponent | crates/acp-web-frontend/src/routing.rs:103-114 | the loop computes the percent encoding of the UTF-8 bytes |
| PercentCoding.DecodeComponent | crates/acp-web-frontend/src/routing.rs:116-135 | the index loop computes the decoding, or none for a bad escape or bytes that are not UTF-8 |
| PercentCoding.DecodedInvertsEncoded | crates/acp-web-frontend/src/routing.rs:103-135 | decoding undoes encoding for every Unicode string |
| PercentCoding.EncodedIsInjective | crates/acp-web-frontend/src/routing.rs:103-114 | different strings have different encodings |
| PercentCoding.EncodedForm | crates/acp-web-frontend/src/routing.rs:103-114 | encodings use unreserved characters and %XX only, hold no slash and are at most three times as long as the bytes |
| PercentCoding.EachCharacterAlone | crates/acp-web-frontend/src/routing.rs:103-114 | an unreserved character stands for itself, any other gives one triplet for each of its bytes, whatever surrounds it |
| PercentCoding.DecodesIffWrites | crates/acp-web-frontend/src/routing.rs:116-144 | decoding gives exactly the bytes a text writes, plainly or as triplets with digits of either case, and refuses every other text |
| PercentCoding.DecodedEmptiness | crates/acp-web-frontend/src/routing.rs:116-135 | only the empty component decodes to the empty string |
| Utf8.DecodeInvertsEncode | crates/acp-web-frontend/src/routing.rs:134 | UTF-8 decoding undoes encoding (section 3 of RFC 3629) |
| Utf8.EncodeInvertsDecode | crates/acp-web-frontend/src/routing.rs:134 | bytes that decode are the encoding of what they decode to: no overlong or surrogate form is accepted |
| Utf8.EncodeCharFollowsTable | crates/acp-web-frontend/src/routing.rs:104-106 | each character is encoded by the table of section 3 of RFC 3629 |
| CancelGenerations.KeepsInv | crates/acp-mock/src/lib.rs:109-133 | every step of cancels and prompts keeps the invariant about tickets, sends and readings |
| CancelGenerations.ValueDiffersIffSentSince | crates/acp-mock/src/lib.rs:123-132 | after a prompt has read a generation the watched value differs from it exactly from the next send on, in whatever order sends land |
| CancelGenerations.EarlyCancelIsNotMissed | crates/acp-mock/src/prompt.rs:57-64 | a cancel begun after the reading and done before the wait starts makes the wait answer true at once |
| CancelGenerations.LateCancelIsNoticed | crates/acp-mock/src/prompt.rs:66-69 | a send that lands during the wait can be noticed, and noticing it answers true |
| CancelGenerations.TrueOnlyAfterCancel | crates/acp-mock/src/prompt.rs:57-70 | true is answered only if a send landed after the reading, and an answer not given by the timer is true whenever one did |
| CancelRuns.WaitStartsIffNothingSent | crates/acp-mock/src/prompt.rs:57-64 | in every run the wait answers true at once exactly if something was sent between the reading and the wait |
| CancelRuns.WokenIffSentSinceSubscription | crates/acp-mock/src/prompt.rs:66-69 | a waiting prompt can be woken exactly if something was sent since its subscription, and then answers whether something was sent since its reading |
| CancelRuns.EndsEarlyIffSentBetween | crates/acp-mock/src/lib.rs:123-127 | with nothing sent since the reading, the wait can end before the timer exactly if something was sent between subscription and reading, and then answers false |
| CancelRuns.FindCourse | crates/acp-mock/src/lib.rs:305-330 | every prompt that holds or waits has subscribed and then read, so the three results above speak of all of them |
| CancelGenerations.WaitEndsEarlyWithoutCancel | crates/acp-mock/src/lib.rs:123-127 | a run of one prompt and one cancel in which that happens |
| AgentProfiles.RequestUsableIff | crates/acp-web-backend/src/agent_profiles.rs:203-278 | a request passes normalisation and configuration exactly if its name is not blank, some argument is not blank, the time limit is positive, a chroot user is not root and the environment names are safe |
| AgentProfiles.ConfigUsableIff | crates/acp-web-backend/src/agent_runtime.rs:102-137 | validation of a launch configuration accepts exactly commands without empty arguments, a positive time limit, an allowed user and safe names |
| AgentProfiles.StoredAcceptedIff | crates/acp-web-backend/src/agent_profiles.rs:280-308 | a stored profile is accepted exactly if its id is valid and every field is usable as it stands |
| AgentProfiles.NormalizedIsStored | crates/acp-web-backend/src/agent_profiles.rs:203-257 | normalising is idempotent, so what it produces is accepted when read back once id and configuration are |
| AgentProfiles.TrimAllKeepsOrder | crates/acp-web-backend/src/agent_profiles.rs:243-257 | an argument is kept, trimmed, unless it is blank, and arguments keep their order |
| ProfileStore.Store.Open | crates/acp-web-backend/src/agent_profiles.rs:47-57 | the store opens exactly on files that read, with the profiles read |
| ProfileStore.LoadIff | crates/acp-web-backend/src/agent_profiles.rs:142-159 | a file reads exactly if each profile in it is accepted, and of profiles with one id the last counts |
| ProfileStore.Store.UpsertProfile | crates/acp-web-backend/src/agent_profiles.rs:78-91 | keeps the store valid; the result and the new memory and file are those of the upsert, also when the write fails |
| ProfileStore.Store.CreateProfile | crates/acp-web-backend/src/agent_profiles.rs:93-130 | the same for a creation under the first generated id not in use |
| ProfileStore.Store.DeleteProfile | crates/acp-web-backend/src/agent_profiles.rs:102-109 | the same for a deletion |
| ProfileStore.ReadUndoesWrite | crates/acp-web-backend/src/agent_profiles.rs:142-183 | reading a file the store wrote gives back the map it was written from |
| ProfileStore.RunKeepsSound | crates/acp-web-backend/src/agent_profiles.rs:78-130 | in every run, whatever writes fail, names stay distinct and every profile stays acceptable |
| ProfileStore.OutcomeOfCommand | crates/acp-web-backend/src/agent_profiles.rs:78-130 | success has written memory to the file; a failed write left the file alone and memory as if it had worked; any other refusal changed nothing |
| ProfileStore.AgreementKeptIff | crates/acp-web-backend/src/agent_profiles.rs:78-130 | from a store that agrees with its file, reopening after a command would give what is in memory exactly if the write works or the command does not change memory, by a condition on the call and the store before it |
| ProfileStore.FailedWriteParts | crates/acp-web-backend/src/agent_profiles.rs:88-90 | a first upsert whose write fails: the profile is in memory and not in the file |
| ProfileStore.ReopenGivesLastAcknowledged | crates/acp-web-backend/src/agent_profiles.rs:142-183 | reopening after any run gives the profiles as they were at the last change that was acknowledged, and agrees with memory exactly if memory is still those |
| ProfileStore.UpsertSucceedsIff | crates/acp-web-backend/src/agent_profiles.rs:78-91 | an upsert is acknowledged exactly for a valid id, a usable request, a trimmed name no other id holds and a write that works; that id then has what was asked for, with its arguments trimmed and blanks dropped, and no other id changes |
| ProfileStore.UpsertRefusedFor | crates/acp-web-backend/src/agent_profiles.rs:78-91 | a bad id, a name held by another id and a failed write are told apart, in this order after the request's own faults |
| ProfileStore.CreateSucceedsIff | crates/acp-web-backend/src/agent_profiles.rs:111-130 | a creation is acknowledged exactly for a usable request, a trimmed name nobody holds and a write that works; it then adds one profile under a generated id that was free |
| ProfileStore.DeleteSucceedsIff | crates/acp-web-backend/src/agent_profiles.rs:102-109 | a deletion is acknowledged exactly for a valid id that is present and a write that works, refused as not found exactly for a valid absent one; that id is then gone and every other keeps its profile |
| MockClient.Client.SessionLock | crates/acp-web-backend/src/mock_client.rs:272-278 | the session's lock, or a new one that no other session has |
| MockClient.Client.ForgetSession | crates/acp-web-backend/src/mock_client.rs:252-270 | the session's upstream id and lock are gone, the others stay |
| MockClient.Client.ReuseCachedSession | crates/acp-web-backend/src/mock_client.rs:1083-1096 | an id that loaded is kept, one that did not is dropped from the cache |
| MockClient.Client.LoadOrCreateSession | crates/acp-web-backend/src/mock_client.rs:1016-1055 | undisturbed, the id returned is the cached one if it loads and else the new one, and the cache then holds exactly that |
| SessionLocks.KeepsLocks | crates/acp-web-backend/src/mock_client.rs:252-303 | every step keeps lock and look-up invariants of any number of operations and forgets |
| SessionOrder.LocksDifferIff | crates/acp-web-backend/src/mock_client.rs:252-303 | two operations of one session have different locks exactly when a forget removed the lock of the first to look up between the two look-ups |
| SessionOrder.MayStartIff | crates/acp-web-backend/src/mock_client.rs:252-303 | a queued operation can take its lock exactly when such a removal parts it from every running operation of its session; operations of other sessions never keep it waiting |
| SessionOrder.OverlapNeedsForget | crates/acp-web-backend/src/mock_client.rs:252-303 | two operations of one session run at once only after such a removal, by a forget of that session |
| SessionOrder.OneAtATime | crates/acp-web-backend/src/mock_client.rs:280-303 | until a forget reaches a session at most one of its operations runs |
| SessionOrder.IdInUseIsCached | crates/acp-web-backend/src/mock_client.rs:1016-1055 | until then the id an operation works with is the cached one, for as long as it works |
| SessionOrder.ReuseContinuesLastSession | crates/acp-web-backend/src/mock_client.rs:1083-1096 | until then a reused session is the one the session's previous operation worked with, and one that failed to load is gone from the cache |
| SessionOrder.LoadedIsReused | crates/acp-web-backend/src/mock_client.rs:1016-1043 | until a forget, a cached session that the agent loads is reused and is the last one used, and otherwise a new one is made |
| SessionOrder.DecideAlone | crates/acp-web-backend/src/mock_client.rs:1016-1043 | taken without interruption, reading, loading and deciding reuse or drop the cached id as the client's method does |
| SessionOrder.CreateAlone | crates/acp-web-backend/src/mock_client.rs:1045-1055 | so do creating and inserting |
| SessionOrder.ForgetAlone | crates/acp-web-backend/src/mock_client.rs:252-270 | and a forget leaves neither an upstream id nor a lock of its session |
| SessionProgress.GoesOnOrWaits | crates/acp-web-backend/src/mock_client.rs:280-303 | an operation that has not ended has a step of its own other than failing, or is queued behind a running one that holds its lock and has one |
| SessionProgress.StepDecreasesWork | crates/acp-web-backend/src/mock_client.rs:252-303 | every step lowers a natural measure |
| SessionProgress.EveryRunIsFinite | crates/acp-web-backend/src/mock_client.rs:252-303 | the length of every run is bounded by the operations and forgets it started with |
| SessionProgress.MaximalRunsEnd | crates/acp-web-backend/src/mock_client.rs:252-303 | where no step is left every operation and every forget has ended |
| SessionOrder.ForgetLetsTwoRun | crates/acp-web-backend/src/mock_client.rs:252-278 | a run in which a forget lets two operations of one session run at once |
| Branches.WorkspaceBranchesFromRefs | crates/acp-web-backend/src/workspace_checkout.rs:855-875 | the loop over the references gives exactly one branch for each named head among them, in strictly ascending order |
| Branches.OrderAndRepeatsPlayNoPart | crates/acp-web-backend/src/workspace_checkout.rs:855-875 | the list is determined by which references there are |
| Branches.PrioritizeWorkspaceBranchRef | crates/acp-web-backend/src/workspace_checkout.rs:877-892 | the first branch with the preferred reference leads and the others keep their order; without one nothing changes |
| Branches.RemoteBranches | crates/acp-web-backend/src/workspace_checkout.rs:457-465 | the result is the prioritised branch list of the references |
| Branches.PreferredLeads | crates/acp-web-backend/src/workspace_checkout.rs:877-892 | prioritising is a permutation; a preferred head among the references leads and the rest ascends strictly; otherwise the list is unchanged |
| ProxyBypass.HostAndPortSplitIff | crates/acp-web-backend/src/workspace_checkout.rs:813-829 | host:port splits back for every 16-bit port exactly if the host holds no colon and is not bracketed |
| ProxyBypass.BracketedAndPortSplitIff | crates/acp-web-backend/src/workspace_checkout.rs:813-829 | [address]:port splits back for every 16-bit port exactly if the address holds no closing bracket |
| ProxyBypass.PortIff | crates/acp-web-backend/src/workspace_checkout.rs:822-826 | a port is a numeral up to 65535, perhaps with leading zeros or a plus sign |
| ProxyBypass.NoPortNoSplit | crates/acp-web-backend/src/workspace_checkout.rs:822-828 | what is no port is not split off |
| ProxyBypass.EntryAcceptsDomainAndBelow | crates/acp-web-backend/src/workspace_checkout.rs:793-836 | a normal domain in any letter case, plain, with a leading dot or with a leading star and dot, with or without a port and white space around it, accepts exactly the domain and the hosts below it, on that port or on all |
| ProxyBypass.BracketedEntryAccepts | crates/acp-web-backend/src/workspace_checkout.rs:793-836 | an address in brackets, with or without a port, accepts exactly itself and what ends in a dot and it |
| ProxyBypass.StarAndBlank | crates/acp-web-backend/src/workspace_checkout.rs:793-800 | a star accepts every host on every port, a blank entry none |
| ProxyBypass.EmptyNamesAcceptNothing | crates/acp-web-backend/src/workspace_checkout.rs:805-810 | an entry of which nothing is left accepts no host |
| ProxyBypass.WrittenEntryAccepts | crates/acp-web-backend/src/workspace_checkout.rs:793-836 | for a lower-case host, an entry as written accepts exactly the domain itself and hosts that end in a dot and the domain, on its port or on all |
| ProxyBypass.SuffixAfterDot | crates/acp-web-backend/src/workspace_checkout.rs:831-836 | the suffix test accepts exactly hosts that end in a dot and the entry |

## Left out

- Process, cgroup, chroot, chown and socket calls: only spawning, terminating and arbitrary timing are modelled; the cgroup kill on a timeout is not.
- LaunchTheorems.TouchesOnlyOwnReservation: supposes fewer than 2^64 reservations after the launch's own, because with 2^64 the statement is false.
- LaunchOutcomes.LosesOnlyToForget: supposes at most 2^64 reservations in all, because a reused id lets another launch clear the slot.
- LaunchProgress.EveryRunIsFinite: spurious wake-ups are counted, not bounded, because the condition variable may deliver any number.
- SessionLimit.ClosedSessionsStayWithinLimit: does not count sessions restored as closed, because with them the limit is exceeded.
- SessionPruning.PruneRemovesOnlyClosed: speaks of sessions that no caller restores as active, because with such a caller a prune can drop one; PruneRemovesClosedOrRestored covers all runs.
- SessionStore.Store: marking of a deleted handle is seen only by holders of that handle and is modelled in SessionProtocol, as are discard_session and delete_sessions_for_owners.
- SessionStore.Store.CountActive: reads the map as it stands; reading handle by handle while others run is modelled in SessionProtocol.
- Turns, prompts, permissions, messages, titles and activity order of a session handle: they take no part in the cap, pruning or deletion.
- Missed events of session_events: the snapshot is taken before the subscription, so no such claim is made.
- The mock agent's session table, tool calls, replies and authentication; its atomic counter and watch channel are modelled as steps of a state machine and not as an object.
- The working-directory, address and stdio tables of the ACP client, and what an operation does with its upstream session.
- SessionOrder.IdInUseIsCached: speaks of sessions no forget has reached, because a forget may drop the entry while the id is in use.
- Branches.PrioritizeWorkspaceBranchRef: returns the new list instead of changing the vector in place.
- Listing and looking up profiles, and the text of error messages.
- The JSON form of profiles, temporary file names and how writes fail: they are one outcome of a write.
- URL parsing, loopback hosts and the environment around NO_PROXY: only single entries are matched.
- The launcher's lock file: its exclusion rests on timing that the code does not settle.
- Git, HTTP, event streams, TLS, views, the terminal interface, the SQLite repository and slash command tables: library plumbing or single-branch facts.
