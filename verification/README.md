# Verified model of the update service

This project models the parts of the update service whose correctness depends on state, interleaving or
arithmetic, and proves what they keep over whole runs. `dafny verify dfyconfig.toml` checks everything.

- `StreamProgress.dfy`: the block buffer between curl and the installer.
- `ClientKit.dfy`, `ServerRegistry.dfy`: callback registration on both sides of IPC, with service death,
  reconnects, client death and the idle flag.
- `UnlockObserver.dfy`, `WorkerHandshake.dfy`: two concurrent protocols, the user-unlock observer and the
  wait/notify/join handshake of the download worker.
- `IdleUnload.dfy`: the idle loop that may unload the service.
- `Timers.dfy`, `NightAlarm.dfy`, `AutoAlarm.dfy`: the alarms under clock jumps and failing timers.
- `CheckAnalyze.dfy`, `Changelog.dfy`, `Strings.dfy`: the answer of the version check, the size shown for it, and
  the changelog that is written and read back.
- `DownloadProgress.dfy`: the progress reports of a file download.
- `NetNotifier.dfy`: the network-change notifier.
- `HeaderParse.dfy`: header lookup, and when it agrees with section 5 of RFC 9112.

Protocols are transition systems: a `State`, a `Step` type, `Enabled` and `Apply`, and results for every sequence of
steps. Objects that change their fields are classes; each method is proved equal to a function on the object's
abstract value (`View()`), and the laws are proved of that function.

Where the code gives less than its comments or callers suggest, the model follows the code:

- a reconnecting client can leave a stale entry at the server (`ClientKit.StaleEntry`, and exactly when:
  `ClientKit.ContainmentIsEqualityIff`);
- a late death notice can remove the next owner's entry (`ServerRegistry.LateNoticeRace`, and exactly when:
  `ServerRegistry.NoticesOverRuns`); a client that dies before its registration is handled leaves an entry that no
  notice removes, so that the service never looks idle (`ServerRegistry.SectionsKeep`);
- a quit during a parked worker blocks both threads for good (`WorkerHandshake.StuckExactly`), and a wake-up after
  the worker has ended starts nothing (`WorkerHandshake.EndedWorkerStaysEnded`), while StopProgress starts one more
  execution (`WorkerHandshake.StopExecutes`); after a quit, even one without a worker, nothing is executed until a
  StopProgress (`WorkerHandshake.NothingAfterQuit`);
- a subscriber can outlive the initialisation of the unlock observer, and an unlock can be missed; both have their
  exact conditions (`UnlockObserver.NeverStaysIff`, `UnlockObserver.NeverMissedIff`), and another user's unlock
  initialises the business as well (`UnlockObserver.NeverEarlyIff`);
- the keep-alive threshold of 3600 s does not keep the service (`IdleUnload.KeepAliveNotEnforced`);
- the comment of `GetRandTime` promises min to max, but min is not added (`Timers.IsDraw`); the comment next to the
  auto-upgrade duration says 3600 s where the value is one day (`AutoAlarm.DURATION`);
- a night alarm handler that waits for the lock forgets a newer timer (`NightAlarm.OneTimerStep`,
  `NightAlarm.LateHandlerLeaks`), and a fired auto-upgrade timer is taken for active
  (`AutoAlarm.RefreshedTimerLive`, `AutoAlarm.FiredTimerTakenForActive`);
- refreshes of the auto-upgrade alarm take no lock, so that overlapping ones can leak a timer (`AutoAlarm.OverlapLeaks`,
  and exactly when: `AutoAlarm.LostOverRuns`); a timer that cannot be started is never destroyed
  (`AutoAlarm.UnstartedGrow`);
- only the last component of a check gets a changelog file, so a version whose components have several ids cannot be
  described (`CheckAnalyze.DescribedOnlyWithOneId`), and that file is written even when the answer is rejected;
- after a reported early failure, a retry in which curl fails at once is not reported and does not remove the file
  (`DownloadProgress.RetryIsSilent`, and exactly when: `DownloadProgress.OneDownload`);
- the idle flag is read without the lock, so a service may be unloaded while its only client is just registering
  (`IdleUnload.UnloadSawNoClient`);
- a network callback without a function crashes the process when it is caught up (`NetNotifier.NullCrashes`), and a
  function can be called after its unregister (`NetNotifier.CalledAfterUnregisterIff`);
- a header value shorter than its name is lost (`HeaderParse.FieldIsRfc`), and names are compared with their case
  (`HeaderParse.LineAgreesIff`).

Assumptions: IPC to the live incarnation succeeds and to a dead one fails; every `UpgradeInfo` key has one client;
local time is a fixed offset from UTC; there is one network notifier; `size_t` has 64 bits.

## Model

| member | source | states |
|---|---|---|
| `StreamProgress.CutConserves` | services/engine/src/stream_progress_thread.cpp:208-239 | conservation: the blocks and what stays in the buffer, put together, are exactly the received bytes in order |
| `StreamProgress.CutShape` | services/engine/src/stream_progress_thread.cpp:211-239 | every block has BUFFER_SIZE-1 bytes except at most one last, shorter and non-empty block where the package ends |
| `StreamProgress.CutAppend` | services/engine/src/stream_progress_thread.cpp:208-243 | cutting continues across calls: the blocks of a whole string are those of its first part and then those of its rest with what follows |
| `StreamProgress.RefusedEarly` | services/engine/src/stream_progress_thread.cpp:224-235 | a block refused while only a prefix of the stream has arrived is the very block that the whole stream's cut would have refused, with the same blocks before it |
| `StreamProgress.TransferFrom` | services/engine/src/stream_progress_thread.cpp:197-244 | from any point of a transfer on, the installer ends with the blocks of the whole byte string up to the first refusal, and the buffer with what is left over or the refused block |
| `StreamProgress.TransferLaw` | services/engine/src/stream_progress_thread.cpp:36-244 | from StartDownload on, outcome, delivered blocks, buffer and number of installer calls are a function of the bytes and the installer's answers alone; the byte count too when all blocks are taken |
| `StreamProgress.ChunkingIndependence` | services/engine/src/stream_progress_thread.cpp:197-244 | two ways of splitting one byte stream into calls succeed alike, deliver the same blocks in as many installer calls and leave the same buffer, for every behaviour of the installer; when all blocks are taken the byte count is the same too (after a refusal it is the end of the last whole chunk) |
| `StreamProgress.TransferConserves` | services/engine/src/stream_progress_thread.cpp:208-243 | while all blocks are taken, blocks plus buffer are all bytes received; below the total the buffer holds the count modulo the block length, at the total nothing |
| `StreamProgress.PartwayStep` | services/engine/src/stream_progress_thread.cpp:211-239 | one pass of the copy loop keeps what is in hand equal to the blocks still missing, and a refusal in it is the refusal of the call |
| `StreamProgress.StreamProgressThread.StartDownload` | services/engine/src/stream_progress_thread.cpp:36-48 | the buffer is emptied and zeroed and the count starts at the record point |
| `StreamProgress.StreamProgressThread.WriteFunc` | services/engine/src/stream_progress_thread.cpp:197-244 | the loop terminates and does to buffer, count and installer what the cut of buffer plus chunk says; -1 as size_t exactly when a block is refused |
| `StreamProgress.StreamProgressThread.CopyAndFlush` | services/engine/src/stream_progress_thread.cpp:211-239 | one pass copies what fits, at least one byte into a buffer with space, and hands over a full or final block |
| `StreamProgress.StreamProgressThread.Flush` | services/engine/src/stream_progress_thread.cpp:225-239 | a taken block empties the buffer, a refused one stays in it |
| `StreamProgress.StreamProgressThread.DownloadFile` | services/engine/src/stream_progress_thread.cpp:132-155 | a transfer driven by curl is the sequence of its chunks up to the first write error |
| `ClientKit.SyncedStep` | interfaces/inner_api/engine/src/update_service_kits_impl.cpp:37-66 | every step keeps: with a live handle, each client entry is at the server or in the hands of the thread that holds the lock |
| `ClientKit.CountedStep` | interfaces/inner_api/engine/src/update_service_kits_impl.cpp:319-332 | every step keeps the reconnect count equal to retryTimes_ plus one in progress, and at most 3 |
| `ClientKit.Convergence` | interfaces/inner_api/engine/src/update_service_kits_impl.cpp:37-66 | in every interleaving, with the lock free and the live incarnation as handle, all client entries are registered there with the same callback |
| `ClientKit.ReconnectsBounded` | interfaces/inner_api/engine/src/update_service_kits_impl.cpp:319-332 | service deaths cause at most 3 reconnects in a run |
| `ClientKit.DeathIsNoticed` | foundations/ability/sa_loader/include/base_service_kits_impl.h:74-107 | over every run, the incarnations that give a death notice are exactly those that AddDeathRecipient has linked at some time and that are not live; such a notice is enabled in every later state with the lock free |
| `ClientKit.NoticeReconnects` | interfaces/inner_api/engine/src/update_service_kits_impl.cpp:319-332 | a death notice drops the handle, and with callbacks and retries left it makes the kit connect again and send every callback |
| `ClientKit.HandleChanges` | foundations/ability/sa_loader/include/base_service_kits_impl.h:74-131 | failed calls and death notices drop the handle, a connect sets it, and no other step changes it |
| `ClientKit.ResumedOnce` | interfaces/inner_api/engine/src/update_service_kits_impl.cpp:319-332 | over every run, the second half of ResetService runs once for each notice |
| `ClientKit.ContainmentIsEqualityIff` | interfaces/inner_api/engine/src/update_service_kits_impl.cpp:37-66 | in every run that ends with the lock free and the kit connected, the live server has no entry of this client besides those of the client map if and only if no key is stale, where an unregister that meets a dead handle makes a key stale and a registration, reconnect, unregister or server death ends that |
| `ClientKit.StaleOverRuns` | interfaces/inner_api/engine/src/update_service_kits_impl.cpp:37-66 | over every run: stale keys are at the live server, client map and stale keys are all that this client has there, and a connected kit has dropped no other |
| `ClientKit.Equality` | interfaces/inner_api/engine/src/update_service_kits_impl.cpp:37-66 | so when no unregister of the run met a dead handle, what the live server has of this client is exactly the client map |
| `ClientKit.StaleEntry` | interfaces/inner_api/engine/src/update_service_kits_impl.cpp:55-66 | a run in which the live server keeps an entry that the connected client has dropped, so containment cannot become equality |
| `ClientKit.UpdateServiceKitsImpl.RegisterCallback` | interfaces/inner_api/engine/src/update_service_kits_impl.cpp:309-317 | after connecting, the live server has all entries of the client map on top of its own; a dead one is unchanged |
| `ClientKit.UpdateServiceKitsImpl.GetService` | foundations/ability/sa_loader/include/base_service_kits_impl.h:74-107 | returns the cached handle, or connects and re-registers all callbacks at a live server and nothing at a dead one; a found service is linked exactly if AddDeathRecipient works, before the cast; a run of the protocol |
| `ClientKit.UpdateServiceKitsImpl.RegisterUpdateCallback` | interfaces/inner_api/engine/src/update_service_kits_impl.cpp:37-53 | succeeds exactly when the handle is the live incarnation; with any handle the callback is stored, also when the call failed, and a failure drops the handle; which registry results; a run of the protocol |
| `ClientKit.UpdateServiceKitsImpl.UnregisterUpdateCallback` | interfaces/inner_api/engine/src/update_service_kits_impl.cpp:55-66 | succeeds exactly when the handle is the live incarnation; with any handle the key is erased first, so after a failed call only the server may keep it; a run of the protocol |
| `ClientKit.UpdateServiceKitsImpl.ResetService` | interfaces/inner_api/engine/src/update_service_kits_impl.cpp:319-332 | a death notice keeps the client map, counts one retry exactly when there are callbacks and fewer than 3 retries so far, and then reconnects and re-registers; a run of the protocol |
| `ClientKit.UpdateServiceKitsImpl.Reconnect` | foundations/ability/sa_loader/include/base_service_kits_impl.h:74-94 | GetService inside ResetService, with and without success, is a run of the protocol |
| `ServerRegistry.RegistryRefines` | services/engine/src/update_service.cpp:63-103 | over every sequence of calls the map is last-writer-wins; an entry has its death recipient exactly if it has a callback and the AddDeathRecipient of its own registration worked; no other recipient is linked, and the idle flag is emptiness |
| `ServerRegistry.RegisterExact` | services/engine/src/update_service.cpp:63-79 | a registration overwrites the key and touches no other key or recipient; its entry has a recipient exactly if there is a callback and AddDeathRecipient worked |
| `ServerRegistry.UnregisterExact` | services/engine/src/update_service.cpp:81-93 | an unregister removes the key only, with its recipient |
| `ServerRegistry.SectionsKeep` | services/engine/src/update_service.cpp:63-93 | with registration split into its two critical sections, at every release of the lock the idle flag is emptiness, and the entries without a recipient are exactly those that were made by a registration whose AddDeathRecipient failed |
| `ServerRegistry.InsertExactIff` | services/engine/src/update_service.cpp:68-74 | the second section leaves links and entries exact exactly when the callback is null, or AddDeathRecipient works just if nobody registered the key in between |
| `ServerRegistry.SectionsExactIff` | services/engine/src/update_service.cpp:63-93 | over every interleaving of critical sections the linked recipients are exactly the entries' own, if and only if no registration linked its callback after another one had taken its key between its two sections, and no entry is left whose AddDeathRecipient failed |
| `ServerRegistry.FlagLagsOverRuns` | services/engine/src/update_service.cpp:68-91 | seen without the lock at any moment, the idle flag is emptiness, except between the write of the map and the write of the flag, where it may still be true with one entry |
| `ServerRegistry.WritesAreSections` | services/engine/src/update_service.cpp:68-91 | the separate writes of map and flag add up to the critical sections |
| `ServerRegistry.SectionIsWrites` | services/engine/src/update_service.cpp:68-91 | the map write leaves the flag and the flag write leaves the map; together, with nothing between them, they are the section |
| `ServerRegistry.IdleBetweenSections` | services/engine/src/update_service.cpp:63-93 | replacing the only callback makes the service look idle for a moment |
| `ServerRegistry.LateNotice` | services/engine/src/update_service_common.cpp:53-61 | a death notice spares all registrations but its own exactly when no other one has taken over the key |
| `ServerRegistry.NoticesOverRuns` | services/engine/src/update_service_common.cpp:53-61 | over every run of calls, deaths and notices of any delay: some notice removes the entry of another registration if and only if some notice is handled whose key was registered again after the death and not given up since |
| `ServerRegistry.DeathRemoves` | services/engine/src/update_service_common.cpp:53-97 | over every run after the death of a client: of each entry that had its recipient then, the notice is still under way or the entry is gone |
| `ServerRegistry.LateNoticeRace` | services/engine/src/update_service_common.cpp:53-61 | the race in which a late notice removes the new owner's entry |
| `ServerRegistry.UpdateService.RegisterUpdateCallback` | services/engine/src/update_service.cpp:63-79 | the object follows the registry function, and the callback can be looked up afterwards |
| `ServerRegistry.UpdateService.UnregisterUpdateCallback` | services/engine/src/update_service.cpp:81-93 | the object follows the registry function, idle flag included |
| `ServerRegistry.UpdateService.OnRemoteDied` | services/engine/src/update_service_common.cpp:53-61 | a notice unregisters its recipient's key |
| `ServerRegistry.UpdateService.ReportDeath` | services/engine/src/update_service_common.cpp:53-97 | when nothing gets in between, the death of a client removes exactly its entries that have a recipient; one whose AddDeathRecipient failed stays, and the service is not idle |
| `UnlockObserver.InitialisedOnce` | services/core/ability/user_unlock/src/update_user_unlock_observer.cpp:139-161 | over all interleavings and environments the unlock callback runs at most once, never before initialized_ is set |
| `UnlockObserver.UnlockNotMissed` | services/core/ability/user_unlock/src/update_user_unlock_observer.cpp:63-121 | once a Start has returned, an unlocked user means initialised or something on its way, given right account answers, working subscriptions and no Stop |
| `UnlockObserver.NeverMissedIff` | services/core/ability/user_unlock/src/update_user_unlock_observer.cpp:63-137 | over all configurations: no run misses an unlock if and only if account answers are right, subscriptions work and Stop is not called |
| `UnlockObserver.UnlockArrives` | services/core/ability/user_unlock/src/update_user_unlock_observer.cpp:39-161 | under those conditions, in every later state where no event or task is on its way the observer is initialised |
| `UnlockObserver.NoSubscriberLeft` | services/core/ability/user_unlock/src/update_user_unlock_observer.cpp:63-161 | at quiescence an initialised observer has no subscriber, for one Start, or for right answers and only the active user's events |
| `UnlockObserver.NeverStaysIff` | services/core/ability/user_unlock/src/update_user_unlock_observer.cpp:63-161 | over all configurations: no run leaves a subscriber at an initialised, quiescent observer if and only if Start is called once, or answers are right and only the active user's events arrive |
| `UnlockObserver.NeverEarlyIff` | services/core/ability/user_unlock/src/update_user_unlock_observer.cpp:39-161 | over all configurations: the business is initialised in no run while the active user is locked, if and only if account answers are right and only that user's events arrive |
| `UnlockObserver.InitialisedLocked` | services/core/ability/user_unlock/src/update_user_unlock_observer.cpp:39-161 | for every other configuration, a run that initialises it for a locked user |
| `UnlockObserver.SubscriberCanStay` | services/core/ability/user_unlock/src/update_user_unlock_observer.cpp:63-161 | for every other configuration, a run that leaves a subscriber behind |
| `UnlockObserver.OneWinnerStep` | services/core/ability/user_unlock/src/update_user_unlock_observer.cpp:139-161 | every step keeps: one winner of the compare-and-set, whose callback has run or is about to |
| `UnlockObserver.WatchedStep` | services/core/ability/user_unlock/src/update_user_unlock_observer.cpp:63-121 | every step keeps: a registered Start has left a live subscription, and check, subscribe, recheck leave no gap |
| `UnlockObserver.CleanedStep` | services/core/ability/user_unlock/src/update_user_unlock_observer.cpp:123-161 | every step keeps: a subscriber that outlives initialisation has a removal pending |
| `UnlockObserver.SubscriptionsOverRuns` | services/core/ability/user_unlock/src/update_user_unlock_observer.cpp:87-137 | over every run, the event service knows the recorded subscriber, those that it failed to remove, and no others |
| `UnlockObserver.WinnerRuns` | services/core/ability/user_unlock/src/update_user_unlock_observer.cpp:139-161 | a winner of the compare-and-set calls back once, and its queued task ends the subscription |
| `UnlockObserver.LoserRuns` | services/core/ability/user_unlock/src/update_user_unlock_observer.cpp:139-145 | a loser calls nothing back and ends the subscription itself |
| `UnlockObserver.StartUnlocked` | services/core/ability/user_unlock/src/update_user_unlock_observer.cpp:63-71 | a Start that finds the user unlocked initialises the business without a subscription |
| `UnlockObserver.StartLocked` | services/core/ability/user_unlock/src/update_user_unlock_observer.cpp:63-161 | a Start that finds the user locked subscribes, and the unlock event then initialises the business once and ends the subscription |
| `UnlockObserver.UnlockedBetweenChecks` | services/core/ability/user_unlock/src/update_user_unlock_observer.cpp:63-80 | an unlock whose event goes out between the first check and the subscription is found by the second check |
| `WorkerHandshake.EarlyWorkerNeverSeesExit` | services/engine/src/progress_thread.cpp:35-90 | a worker started before any quit never observes isExitThread_ |
| `WorkerHandshake.QuitReturns` | services/engine/src/progress_thread.cpp:35-47 | quit returns only without a worker, or after it ended by ProcessThreadExecute returning false, or, for a later worker, by the exit flag |
| `WorkerHandshake.StuckExactly` | services/engine/src/progress_thread.cpp:35-90 | no thread can move exactly when quit holds the mutex in join and the worker is parked at the lock or in the wait |
| `WorkerHandshake.QuitOutcome` | services/engine/src/progress_thread.cpp:35-90 | which quits block: during lock or wait always, during an execution exactly if it asks to be run again |
| `WorkerHandshake.QuitEnds` | services/engine/src/progress_thread.cpp:35-47 | a quit that joins a worker on its way out or at its end returns, and leaves neither worker nor mutex behind |
| `WorkerHandshake.StuckIsReachable` | services/engine/src/progress_thread.cpp:35-90 | such a state is reachable |
| `WorkerHandshake.WakeNotLost` | services/engine/src/progress_thread.cpp:35-90 | after a StartProgress, a StopProgress or a quit, in every later state an execution has begun or the wake-up still stands with the worker awake |
| `WorkerHandshake.WakeServed` | services/engine/src/progress_thread.cpp:70-90 | a standing wake-up with the mutex free is two worker steps from its execution |
| `WorkerHandshake.StartServed` | services/engine/src/progress_thread.cpp:49-90 | after a StartProgress, as long as no execution has begun: whenever the mutex is free, no exit is asked for and the worker is in its loop, two of its steps begin one |
| `WorkerHandshake.StartExecutes` | services/engine/src/progress_thread.cpp:49-90 | in particular right after the call, which creates the worker if there is none |
| `WorkerHandshake.SpuriousIsHarmless` | services/engine/src/progress_thread.cpp:70-79 | a wake-up without notification leads back into the same wait |
| `WorkerHandshake.EndedWorkerStaysEnded` | services/engine/src/progress_thread.cpp:49-90 | once the worker has ended, no StartProgress executes anything until a quit has joined it |
| `WorkerHandshake.NothingAfterQuit` | services/engine/src/progress_thread.cpp:35-90 | after a quit nothing is executed until a StopProgress has cleared the exit flag; a worker that is created in between sees the flag and ends |
| `WorkerHandshake.ExecutionHasCause` | services/engine/src/progress_thread.cpp:35-90 | every execution answers what came since the one before it: a StartProgress, or a StopProgress, and never a quit alone |
| `WorkerHandshake.StopExecutes` | services/engine/src/progress_thread.cpp:62-88 | a StopProgress makes a worker in its loop execute once more |
| `WorkerHandshake.ExecutionsBounded` | services/engine/src/progress_thread.cpp:35-90 | in every run there are at most as many executions as calls of StartProgress and StopProgress |
| `Timers.Alarm` | services/core/ability/alarm/src/alarm_timer_utils.cpp:60-109 | an id above 0 is returned exactly when the time lies ahead and the timer could be created and started; it is new, and then that timer is live |
| `Timers.TimeService.RegisterAlarm` | services/core/ability/alarm/src/alarm_timer_utils.cpp:60-77 | past times are rejected, otherwise the timer service decides |
| `Timers.TimeService.RegisterTimer` | services/core/ability/alarm/src/alarm_timer_utils.cpp:93-109 | a timer that cannot be started is created but not live |
| `Timers.TimeService.UnregisterAlarm` | services/core/ability/alarm/src/alarm_timer_utils.cpp:111-118 | that timer and no other stops being live |
| `NightAlarm.LocalOfMkTime` | services/firmware/alarm/src/night_upgrade_alarm_manager.cpp:147-178 | mktime and localtime undo each other in a fixed offset |
| `NightAlarm.PlannedUnique` | services/firmware/alarm/src/night_upgrade_alarm_manager.cpp:147-178 | there is only one moment in the next day with the planned local hour, the drawn minute and now's second |
| `NightAlarm.PlannedBound` | services/firmware/alarm/src/night_upgrade_alarm_manager.cpp:147-178 | it lies at most 86340 s ahead and its local hour is 2 or 3 |
| `NightAlarm.NightUpgradeAlarmManager.CalculateUpgradeTime` | services/firmware/alarm/src/night_upgrade_alarm_manager.cpp:147-178 | for every clock, offset and draw the result is that moment, strictly after now; 0 without a local time |
| `NightAlarm.LessIsStrictTotalOrder` | services/firmware/alarm/include/night_upgrade_alarm_manager.h:50-60 | CompareClass is a strict total order on (reboot flag, priority) |
| `NightAlarm.DispatchUnique` | services/firmware/alarm/src/night_upgrade_alarm_manager.cpp:131-140 | the description of a night's dispatch (all non-reboot tasks by priority, then the best reboot task if any, nothing else) leaves one order only |
| `NightAlarm.NightUpgradeAlarmManager.HandleNightUpgrade` | services/firmware/alarm/src/night_upgrade_alarm_manager.cpp:131-140 | for every task map the loop runs exactly that dispatch, each with its own callback |
| `NightAlarm.NightUpgradeAlarmManager.HandleNightUpgradeAlarm` | services/firmware/alarm/src/night_upgrade_alarm_manager.cpp:116-129 | a handler that gets the lock clears time and id, whichever timer is recorded, and dispatches the registered tasks |
| `NightAlarm.TimersOverRuns` | services/firmware/alarm/src/night_upgrade_alarm_manager.cpp:39-129 | over every run, with expiry and handling as separate steps: at all times no timer besides the recorded one is live, if and only if no handler got the lock while another recorded timer was live |
| `NightAlarm.NightInvariant` | services/firmware/alarm/src/night_upgrade_alarm_manager.cpp:39-129 | in every run without a failing alarm, late handlers included, a just registered task is reported registered |
| `NightAlarm.RegisteredIff` | services/firmware/alarm/src/night_upgrade_alarm_manager.cpp:39-105 | in general it is reported exactly when a legal time with a timer was there or the new alarm could be set |
| `NightAlarm.RepeatKeepsTimer` | services/firmware/alarm/src/night_upgrade_alarm_manager.cpp:82-105 | a computed time is never illegal at its own clock value, so a repeated register keeps the timer whatever is drawn |
| `NightAlarm.RegisterPlans` | services/firmware/alarm/src/night_upgrade_alarm_manager.cpp:82-178 | a recorded time within the next day is kept with its timer; otherwise the next night is planned, and its timer is the only one live, if it can be set |
| `NightAlarm.TasksOverRuns` | services/firmware/alarm/src/night_upgrade_alarm_manager.cpp:39-66 | over every run, the task map holds under each key what the last effective registration has left: one is effective unless the task was reported registered, an unregister removes the first task of its priority in map order, and alarms, handlers and other keys change nothing |
| `NightAlarm.UnregisterLast` | services/firmware/alarm/src/night_upgrade_alarm_manager.cpp:51-66 | an unregister that empties the map leaves id 0, time -1 and no live timer |
| `NightAlarm.OneTimerStep` | services/firmware/alarm/src/night_upgrade_alarm_manager.cpp:39-129 | a step leaves an unrecorded live timer exactly if it is such a late handler |
| `NightAlarm.LiveBounded` | services/firmware/alarm/src/night_upgrade_alarm_manager.cpp:39-129 | in every run from the start, at most one timer is live for each late handler, and one more |
| `NightAlarm.LateHandlerLeaks` | services/firmware/alarm/src/night_upgrade_alarm_manager.cpp:88-129 | a run from the start in which a handler is late and two timers end up live |
| `NightAlarm.ExpiredStaysGone` | services/firmware/alarm/src/night_upgrade_alarm_manager.cpp:116-129 | a timer that has expired is not live again in any later state |
| `NightAlarm.HandledOnce` | services/firmware/alarm/src/night_upgrade_alarm_manager.cpp:116-129 | over every run, handlers run and waiting ones are as many as expired timers |
| `NightAlarm.NightUpgradeAlarmManager.RegisterNightUpgradeTask` | services/firmware/alarm/src/night_upgrade_alarm_manager.cpp:39-49 | the object follows the state function: the task is stored unless it is reported registered, then the alarm is armed |
| `NightAlarm.NightUpgradeAlarmManager.InnerRegisterNightUpgradeEvent` | services/firmware/alarm/src/night_upgrade_alarm_manager.cpp:88-105 | a legal time keeps everything, an illegal one replaces timer and time |
| `NightAlarm.NightUpgradeAlarmManager.UnregisterNightUpgradeTask` | services/firmware/alarm/src/night_upgrade_alarm_manager.cpp:51-66 | the first entry of that priority in map order goes, and the alarm with the last entry |
| `AutoAlarm.NoLeakOverRuns` | services/firmware/alarm/src/firmware_auto_upgrade_alarm_manager.cpp:87-175 | over every run of refreshes, firings, cancels and clock jumps in which refreshes do not overlap, a live timer is the recorded one, set for the saved time |
| `AutoAlarm.LostOverRuns` | services/firmware/alarm/src/firmware_auto_upgrade_alarm_manager.cpp:87-175 | over every interleaving of refreshes and cancels, step by step at each access of autoTimerId_: at all times each live timer is recorded or held by the thread that is about to record it, if and only if no write of autoTimerId_ met the id of a live timer |
| `AutoAlarm.LostMove` | services/firmware/alarm/src/firmware_auto_upgrade_alarm_manager.cpp:87-175 | the timer that a step loses is the one whose id it overwrites, and no other |
| `AutoAlarm.LiveBounded` | services/firmware/alarm/src/firmware_auto_upgrade_alarm_manager.cpp:87-175 | when all refreshes of a new object have returned, at most one timer is live for each such write, and one more |
| `AutoAlarm.RefreshIsRun` | services/firmware/alarm/src/firmware_auto_upgrade_alarm_manager.cpp:87-110 | a refresh that nothing interrupts is a run of these steps with the result of the refresh function |
| `AutoAlarm.CancelIsRun` | services/firmware/alarm/src/firmware_auto_upgrade_alarm_manager.cpp:163-175 | and so is a cancel |
| `AutoAlarm.OverlapLeaks` | services/firmware/alarm/src/firmware_auto_upgrade_alarm_manager.cpp:87-110 | two overlapping EVENT refreshes of a new object leave two live timers, of which one is recorded |
| `AutoAlarm.UnstartedGrow` | services/core/ability/alarm/src/alarm_timer_utils.cpp:93-109 | over every interleaving, the timers that were created, never started and never destroyed grow by one with each failing start, and never shrink |
| `AutoAlarm.EventBounds` | services/firmware/alarm/src/firmware_auto_upgrade_alarm_manager.cpp:112-161 | after an EVENT the saved time lies in [now, now+86400] whatever was saved, asked for or jumped, and the retry flag is answered |
| `AutoAlarm.EventAnswersRetry` | services/firmware/alarm/src/firmware_auto_upgrade_alarm_manager.cpp:112-161 | an EVENT with a retry pending is due within 55 minutes with a timer for just that time; one whose time has passed or lies more than a day ahead is due in 10 seconds; otherwise time and timer stay |
| `AutoAlarm.OtherRefreshes` | services/firmware/alarm/src/firmware_auto_upgrade_alarm_manager.cpp:112-134 | the windows that DURATION and RAND refreshes aim at, with the timer for it; VERIFY and DELAY ones keep the time; none of them answers a retry |
| `AutoAlarm.RetryStands` | services/firmware/alarm/src/firmware_auto_upgrade_alarm_manager.cpp:112-161 | over every run, a retry that was asked for stands until an EVENT |
| `AutoAlarm.RetryStandsInOverlaps` | services/firmware/alarm/src/firmware_auto_upgrade_alarm_manager.cpp:112-161 | the same over every interleaving of overlapping refreshes |
| `AutoAlarm.TimerAfterRefresh` | services/firmware/alarm/src/firmware_auto_upgrade_alarm_manager.cpp:87-110 | a timer is recorded afterwards exactly when time and timer stayed or the new alarm could be set |
| `AutoAlarm.RecordedTimerLive` | services/firmware/alarm/src/firmware_auto_upgrade_alarm_manager.cpp:87-175 | over every interleaving of refreshes, cancels and expiries from a new object: the recorded timer is live exactly when an id is recorded whose timer has neither expired nor been destroyed, and the live timers are all that were armed, less those |
| `AutoAlarm.RefreshedTimerLive` | services/firmware/alarm/src/firmware_auto_upgrade_alarm_manager.cpp:87-110 | in every run without overlaps, after a refresh of any type the recorded timer is live exactly when time and timer were kept and that timer has not fired, or the new alarm could be set |
| `AutoAlarm.DurationSurvives` | services/firmware/alarm/src/firmware_auto_upgrade_alarm_manager.cpp:112-161 | a DURATION alarm armed at s with draw r survives an EVENT unchanged exactly when s-1800+r <= now < s+84600+r |
| `AutoAlarm.FiredTimerTakenForActive` | services/firmware/alarm/src/firmware_auto_upgrade_alarm_manager.cpp:87-110 | an instance: after a firing and a clock jump back, an EVENT leaves a recorded id without a live timer |
| `AutoAlarm.CancelClears` | services/firmware/alarm/src/firmware_auto_upgrade_alarm_manager.cpp:163-175 | in every run without overlaps a cancel leaves no live timer and no recorded id |
| `AutoAlarm.FirmwareAutoUpgradeAlarmManager.RegisterAutoUpgradeTime` | services/firmware/alarm/src/firmware_auto_upgrade_alarm_manager.cpp:87-110 | the object, the preferences and the timers follow the refresh function |
| `AutoAlarm.FirmwareAutoUpgradeAlarmManager.CalculateAutoUpgradeTime` | services/firmware/alarm/src/firmware_auto_upgrade_alarm_manager.cpp:112-134 | the time each refresh type aims at, and when the retry flag is cleared |
| `AutoAlarm.FirmwareAutoUpgradeAlarmManager.HandleNetChange` | services/firmware/alarm/src/firmware_auto_upgrade_alarm_manager.cpp:136-161 | an EVENT keeps a time set within the last day unless a retry is pending, and otherwise aims at the time that EventAnswersRetry states |
| `IdleUnload.OrderIrrelevant` | services/startup/manage/src/schedule_manager.cpp:56-102 | what is scheduled depends only on which tasks are reported |
| `IdleUnload.PermutationIrrelevant` | services/startup/manage/src/schedule_manager.cpp:56-102 | in particular it is invariant under permutation |
| `IdleUnload.AllTasksAreReported` | services/startup/access/src/access_manager.cpp:50-62 | a task is collected exactly when some stored access reports it |
| `IdleUnload.AllTasksAppend` | services/startup/access/src/access_manager.cpp:50-62 | the tasks come in the order of the accesses |
| `IdleUnload.NetUnionBits` | services/startup/manage/src/schedule_manager.cpp:66-79 | the network entry has exactly the network bits that some task asks for |
| `IdleUnload.MinDelayIsMin` | services/startup/manage/src/schedule_manager.cpp:81-92 | the timed entry's delay is the least delay of the tasks without network |
| `IdleUnload.NextDelayIs` | services/startup/manage/src/schedule_manager.cpp:81-92 | without network tasks the timed entry's delay is the least over the tasks of all accesses, or one day if there is none |
| `IdleUnload.EntriesAsk` | services/startup/manage/src/schedule_manager.cpp:66-102 | the entries ask for exactly the network bits that the tasks ask for, in one entry without a delay; the timed entry is the last |
| `IdleUnload.EntriesValid` | services/startup/manage/src/system_ability_operator.cpp:28-48 | all entries pass the 30 s test exactly when no task waits for a network and the next delay is at least 30; then there is one entry |
| `IdleUnload.PolicyAccepted` | services/startup/manage/src/system_ability_operator.cpp:28-48 | the entries pass the 30 s test exactly when no access reports a task that waits for a network or is due within 30 s |
| `IdleUnload.KeepAliveNotEnforced` | services/startup/manage/src/schedule_manager.cpp:38-46 | a tick with a task due in 60 s still unloads |
| `IdleUnload.UnloadSawNoClient` | services/startup/manage/src/startup_manager.cpp:70-118 | an unload read the flag while the callback map was empty, or between the map write and the flag write of the registration of its only client, in any interleaving of these writes |
| `IdleUnload.StartupManager.IdleLoop` | services/startup/manage/src/startup_manager.cpp:70-118 | SAExit is reached exactly when interval, remote idleness, every access idle and exited, no task of any access that waits for a network or is due within 30 s, and an accepted policy hold; the policy left is one timed event with the least delay over the tasks of all accesses; what a tick that stops earlier has already done |
| `IdleUnload.ScheduleManager.TaskManage` | services/startup/manage/src/schedule_manager.cpp:56-102 | the entries are the network aggregate, if any, and the earliest timed task or the default of one day; true exactly when that delay exceeds 3600 |
| `IdleUnload.ScheduleManager.TakeNetTasks` | services/startup/manage/src/schedule_manager.cpp:66-76 | erasing in place leaves the tasks without network in order and ORs the others' types |
| `IdleUnload.ScheduleManager.IdleCheck` | services/startup/manage/src/schedule_manager.cpp:38-46 | idle exactly when remote and all accesses are, and only then the entries are renewed |
| `IdleUnload.ScheduleManager.Exit` | services/startup/manage/src/schedule_manager.cpp:48-54 | accesses exit in order up to the first refusal; the policy is installed only if all exited |
| `IdleUnload.ScheduleManager.OnDemandSchedule` | services/startup/manage/src/startup_schedule.cpp:74-92 | one of the two policy updates is installed, or the old policy stays |
| `IdleUnload.ScheduleManager.UpdateStartupPolicy` | services/startup/manage/src/system_ability_operator.cpp:28-78 | one timed event per entry, or nothing when an entry is below 30 s or the update is refused |
| `IdleUnload.AccessManager.IsIdle` | services/startup/access/src/access_manager.cpp:34-48 | idle exactly when the remote side and every stored access are |
| `IdleUnload.AccessManager.GetScheduleTasks` | services/startup/access/src/access_manager.cpp:50-62 | all tasks of all accesses in order |
| `IdleUnload.AccessManager.Exit` | services/startup/access/src/access_manager.cpp:64-74 | true exactly when every access exits, and which ones have exited |
| `IdleUnload.ExitedIff` | services/startup/access/src/access_manager.cpp:64-74 | exactly those accesses exit that have no refusing access at or before their place |
| `IdleUnload.ExitedInOrder` | services/startup/access/src/access_manager.cpp:64-74 | they exit in the order of the map |
| `Strings.TrimSplits` | foundations/ability/utils/include/string_utils.h:41-60 | trimming removes blanks only and leaves none at either end |
| `Strings.ReplaceClears` | foundations/ability/utils/include/string_utils.h:111-123 | when the replacement is a character outside the pattern, no pattern is left, not even across seams |
| `Strings.ReplaceFirst` | foundations/ability/utils/include/string_utils.h:111-123 | what stands before the first occurrence stays, the occurrence is replaced, and the search goes on behind it |
| `Strings.ReplaceNone` | foundations/ability/utils/include/string_utils.h:111-123 | without an occurrence nothing changes |
| `Strings.ReplaceStringAll` | foundations/ability/utils/include/string_utils.h:111-123 | the loop ends for every non-empty pattern and is the left-to-right replacement |
| `Strings.RemoveBlock` | foundations/ability/utils/include/string_utils.h:125-141 | exactly the first closed block goes, and everything around it stays |
| `Strings.RemoveNothingIff` | foundations/ability/utils/include/string_utils.h:125-141 | nothing goes exactly when no block opens or it is not closed |
| `Strings.AfterLast` | foundations/ability/utils/include/string_utils.h:101-109 | what follows the last separator, or nothing without one |
| `Changelog.NumberRoundTrip` | foundations/ability/utils/include/string_utils.h:143-173 | reading a written number gives it back with success, for every int32 |
| `Changelog.ReadWrite` | services/engine/src/update_service_impl_firmware.cpp:209-222 | writer and reader undo each other: for every type, content and language the reader gives the type and the text without the other language's first block, and fails exactly on empty text |
| `Changelog.NoQuotaLeft` | services/firmware/utils/src/firmware_check_analyze_utils.cpp:240-246 | no "quota" is left in what is written |
| `Changelog.OwnLanguageStays` | services/engine/src/update_service_impl_firmware.cpp:366-373 | of a changelog with one block for each language, each reader keeps its own block whole |
| `Changelog.BuildRecord` | services/firmware/utils/src/firmware_check_analyze_utils.cpp:243-251 | the written record is type, bar and replaced text |
| `CheckAnalyze.FirmwareCheckAnalyzeUtils.DoAnalyze` | services/firmware/utils/src/firmware_check_analyze_utils.cpp:36-64 | the caller's list is replaced exactly when the answer says no new version, or says a new one and every field read succeeded, both lists are there and the sizes sum within int64; when the changelog file is written |
| `CheckAnalyze.FirmwareCheckAnalyzeUtils.AnalyzeBlVersionCheckResults` | services/firmware/utils/src/firmware_check_analyze_utils.cpp:66-113 | code 0 exactly when the list is there and its five fields of every entry could be read, dropped entries included |
| `CheckAnalyze.FirmwareCheckAnalyzeUtils.AnalyzeComponents` | services/firmware/utils/src/firmware_check_analyze_utils.cpp:115-153 | code 0 exactly when lists, fields and total size are in order; components_ grows by the kept ones; when the file is written |
| `CheckAnalyze.FirmwareCheckAnalyzeUtils.ProcessCheckResults` | services/firmware/utils/src/firmware_check_analyze_utils.cpp:177-224 | components_ grows by the kept components, and code 0 exactly when all reads made succeeded |
| `CheckAnalyze.FirmwareCheckAnalyzeUtils.ProcessItem` | services/firmware/utils/src/firmware_check_analyze_utils.cpp:189-221 | an entry with no positive size or no safe name is dropped, and which of its reads count |
| `CheckAnalyze.FirmwareCheckAnalyzeUtils.CheckTotalSize` | services/firmware/utils/src/firmware_check_analyze_utils.cpp:132-140 | the guard stays within int64 itself and lets pass exactly the lists whose mathematical sum is an int64 |
| `CheckAnalyze.FirmwareCheckAnalyzeUtils.ProcessDescriptInfo` | services/firmware/utils/src/firmware_check_analyze_utils.cpp:226-258 | code 0 exactly when all descriptions could be read; one file, of the last component, holds the last description saved |
| `CheckAnalyze.IsValidFileName` | services/firmware/utils/src/firmware_check_analyze_utils.cpp:155-175 | exactly the names of 1 to 255 characters without slash, backslash or two dots in a row |
| `CheckAnalyze.IndicesExact` | services/firmware/utils/src/firmware_check_analyze_utils.cpp:177-224 | the kept entries are exactly those with positive size and safe name, each once, in order |
| `CheckAnalyze.KeptInOrder` | services/firmware/utils/src/firmware_check_analyze_utils.cpp:177-224 | the k-th published component is built from the k-th kept entry |
| `CheckAnalyze.KeptAreValid` | services/firmware/utils/src/firmware_check_analyze_utils.cpp:195-219 | every published component has a positive size, a safe file name, type 1 and its package id as component id |
| `CheckAnalyze.CompleteIff` | services/firmware/utils/src/firmware_check_analyze_utils.cpp:66-224 | an answer is complete exactly when both lists are there, six fields of every entry could be read, two more of each kept one, both of each description, and the sizes fit |
| `CheckAnalyze.PublishesIff` | services/firmware/utils/src/firmware_check_analyze_utils.cpp:36-64 | the list is replaced exactly for status 1, or status 0 with a complete answer |
| `CheckAnalyze.PublishedFields` | services/firmware/utils/src/firmware_check_analyze_utils.cpp:189-221 | every field of a published component was read from the entry at its position |
| `CheckAnalyze.TotalGrows` | services/firmware/utils/src/firmware_check_analyze_utils.cpp:132-140 | a sum of published sizes within int64 has all its partial sums within int64 |
| `CheckAnalyze.TotalIsSum` | services/firmware/utils/src/firmware_check_analyze_utils.cpp:132-140 | the total is the sum over the list |
| `CheckAnalyze.BuildHotaVersionComponent` | services/firmware/common/src/firmware_update_helper.cpp:72-101 | the wrapping size_t sum is the sum modulo 2^64, and the true sum for what the analyzer publishes |
| `CheckAnalyze.BuildNewVersionInfo` | services/firmware/common/src/firmware_update_helper.cpp:103-124 | the components of type 1 or 100, if there are any, become one entry; a published list is shown whole, with its true total size |
| `CheckAnalyze.HotaOnlyIs` | services/firmware/common/src/firmware_update_helper.cpp:111-118 | just the components of types 1 and 100 are taken, in their order |
| `CheckAnalyze.GetNewVersionDescription` | services/engine/src/update_service_impl_firmware.cpp:179-225 | success exactly when every component has a description; otherwise the list stops before the first without one |
| `CheckAnalyze.ValidIdIs` | services/engine/src/update_service_impl_firmware.cpp:375-384 | valid ids are names of letters, digits, hyphens and underscores, so the file stays in its directory |
| `CheckAnalyze.CheckThenDescribe` | services/firmware/utils/src/firmware_check_analyze_utils.cpp:226-258 | one check rewrites the description of components with the last component's id, with the last description saved, and leaves all others as they were |
| `CheckAnalyze.LastSavedIs` | services/firmware/utils/src/firmware_check_analyze_utils.cpp:226-258 | the file holds the record of the entry that was saved with no saved entry behind it |
| `CheckAnalyze.NoneSavedIff` | services/firmware/utils/src/firmware_check_analyze_utils.cpp:226-258 | the file is left as it was exactly when no entry is saved |
| `CheckAnalyze.DescribedOnlyWithOneId` | services/engine/src/update_service_impl_firmware.cpp:198-223 | with an empty directory before the check, a published version can be described exactly when all components have one valid id and the saved text is not empty |
| `DownloadProgress.PercentIs` | services/engine/src/progress_thread.cpp:210-219 | the percentage is the largest whole p with p hundredths of the total received |
| `DownloadProgress.PercentBound` | services/engine/src/progress_thread.cpp:210-219 | it lies in 0..100 and is 100 exactly when everything has arrived |
| `DownloadProgress.PercentMonotone` | services/engine/src/progress_thread.cpp:210-219 | it never falls when received count and file length grow |
| `DownloadProgress.OneDownload` | services/engine/src/progress_thread.cpp:110-208 | from every start and whatever the flags do: strictly rising percentages from 1 to 99, then at most one end, last; success only with 100 and only when curl succeeded; when not aborted, the end is reported exactly if the exit is not seen and the failure is not silent; the file is removed exactly when curl failed undisturbed and not silently. Silent: an earlier execution reported a failure and nothing has been reported since |
| `DownloadProgress.StartsAtZero` | services/engine/src/progress_thread.cpp:110-156 | a download can only start at percentage 0 with status INIT, DOWNLOAD_FAIL or DOWNLOAD_CANCEL, after any number of executions that failed before curl |
| `DownloadProgress.NothingReportedIff` | services/engine/src/progress_thread.cpp:171-219 | curl has reported nothing exactly if every call came without a total, or at percentage 0 or 100 |
| `DownloadProgress.AbortedIff` | services/engine/src/progress_thread.cpp:171-208 | a download aborts exactly when a call with a total is disturbed by a flag |
| `DownloadProgress.AbortTells` | services/engine/src/progress_thread.cpp:171-262 | the aborting call reports its percentage unless it saw the exit: a lost network as a failure, a cancellation as such, each with its reason |
| `DownloadProgress.EndTells` | services/engine/src/progress_thread.cpp:137-156 | the end of a download that nothing aborted is success with 100, failure with 0 and the error of curl, or the cause of the disturbance |
| `DownloadProgress.FailureTells` | services/engine/src/progress_thread.cpp:110-136 | an execution that fails before curl reports its reason and removes the file, unless it sees the exit, is disturbed or follows a reported failure |
| `DownloadProgress.RunKeepsOrder` | services/engine/src/progress_thread.cpp:171-219 | from every start, every callback sequence keeps that order, or has been aborted with a failure or cancellation last |
| `DownloadProgress.UpToDate` | services/engine/src/progress_thread.cpp:180-203 | after an undisturbed call the last report is as far as the call, except that 100 waits for the end |
| `DownloadProgress.ProgressIsFurthest` | services/engine/src/progress_thread.cpp:171-219 | while no flag disturbs, the recorded percentage is that of the furthest call below 100 |
| `DownloadProgress.ReportsAreRecords` | services/engine/src/progress_thread.cpp:171-219 | the reported percentages are exactly the records: calls below 100 that are beyond all calls before them |
| `DownloadProgress.ProgressIsReported` | services/engine/src/progress_thread.cpp:171-208 | the recorded progress is always the last report, or the one at the start |
| `DownloadProgress.NothingAfterExit` | services/engine/src/progress_thread.cpp:171-176 | once exitDownload_ is set, nothing more is reported, not even the end, whatever calls still come |
| `DownloadProgress.ExitAborts` | services/engine/src/progress_thread.cpp:171-176 | a call with a known total that sees the flag ends the download |
| `DownloadProgress.RetryIsSilent` | services/engine/src/progress_thread.cpp:110-156 | after a reported failure to open the file, a retry in which curl fails at once reports nothing and leaves the file |
| `DownloadProgress.DownloadThread.DealAbnormal` | services/engine/src/progress_thread.cpp:242-262 | what is reported without a network or after a cancellation, for every reading of the flags |
| `DownloadProgress.DownloadThread.DownloadCallback` | services/engine/src/progress_thread.cpp:171-208 | the object follows the filter function, and a failure that is shown removes the file |
| `DownloadProgress.DownloadThread.OnDownloadProgress` | services/engine/src/progress_thread.cpp:210-219 | a call of curl goes through the filter with the floored percentage |
| `DownloadProgress.DownloadThread.Perform` | services/engine/src/progress_thread.cpp:137-142 | curl's calls up to the first that aborts |
| `DownloadProgress.DownloadThread.ProcessThreadExecute` | services/engine/src/progress_thread.cpp:110-156 | a begun download is the run above, with its file kept or removed; the worker goes on exactly when path, file or curl failed before it |
| `NetNotifier.AtMostTwice` | services/utils/src/dupdate_net_manager.cpp:44-119 | in every run a function is called at most twice per change, with NO_NET at most once, only with types it asked for and only with the network's type; a registration without a function is never called |
| `NetNotifier.ToldOnceOrTwice` | services/utils/src/dupdate_net_manager.cpp:44-119 | whoever is registered for the current type other than NO_NET, with no scan or registration under way: however the run goes on and whatever changes later, once none of its tasks is left it has a function, and that has been called once or twice for this change; the task of a registration without a function is never run to its end |
| `NetNotifier.NullCrashes` | services/utils/src/dupdate_net_manager.cpp:59-69 | a registration without a function for the current type queues a task that throws when it is run |
| `NetNotifier.NeverCrashes` | services/utils/src/dupdate_net_manager.cpp:44-119 | no run whose registrations all have a function crashes |
| `NetNotifier.CallbacksAreLast` | services/utils/src/dupdate_net_manager.cpp:44-83 | over every run the map holds under each key what the last registration of the key asked for, if no unregister of the key came after it |
| `NetNotifier.UnregisterEnds` | services/utils/src/dupdate_net_manager.cpp:73-83 | an unregister, or the next registration of the key, ends the registration under that key and touches no other |
| `NetNotifier.CalledAfterUnregisterIff` | services/utils/src/dupdate_net_manager.cpp:44-83 | after its unregister, or after another registration replaced it, a function is called in some continuation exactly when one of its catch-up tasks is queued at that moment |
| `NetNotifier.CallsGrow` | services/utils/src/dupdate_net_manager.cpp:44-119 | no call is ever taken back |
| `NetNotifier.TwiceInTheWindow` | services/utils/src/dupdate_net_manager.cpp:59-119 | a registration between the unlocked write and the scan is always called twice |
| `NetNotifier.CaughtUpOnce` | services/utils/src/dupdate_net_manager.cpp:62-69 | a registration is caught up at most once, for one type, never NO_NET |
| `NetNotifier.AvailableIsEqual` | services/utils/src/dupdate_net_manager.cpp:90-93 | between base types, a common bit means equal and not NO_NET |
| `NetNotifier.StepKeeps` | services/utils/src/dupdate_net_manager.cpp:44-119 | every step keeps the invariant: calls are right, not repeated, and outside the window everyone has been told or is being caught up |
| `NetNotifier.ScanEnds` | services/utils/src/dupdate_net_manager.cpp:107-117 | the scan ends exactly when no matching function is null, and then after one round per entry |
| `NetNotifier.RegisteredIsReached` | services/utils/src/dupdate_net_manager.cpp:59-70 | a registration call that nothing interrupts is a run of the protocol, in whatever order the types are walked |
| `NetNotifier.NetManager.RegisterCallback` | services/utils/src/dupdate_net_manager.cpp:44-71 | accepted exactly for a non-empty set of base types; then the entry is stored and caught up, otherwise nothing changes |
| `NetNotifier.NetManager.UnregisterCallback` | services/utils/src/dupdate_net_manager.cpp:73-83 | that entry and no other goes |
| `NetNotifier.NetManager.OnNetChange` | services/utils/src/dupdate_net_manager.cpp:95-119 | a change to another base type is the write and the scan of the protocol, anything else changes nothing; the scan ends exactly without a matching null function, and otherwise has called some of the callbacks |
| `HeaderParse.FieldIsRfc` | services/core/ability/utils/src/response_header_parse.cpp:63-88 | the value seen is the one of RFC 9112 exactly when the text after the colon is longer than the text before it, or blank; else it is lost |
| `HeaderParse.PassedOver` | services/core/ability/utils/src/response_header_parse.cpp:67-77 | a line is passed over exactly when it has no colon, nothing before the first one or nothing after it |
| `HeaderParse.ShortValueIsLost` | services/core/ability/utils/src/response_header_parse.cpp:63-88 | "Content-Length:12" is read as an empty value |
| `HeaderParse.LineAgreesIff` | services/core/ability/utils/src/response_header_parse.cpp:63-88 | for a field line of RFC 9112, or one without a colon: the answer is that of the RFC exactly when the names differ in more than case, or the value is blank, or the names are equal in case too and the text after the colon is longer than the name |
| `HeaderParse.ListAgreesIff` | services/core/ability/utils/src/response_header_parse.cpp:63-88 | in a list of such lines with the field at most once, the lookup gives the RFC's answer exactly when every line agrees |
| `HeaderParse.LookupsAgree` | services/core/ability/utils/src/response_header_parse.cpp:34-88 | where a name occurs at most once, first and last occurrence are the same lookup |
| `HeaderParse.LookupsAgreeIff` | services/core/ability/utils/src/response_header_parse.cpp:34-88 | where a name occurs more than once they agree exactly if its first and last line have the same value |
| `HeaderParse.FirstIsAt` | services/core/ability/utils/src/response_header_parse.cpp:63-88 | the first line that names the key answers, and no earlier line names it |
| `HeaderParse.LastIsAt` | services/core/ability/utils/src/response_header_parse.cpp:34-61 | in the map, the last line that names the key answers |
| `HeaderParse.ParseKeyFromHeader` | services/core/ability/utils/src/response_header_parse.cpp:63-88 | the value in the first line with that name, or nothing |
| `HeaderParse.ParseKeysFromHeader` | services/core/ability/utils/src/response_header_parse.cpp:34-61 | the last value of each wanted name, which is the per-key lookup for names that occur at most once |

## Left out

- curl, OpenSSL, sockets, files, the database, IPC marshalling, NAPI and ANI: foreign or I/O; their outcomes are parameters.
- Permission, token and MDM checks, factory reset, audit report, event and download task managers: one-branch decisions over foreign calls.
- Database field lists and JSON parsing inside cJSON: long but shallow; an answer is modelled by what each key gives for the type that is asked for.
- The stream downloader's CheckFileSize, its progress callback and DealExitOrCancel: single branches over foreign calls.
- `StreamProgress.StreamProgressThread.WriteFunc`: the product size * nmemb is the chunk length and its wrap-around is not modelled; curl passes size 1.
- `ClientKit.UpdateServiceKitsImpl.RegisterUpdateCallback`: as a class method it runs without interference; interleavings inside it are covered on values by the transition system, which does not capture updates in place under interference. The same holds for the other methods of the kit.
- The kit's failed allocations and expired weak pointers; the weak pointer in a death recipient is taken to be alive.
- The unlock observer and the worker handshake are transition systems on values; their fields are not updated in place there. Locking the user again is not modelled.
- A missing access manager or schedule object in the startup classes; the looper timer of StartupSchedule, access registration, and the moment between the idle flag's read and SAExit, in which a client may still register.
- `NightAlarm.NightUpgradeAlarmManager.HandleNightUpgrade`: callbacks that register or unregister from inside the dispatch are later steps, since the source dispatches a copy of the map.
- `AutoAlarm.LostOverRuns`: reading and clearing the retry flag is one step of a refresh, and reading the saved time another; the flag does not decide which timers are live.
- Daylight saving and time-zone changes inside mktime.
- `AutoAlarm.EventBounds`: the saved time minus one day is computed without int64 wrap-around, which only times near the minimum of int64 would meet.
- `Strings.ReplaceStringAll`: an empty pattern is excluded, since the source's loop does not end for it.
- `HeaderParse.ListAgreesIff`: lines that have a colon and are no field lines, such as blanks before the colon, are outside this comparison; how the code takes them is stated by `HeaderParse.PassedOver` and `HeaderParse.ParseKeyFromHeader`.
- `HeaderParse.ParseKeysFromHeader`: header lengths are below 2^31, so the conversions of positions to int keep their value.
- `CheckAnalyze.FirmwareCheckAnalyzeUtils.DoAnalyze`: sums of error codes are unbounded numbers, so the int32 wrap-around of some 700 million failing reads is not modelled, nor is a JSON number of exactly 2^63 for a size; the response object of AnalyzeBlVersionCheckResults is dropped because the source drops it.
- `CheckAnalyze.BuildHotaVersionComponent`: effective mode and OTA mode, which depend on the install type only.
- `CheckAnalyze.GetNewVersionDescription`: files are keyed by component id; links inside the changelog directory and unreadable files are not modelled.
- `DownloadProgress.PercentIs`: the percentage is computed over reals, floating-point rounding is not modelled, nor is the conversion of a negative percentage or one of 2^32 or more to unsigned, which is undefined.
- `DownloadProgress.NothingAfterExit`: a callback that has passed its exit test when StopDownload runs still makes its one report; StartDownload on the same object clears the flag again.
- `NetNotifier.NetManager.OnNetChange`: with a matching null function the source loops forever with the lock held; the method then returns with ended false, and nothing that comes after is modelled.
- `NetNotifier.NullCrashes`: what comes after the crash is not modelled; the looper's own exception handling is not part of this model.
- `NetNotifier.ToldOnceOrTwice`: for one notifier; a callback that calls back into NetManager from inside the scan would wait for the lock it holds.
- FormatHeader, FindKeyFromHeader, ParseFirstMsgFromHeader and the remaining string helpers: they would only add easy members.
