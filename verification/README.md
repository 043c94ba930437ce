# Verification model of KFMon

KFMon launches a command when a watched file on an e-reader is opened and closed, or when a client asks for it over
a local socket. It keeps two fixed-size tables: the watches read from config files, and the processes it spawned.
One main thread adds processes to the table; one reaper thread per process removes it again.

The project models these parts of it:

- **Spawning and reaping** (`Daemon`, `SpawnSafety`, `Decisions`, `Progress`, `ProcessTable`): main, the reapers and
  the children as a system of interleaved steps. A step is one locked region, or code that touches nothing another
  thread writes. What every run keeps, what each step decides, and that the daemon is never stuck. The number of
  slots is any N from 1 to 127, the range `kfmon.h:251-253` asks for.
- **The watch table** (`Watches`, `Reconcile`, `WatchTable`, `ReloadTracking`, `ReloadSignal`, `ReloadOutcome`,
  `ReloadMeaning`, `ReloadConvergence`, `ReloadRuns`, `DaemonReloads`, `Startup`, `ReloadLimits`): loading,
  reloading and re-watching, in place on an array, refining functions on the table's contents; what a reload
  reaches, signals and leaves alone, and that a reload in a run is that reload. The walk over the config directory
  is any sequence of parse results, each with what the process table holds when it is handled.
- **Processing state and quarantine** (`Processing`, `QuarantineRuns`), with the clock, the thumbnail and database
  checks and the block file as inputs.
- **Spawn blockers** (`BlockerRuns`) over all runs.
- **The IPC requests** (`Ipc`): lists, starts, triggers and their replies.
- **Supporting code**: bounded strings (`CString`), full transfers (`AtomicIo`), the image hash and path munging
  (`Thumbnails`, over `Bits`), and counting (`Pigeonhole`).

## Where the hypotheses come from

- *Benign runs* (`BlockerRuns.BenignRun`): no directory reloaded loses the config of a running watch,
  `new_watch_list` is not written past its end, and inotify events carry the descriptor of an active watch. The
  purge at `kfmon.c:1161-1192` is the only slot-clearing path of a reload or re-watch that does not ask what is
  running. Everything in `SpawnSafety`, `Decisions`, `DaemonReloads` and `QuarantineRuns` holds of all runs, with no
  such assumption; there, one process per watch means per slot, and that it also means per file is a property of
  benign runs (`RunningTargetsDiffer`).
- *List in bounds* (`ReloadTracking.ListInBounds`): the walk writes no more entries to `new_watch_list` than it has
  room for (`kfmon.c:1073`, `1109`, `1118`); otherwise the C code has no meaning. Distinct names ensure it, and so
  do no more files naming a target than slots (`KeptListFits`, `ListNeverOverflows`). With nothing running,
  `ListFitsExactly` says exactly when it holds, from the table before and the files, for every good table and every
  directory; `DuplicatesOverfillTheList` is an input for which it does not.
- *Distinct names*: no two files of a walk name the same target. Without it a reload matches one slot twice, so the
  last file wins (`LastFileWins`) where the load lets the first win, and the signal can be raised for no change
  (`RaisedForChangeExactly` says exactly when). `ReloadLimits` has inputs. `SignalIsExact`, `WalkIsTracked`,
  `ActiveAfterReload`, `OneReloadCompletesExactly`, `TwoReloadsConverge`, `TwoIterationsConverge` and
  `FirstReloadIsStable` assume it; next to each stands a result that does not.
- *Effective configs*: the three database strings are merged only when an update is asked for (`kfmon.c:683-725`),
  so configs are compared without them otherwise, and always without the runtime fields.
- *Clock started*: the monotonic clock has passed its first second before the main loop is entered; 0 in
  `processing_ts` stands for no timestamp.

## Where the code and its documentation differ

- The README has fields of up to 128 characters; 127 fit beside the NUL, and a longer filename or action discards
  the file.
- The README has nothing launch while a document reader runs. The code lets forced requests for watches that are no
  blockers through (`OnlyForcedPastBlocker`), and forgets a running blocker when its config file is gone
  (`BlockingSurvivesReload`, `RunningBlockerForgotten`).
- The comment at `kfmon.c:1352` has no need to munge the whole path after swapping the dot. That holds exactly when
  the extension has nothing to munge (`ShortcutIsMunge`).

## Model

| member | source | states |
|---|---|---|
| SpawnSafety.StepKeepsSpawnInv | kfmon.c:1703-1948 | Every enabled step of main, of a reaper or of a child keeps the protocol invariant: both arrays free or occupied together, no watch twice, what main read under the lock still true, every live reaper on an entry of its own that holds what its spawn stored, every child spoken for |
| SpawnSafety.RunKeepsSpawnInv | kfmon.c:1703-1948 | The invariant holds in every state of every run, for every table size from 1 to 127; indices staying in range is part of it |
| SpawnSafety.OneProcessPerWatch | kfmon.c:1951-1965 | In every reachable state no watch has two entries, none has one while a fork for it is under way, and an entry is free in the pid array exactly when it is free in the watch array |
| SpawnSafety.TableNeverFull | kfmon.c:1851-1865 | The exit for want of an entry is unreachable, and the entry found is still free when it is filled |
| SpawnSafety.SearchSucceeds | kfmon.c:1656-1665 | If a watch is not registered, the search for a free entry finds one (pigeonhole over the entries) |
| SpawnSafety.ReaperOwnsItsEntry | kfmon.c:1708-1714 | In every reachable state each reaper that has not freed its entry holds an entry of its own with exactly the pid and watch its spawn stored, and read that pid from it |
| SpawnSafety.OneWaiterPerChild | kfmon.c:1735-1742 | In every reachable state no two threads would wait for one child, each awaited child exists, and until an exit every child not yet waited for belongs to main, to a reaper waiting for it, or to one whose wait failed |
| SpawnSafety.WaitReturnsStep | kfmon.c:1735-1742 | The child waitpid gives a reaper is the one its spawn registered, and the step keeps the invariant |
| SpawnSafety.FreeEntryStep | kfmon.c:1800-1803 | Freeing an entry keeps the invariant, whatever main is in the middle of |
| SpawnSafety.FillSlotStep | kfmon.c:1867-1869 | Registering the process in the entry found earlier keeps the invariant, although the lock was dropped in between |
| SpawnSafety.RunConserves | kfmon.c:1703-1948 | In every reachable state before an exit: occupied entries = reapers that will still free theirs + reapers that left through the waitpid failure + one for a spawn about to start its reaper |
| SpawnSafety.EntryGuarantee | kfmon.c:1667-1681 | In every run an occupied entry changes only when the one reaper that holds it frees it, in both arrays, and a free entry only when main fills it with the pid and watch it carries |
| Decisions.EventMet | kfmon.c:2085-2148 | In every run an event leads main to the watch of its descriptor, with whether that watch and whether an active blocker is registered at that moment, and changes nothing else |
| Decisions.RequestMet | kfmon.c:2507-2513 | In every run a request does the same for the watch it resolves to |
| Decisions.RequestSpawnsExactly | kfmon.c:2515-2539 | In every run, deciding a request leads to a spawn if and only if its watch did not run when it was met and it is forced for a watch that is no blocker, or no blocker ran and there is no block file |
| Decisions.WatchesOtherwiseKept | kfmon.c:2109-2210 | In every run no step outside a reload or re-watch changes a watch but in its two timer fields, and those only for the watch of an event decided upon while neither it nor a blocker ran |
| Decisions.SpawnGoesOn | kfmon.c:1814-1948 | In every run a spawn stays with its watch and its child: fork, search, insert and reaper each do their one thing, and a reload begins with all the files found |
| Decisions.WorldMoves | kfmon.c:1703-1808 | In every run a reaper reads, waits for and reaps only the child its spawn stored, one step at a time, and time passes with the clock only |
| Progress.MainGoesOn | kfmon.c:3171-3325 | From every state the protocol allows, main can take its next step, whatever the clock, the kernel, the checks and the clients answer |
| Progress.WorldGoesOn | kfmon.c:1703-1808 | So can every reaper that has not given up, every child and the clock |
| Progress.EntryCanBeFreed | kfmon.c:1703-1808 | From every such state each reaper that has not given up can come to free its entry, with main staying where it is |
| Progress.RequestCanSpawn | kfmon.c:2515-2539 | From every such state where events are awaited, a request for a watch that does not run, forced for a non-blocker or with no blocker running, can come to register its process with a reaper of its own |
| ProcessTable.Table.constructor | kfmon.c:1646-1653 | All entries start free |
| ProcessTable.Table.NextAvailable | kfmon.c:1656-1665 | Returns the first free entry, or -1 when there is none |
| ProcessTable.Table.Add | kfmon.c:1668-1673 | Sets the pid and the watch id, cast to int8, of one entry and changes nothing else |
| ProcessTable.Table.Remove | kfmon.c:1676-1681 | Frees one entry in both arrays and changes nothing else |
| ProcessTable.Table.IsWatchAlreadySpawned | kfmon.c:1951-1965 | True exactly when some entry holds the watch |
| ProcessTable.Table.SpawnPidForWatch | kfmon.c:2010-2020 | The pid stored in the first entry with the watch, or -1 when no entry has it |
| ProcessTable.Table.IsBlockerRunning | kfmon.c:1971-1994 | True exactly when some entry holds the index of an active watch with block_spawns set |
| BlockerRuns.RunKeepsBlockInv | kfmon.c:1971-1994 | The blocker invariant holds in every state of every benign run |
| BlockerRuns.StepKeepsBlockInv | kfmon.c:1971-1994 | Every step of a benign run keeps the blocker invariant, which ties what main decided to the entries and the watch table |
| BlockerRuns.AtMostOneBlocker | kfmon.c:2150-2191 | In every state of a benign run, of two different watches that are registered or being forked for, both are active and at most one has block_spawns set |
| BlockerRuns.OnlyForcedPastBlocker | kfmon.c:2515-2539 | Whatever is forked while an active watch with block_spawns set is registered was asked for by force over IPC, for a watch without it |
| BlockerRuns.RunningTargetsDiffer | kfmon.c:2136-2150 | In a benign run, two registered processes never belong to watches on the same file or the same basename |
| BlockerRuns.BlockingSurvivesReload | kfmon.c:950-1227 | Of watches that run throughout a reload, an active one with block_spawns set is there after it if and only if one was before and a file of the directory names its target |
| ReloadLimits.RunningBlockerForgotten | kfmon.c:1161-1192 | A concrete directory whose reload clears a running blocker, after which no blocker is seen |
| ReloadRuns.ReloadSparesRunning | kfmon.c:1094-1111 | Over a whole reload and re-watch with processes ending meanwhile: what is registered at its end was registered at its start, and its watch is unchanged but for its inotify descriptor |
| DaemonReloads.DaemonReload | kfmon.c:988-1192 | In every run, from the start of a reload to its purge with processes ending in between: it handles exactly the files found, in order, and leaves the watches the specified reload leaves, for what was registered as each file was handled |
| DaemonReloads.DaemonRewatch | kfmon.c:3225-3281 | In every run, from the purge until events are awaited: each slot is answered for once, in order, and the watches are those the specified loop leaves |
| ReloadRuns.NothingRegistered | kfmon.c:950-1227 | No step of a reload or re-watch, by any thread, adds an entry |
| ReloadRuns.ListNeverOverflows | kfmon.c:981-984 | In every state of a run whose directories have distinct names, or no more files naming a target than there are slots, new_watch_list is within its array, whatever runs and ends meanwhile |
| ReloadRuns.FittingRunIsBenign | kfmon.c:981-984 | A run with such directories, which also name what runs, meets all that the blocker results ask of its reloads |
| Processing.TimestampMeaning | kfmon.c:2200-2209 | processing_ts is 0 when no close was rejected since the last spawn, and else the second of the first such close |
| Processing.PendingMeaning | kfmon.c:2120-2132 | pending_processing is set exactly when the latest open found the target not processed |
| Processing.SpawnsExactly | kfmon.c:2150-2191 | A close spawns if and only if its target is processed, was so at the latest open, and the close that started a quarantine, if any, is more than ten whole seconds back by a clock that could be read |
| Processing.NoSpawnInQuarantine | kfmon.c:2161-2177 | A spawn is over ten real seconds after the close that started the quarantine |
| Processing.OpensOnlyFlag | kfmon.c:2120-2132 | Only closes spawn; an open leaves the timestamp alone and sets the flag to whether the target was not processed, a close leaves the flag alone |
| QuarantineRuns.StepKeepsWatchInv | kfmon.c:950-1227 | Every step keeps the watch table good: active watches complete, with pairwise different basenames |
| QuarantineRuns.WatchesStayGood | kfmon.c:487-734 | In every reachable state the filename and action of every active watch are set, and its three database strings when an update is asked for, and no two active watches share a basename |
| QuarantineRuns.TimersReplayRuns | kfmon.c:2109-2210 | In every reachable state pending_processing and processing_ts of every slot are the replay of the events it heard, which are read off the states and labels of the run: those decided upon while neither it nor a blocker ran and there was no block file, since it last came to watch another file |
| QuarantineRuns.CloseSpawnsExactly | kfmon.c:2150-2191 | In every run, deciding a close leads to a spawn if and only if neither its watch nor a blocker ran when it was met, there is no block file, the target is processed and was so at the latest open, and the close that started a quarantine, if any, is more than ten whole seconds back by a clock that could be read |
| QuarantineRuns.SpawnsOutsideQuarantine | kfmon.c:2150-2191 | In every run, an inotify spawn, also one of the last slot for an event that matches no watch, finds its target processed now and at the latest open, over ten real seconds after the first close rejected since the last spawn |
| WatchTable.HandleOpen | kfmon.c:2109-2133 | The open branch: nothing changes while the watch runs, a blocker runs or spawns are inhibited; otherwise pending_processing becomes whether the target is not processed, and nothing else changes |
| WatchTable.HandleClose | kfmon.c:2134-2210 | The close branch: under the same gating, spawns exactly when nothing is pending, the target is processed and a timestamp is over ten seconds old; clears the timestamp on a spawn and sets it on a first rejection |
| Daemon.WatchOf | kfmon.c:2085-2106 | The first active watch with the event's descriptor, and the last slot when there is none |
| Watches.Basename | kfmon.c:525-527 | What follows the last slash |
| Watches.NamedUnique | kfmon.c:487-553 | In a good table two active watches with one basename are the same slot |
| Watches.FindNamed | kfmon.c:1021-1037 | The first active slot with the filename, or -1 exactly when there is none |
| Watches.FindInactive | kfmon.c:737-746 | The first inactive slot, or -1 exactly when there is none |
| Watches.EffectiveInFields | kfmon.c:682-725 | Configs are the same in effect exactly when they agree in every key, the database strings counting only when an update is asked for |
| Watches.ClashesInFields | kfmon.c:498-527 | A clash is another active watch with the same filename or the same basename |
| WatchTable.CountMatches | kfmon.c:498-516 | The counters are the numbers of other active watches with the filename and with the basename, and one is positive exactly when there is a clash |
| WatchTable.ValidateWatchConfig | kfmon.c:487-553 | Accepts exactly the configs with filename and action set, and the three database strings if an update is asked for, whose filename and basename no active watch has |
| WatchTable.MergeFilename | kfmon.c:564-617 | The filename is taken over exactly when it is set and free; updated exactly when it changed |
| WatchTable.MergeActionAndLabel | kfmon.c:618-640 | A set action and any label are taken over; updated exactly when one of them changed |
| WatchTable.MergeVisibility | kfmon.c:642-660 | hidden and block_spawns are taken over; updated exactly when one of them changed |
| WatchTable.MergeDbFlags | kfmon.c:662-680 | skip_db_checks and do_db_update are taken over; updated exactly when one of them changed |
| WatchTable.MergeDbFields | kfmon.c:682-725 | The three database strings count only when an update is asked for: each set one is taken over, all are mandatory, updated exactly when the slot changed |
| WatchTable.ValidateAndMerge | kfmon.c:556-734 | Sane exactly for complete configs whose name fits; every usable key is taken over even if not; the flag is raised exactly when sane and the slot changed |
| WatchTable.MergeSameName | kfmon.c:556-734 | Under an unchanged filename a merge is sane exactly for complete configs, and then takes over all of them |
| WatchTable.GetNextAvailableWatchEntry | kfmon.c:737-746 | The first inactive slot, or -1 |
| WatchTable.LoadConfigFile | kfmon.c:840-889 | One file of the start-up load, in place, refines its specification on the contents |
| WatchTable.LoadConfig | kfmon.c:799-896 | The start-up load refines the fold of that specification over all files |
| WatchTable.CheckConfigFile | kfmon.c:1010-1147 | One file of a reload, in place, refines its specification: match, hold, merge, drop, insert or reject |
| WatchTable.PurgeStaleWatches | kfmon.c:1161-1192 | Clears exactly the active slots that are not among the first N of new_watch_list, raising the signal if there is one |
| WatchTable.IsListed | kfmon.c:1166-1176 | Tells exactly whether a slot is among the first N listed |
| WatchTable.UpdateWatchConfigs | kfmon.c:950-1227 | A whole reload in place: table, list and signal are those of the specification |
| WatchTable.RewatchAll | kfmon.c:3225-3281 | The loop that sets inotify watches up again refines its specification for any answers of the kernel |
| Reconcile.DroppedByRewatch | kfmon.c:3233-3273 | That loop clears an active watch exactly when its target is there, cannot be watched, and does not run; otherwise only the descriptor changes |
| Reconcile.RewatchToKeepsTableOk | kfmon.c:3225-3281 | That loop keeps the table good |
| Reconcile.HandleFileKeepsTableOk | kfmon.c:1010-1147 | Any file keeps the table good: active watches complete, with pairwise different basenames |
| Reconcile.ReloadKeepsTableOk | kfmon.c:950-1227 | Any reload of any directory keeps the table good, whatever runs |
| Reconcile.LoadKeepsLoadingOk | kfmon.c:799-896 | During the load the table is good and the active slots are exactly the first watch_count ones, the others all zero |
| ReloadTracking.FileEffect | kfmon.c:1010-1147 | A file touches one slot at most: a free one, or the one under its own name |
| ReloadTracking.WalkIsTracked | kfmon.c:988-1147 | During a walk over distinct names the list holds different active slots with names already met, and every other slot is as it was |
| ReloadTracking.ListOnlyGrows | kfmon.c:1073-1119 | The length of new_watch_list at the end of a walk bounds it all along |
| ReloadTracking.KeptListFits | kfmon.c:981-984 | With distinct names, or no more files naming a target than slots, new_watch_list never outgrows the table, and with distinct names it never repeats a slot |
| ReloadOutcome.ListBoundedByValid | kfmon.c:981-984 | With nothing running, from any table, the list has no more entries than there are valid files so far |
| ReloadMeaning.ListFitsExactly | kfmon.c:981-984 | From any good table and of any directory, with nothing running, the list stays within its array if and only if no more files than there are slots are valid and find their watch or room, as foreseen from the table before and the files |
| ReloadConvergence.SettledListFits | kfmon.c:981-984 | When valid files name all active watches and a table of this size can hold theirs, that is if and only if there are no more valid files than slots, repeated names or not |
| ReloadTracking.ActiveAfterReload | kfmon.c:1161-1192 | With distinct names, after a reload a slot is active exactly when it is listed, and is then as the walk left it |
| ReloadTracking.SurvivesIfSeen | kfmon.c:1161-1192 | Of any directory, the purge clears just the active slots whose names no file of the walk has, and leaves every other as it is |
| ReloadLimits.DuplicatesOverfillTheList | kfmon.c:981-984 | Two files for one target put more entries on new_watch_list than there are slots |
| ReloadSignal.QuietReload | kfmon.c:1190-1204 | Of any directory, repeated names and overlong lists included: without the update signal no active slot changed in any field |
| ReloadSignal.SignalExactly | kfmon.c:1112-1204 | Of any directory and whatever runs, nothing is signalled if and only if every file is idle against the table before, being ignored, rejected, held or saying what its watch does already, and every active watch is named by a file |
| ReloadSignal.SignalIsExact | kfmon.c:1190-1204 | With distinct names, and whatever runs, the update signal is raised if and only if the set of effective configs changed |
| ReloadMeaning.RaisedForChangeExactly | kfmon.c:1190-1204 | Repeated names included, with nothing running, the signal is raised only for a change if and only if the files call for nothing or their outcome differs from what was in effect |
| ReloadLimits.DuplicatesSignalInVain | kfmon.c:1112-1147 | Two files for one target raise the signal although the table ends up as it was |
| ReloadOutcome.RunningWatchUnchanged | kfmon.c:1094-1111 | With new_watch_list within its array, a watch that runs throughout a reload keeps its slot in every field if some file still names it, and has it cleared otherwise |
| ReloadOutcome.OneReloadIsSound | kfmon.c:988-1192 | After one reload of any table and any directory, with nothing running, every active watch is in effect what some valid file says |
| ReloadOutcome.ServedExactly | kfmon.c:1039-1147 | A valid file is held, merged or inserted if and only if an active watch has its name, or there is a slot free and no active watch has its basename |
| ReloadMeaning.WalkIsForeseen | kfmon.c:988-1147 | With nothing running, the watches after any number of files are, target by target, the fold of the files over those before: an invalid file drops its target, a valid one sets it if there is room; and the list has one entry for each that did |
| ReloadMeaning.ReloadRefines | kfmon.c:988-1192 | A reload of any directory with nothing running leaves exactly that fold, restricted to the targets some file names |
| ReloadOutcome.ValidIsServed | kfmon.c:1039-1147 | When all active watches are named by valid files and the valid files fit, a valid file is always held, merged or inserted |
| ReloadConvergence.LastFileWins | kfmon.c:1112-1147 | Repeated names included, when every valid file finds its watch or room, a reload reaches exactly what the last file on each target says, if that one is valid |
| ReloadConvergence.OneReloadCompletesExactly | kfmon.c:988-1192 | With distinct names one reload reaches exactly the set of valid configs if and only if each valid file finds its watch or room at its turn, as foreseen from the table before and the files |
| ReloadConvergence.SettledReloadIsComplete | kfmon.c:988-1192 | When valid files name all active watches and a table of this size can hold theirs, one reload reaches what the last file on each target says, which with distinct names is the set of valid configs |
| ReloadConvergence.TwoReloadsConverge | kfmon.c:988-1192 | After one reload and anything that only drops watches or touches runtime fields, a second reload of the same directory reaches exactly the set of valid configs if and only if a table of this size can hold it |
| ReloadConvergence.TwoReloadsTakeLast | kfmon.c:988-1192 | The second reload of a directory with repeated names reaches what the last file on each target says, if a table of this size can hold the valid ones |
| ReloadConvergence.TwoIterationsConverge | kfmon.c:3193-3281 | Two iterations of the main loop converge as two reloads do, with the inotify watches set up again in between with any answers of the kernel |
| ReloadConvergence.RewatchAddsNothing | kfmon.c:3225-3281 | Setting the inotify watches up again brings in no effective config |
| ReloadLimits.OneReloadMayFallShort | kfmon.c:1161-1192 | A concrete directory for which one reload is not enough: the slot needed is only purged after the walk |
| Startup.LoadIsLoaded | kfmon.c:840-889 | Every file was either taken over into a slot or turned away for a reason that still holds, and every active slot comes from a file |
| Startup.FirstReloadIsQuietExactly | kfmon.c:3184-3197 | With new_watch_list within its array, the reload right after the load signals nothing if and only if every file naming a loaded watch that does not run is complete and says in effect what that watch does; it then changes no active watch |
| Startup.FirstReloadIsStable | kfmon.c:3184-3197 | With distinct names it always is so, whatever was rejected and whatever runs |
| Startup.LoadStartsARun | kfmon.c:799-896 | What the load leaves, with an empty process table and the clock past its first second, is a state runs begin in |
| ReloadLimits.DuplicatesDisturbStartup | kfmon.c:840-889 | Two files for one target: the load keeps the first, the first reload takes over the last and signals |
| Ipc.HandleStart | kfmon.c:2424-2599 | On its arguments and the fields: spawns the watch found if it does not run and is forced for a non-blocker, or no blocker runs and there is no block file; replies OK exactly then, and else the status of the first reason, or the format expected |
| Ipc.ListWatches | kfmon.c:2363-2410 | The reply is the sequence of lines of all listed watches |
| Ipc.ResolveInFields | kfmon.c:2456-2476 | An id finds its own slot when that is active and nothing else, a name the first active watch with that basename |
| Ipc.CommandExactly | kfmon.c:2427-2447 | Force and trigger are what the prefix says; something is asked for exactly when the prefix has its colon and a number, or a word, is scanned behind it |
| Ipc.LinesAreListed | kfmon.c:2368-2392 | A line is in the reply if and only if it is that of an active watch, not hidden in a gui listing |
| Ipc.LinesInOrder | kfmon.c:2370-2410 | The lines come in the order of the slots |
| Ipc.LineInFields | kfmon.c:2381-2392 | A line is id, basename and, exactly when there is one, label |
| Ipc.ListedLineStarts | kfmon.c:2363-2476 | Sending the id in front of a listed line's first colon back as start or force-start resolves to the very watch the line describes |
| Ipc.StartAgrees | kfmon.c:2438-2476 | start with the decimal id of an active watch parses to that id and resolves to its slot |
| Ipc.TriggerAgrees | kfmon.c:2432-2476 | trigger with the basename of an active watch resolves to its slot if and only if the basename is not empty and holds no blank |
| Ipc.ScanPrintedId | kfmon.c:2439-2445 | Printing an id in decimal and scanning it back is the identity below 256 |
| Ipc.NumberScanned | kfmon.c:2439-2445 | Any number behind blanks and a sign is scanned modulo 256, a negative one as its complement |
| Ipc.BlankCharacters | kfmon.c:2437-2445 | Blanks are the space and the five control characters from tab to carriage return |
| Ipc.NothingScanned | kfmon.c:2439-2445 | Without a digit behind blanks and a sign, nothing is scanned |
| Ipc.ScanWordBack | kfmon.c:2437-2443 | Behind any blanks, a word of up to 128 characters is scanned back if and only if it is not empty and holds no blank |
| CString.Str5Cpy | str5/str5cpy.c:11-60 | Each return code exactly in its case; on success the buffer holds the first dstsize-1 characters wanted, padded with NULs; on error nothing changes; no access outside src's text or dst's size |
| CString.Str5Cat | str5/str5cat.c:9-69 | Each return code exactly in its case; on success the text is the first dstsize-1 characters of the old text followed by what was wanted; on error nothing changes |
| CString.CopyThenAppend | str5/str5cat.c:9-69 | A truncating copy and any number of truncating appends leave a NUL-terminated text: the first size-1 characters of the concatenation |
| CString.BuiltIsTruncatedConcat | str5/str5cat.c:28-68 | Truncating after every step gives the same as truncating the whole concatenation once |
| CString.FieldCopyIsExact | kfmon.c:607-609 | Copying a parsed field into another of the same size never truncates it |
| AtomicIo.ReadInFull | openssh/atomicio.c:101-136 | Whatever the kernel answers, also before a failure: the buffer gets what comes next in the stream, in order and complete, less than the length asked, or 8 MiB, only at its end or on failure |
| AtomicIo.WriteInFull | openssh/atomicio.c:138-173 | On success exactly the length asked, or 8 MiB if that is less, was written, in order; on failure a proper prefix of that was, and the error is not a recoverable one |
| AtomicIo.SendInFull | openssh/atomicio.c:175-207 | The same for send, which may also return 0 and be tried again |
| AtomicIo.XRead | openssh/atomicio.c:42-68 | Never fails for a recoverable reason, and reads what comes next in the stream |
| AtomicIo.XWrite | openssh/atomicio.c:70-97 | Never fails for a recoverable reason, and sends a prefix of the buffer |
| AtomicIo.SendThenRead | openssh/atomicio.c:101-207 | What is sent in full over a fresh channel is read in full at the other end unchanged |
| Thumbnails.QHash | kfmon.c:1243-1255 | The hash in 32-bit arithmetic is that of the recurrence over unbounded numbers, and below 2^28 |
| Thumbnails.RoundsAgree | kfmon.c:1249-1251 | One round in wrapping 32-bit arithmetic gives the same as over unbounded numbers, although the sum may overflow |
| Thumbnails.HashRecurrence | kfmon.c:1243-1255 | The hash starts at 0, and each byte makes it 16 times itself plus the byte: the last 28 bits of that, exclusive or the four bits above them times 32 |
| Bits.XorAndSum | kfmon.c:1250 | Exclusive or adds without carries: a plus b is Xor plus twice And |
| Bits.BitsOf | kfmon.c:1250-1251 | Each bit of Xor is the sum modulo 2 of the two bits, each bit of And their product |
| Bits.XorTwice | kfmon.c:1250 | Exclusive or undoes itself |
| Thumbnails.RoundIsFold | kfmon.c:1249-1251 | A round only depends on the last 28 bits of its sum and the four above them, which come back in at bit 5 |
| Thumbnails.ImageDirectories | kfmon.c:1265-1266 | The two directory numbers are the hash mod 256 and (hash / 256) mod 256 |
| Thumbnails.ReplaceInvalidChars | kfmon.c:1230-1239 | Munges every character of the text and nothing behind its NUL |
| Thumbnails.StrRChr | kfmon.c:1338 | The position of the last dot of the text, or -1 |
| Thumbnails.MungedPaths | kfmon.c:1331-1354 | Both thumbnail names, computed in place by cutting the string at its last dot, are the munged base with the dot kept or swapped and the extension as it was |
| Thumbnails.ShortcutIsMunge | kfmon.c:1349-1354 | Swapping the dot gives the munged path if and only if the extension has no character to munge |
| Thumbnails.VariantsDifferAtTheDot | kfmon.c:1336-1354 | The two names differ at the last dot and nowhere else, and are equal exactly when there is no dot |
| Thumbnails.MungeIdempotent | kfmon.c:1230-1239 | Munging twice is munging once, leaves no invalid character, and changes exactly the strings that have one |
| Thumbnails.MungedCharacters | kfmon.c:1234-1235 | The eleven invalid characters, and no letter, digit, dash or underscore |
| Thumbnails.ShortcutFallsShort | kfmon.c:1349-1354 | A path with its last dot in a directory name, for which the shortcut is not the munged path |

## Left out

- Ipc.HandleStart: does not model the 4095-byte read of the request, nor `strtoul` saturating on ids beyond
  `ULONG_MAX`; such a value is reduced modulo 256 here.
- Ipc.ListWatches: leaves out the case-insensitive recognition of `list` and `gui-list`, the version request, and
  sending the lines, which is `AtomicIo.SendInFull`.
- ReloadTracking.ListOnlyGrows: `new_watch_list` is a sequence that can grow, of which the purge sees the first N
  entries; what the C code does once it has written past its array is not modelled.
- SpawnSafety.StepKeepsSpawnInv: a retry of `waitpid` after EINTR is no step of its own, and a spawn that fails to
  start its reaper thread is an abort of the daemon.
- SpawnSafety.OneWaiterPerChild: pids are distinct only among children not yet waited for, as the kernel may reuse
  the others before their entry is freed.
- QuarantineRuns.SpawnsOutsideQuarantine: starts over for a slot that was cleared or given to another file, as its
  fields do.
- AtomicIo.SendInFull: the kernel stops answering without moving data after some number of times, which can be any;
  waiting in `poll` is not modelled.
- AtomicIo.ReadInFull: reads and writes on one stream, so what the other side sends can only be added to.
- Thumbnails.QHash: for byte strings whose length fits the 32-bit counter; for longer ones the original loop never
  ends.
- Parsing of config files, of booleans and of the daemon's own config: a file is broken or gives a config.
- SQLite, thumbnail lookups, mounts, inotify, `poll`, signals and process start: inputs, or not modelled.
- Tearing down inotify watches and `wd_was_destroyed`: a restart of the main loop can happen at any time events are
  awaited.
- Logging, on-screen messages, time formatting, peer credentials and daemonizing: no state that matters here.
- Widths of `pid_t` and `time_t`, and a clock that wraps: these values are unbounded.
- The command line tools under `utils`, and packaging.
