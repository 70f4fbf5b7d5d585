# mini-container: a verified model

mini-container is a small container runtime. Its container manager keeps a table of
containers, moves each of them through CREATED, RUNNING and STOPPED, writes the table to a
state file after every change and reads it back on the next start. Its resource manager
keeps one control group per container in the v1 or v2 cgroup layout. Around them stand an
interactive menu with a quoted-command tokenizer, a signal handler that shuts everything
down, a web monitor, and a builder for minimal root filesystems.

This project models that logic in Dafny and proves what it keeps, restores and loses.

| file | contents |
|---|---|
| `CText.dfy` | C text conversions: `%d`, `strtol`, `strtoul`, `strstr`, narrowing to `int` |
| `Cgroups.dfy`, `ResourceManager.dfy` | the cgroup tree, creation, limits, removal; the object that changes it |
| `Table.dfy` | records, numeric ids, lookup by id and by pid |
| `StateFile.dfy` | the printer and the line scanner of the state file, character by character |
| `Lifecycle.dfy` | create, start, stop, destroy, run and restart as functions on the whole state |
| `Manager.dfy` | the manager as an object over a growing array, tied method by method to the functions above |
| `Operations.dfy` | when each call succeeds and the exact state it leads to |
| `Runs.dfy`, `Agreement.dfy`, `Durability.dfy`, `Leftovers.dfy`, `Shutdown.dfy` | what every session and every sequence of sessions keeps |
| `Witnesses.dfy` | reachable states in which the code does less than it seems to promise |
| `Tokenizer.dfy`, `Monitor.dfy`, `MinimalRoot.dfy`, `ConfigBlocks.dfy` | command tokenizer, web monitor, root builder, block ownership of copied configurations |

Everything outside the program is a parameter. A `Kernel` says which `mkdir`, `rmdir` and
knob writes are refused. An `Env` adds the clock, the answer of the spawn, whether the state
file can be opened, and which allocations succeed. A `Probe` says which pids are alive at a
load. All of them are arbitrary unless a statement restricts them. A knob that nobody wrote
shows what the Linux kernel shows: `max 100000`, `-1`, `100000`, `max`. Strings are C strings, so
they hold no NUL. A container's state is an `int`, because the loader stores whatever number
it finds. Signed overflow, which C leaves undefined, is taken to wrap around
(`shares * period`, the generated id after the largest `int`).

## Where the code does less than it seems to promise

Each item names the exact condition, for all inputs. A lemma called a witness reaches a
failing state from an empty manager through the manager's own calls.

- **Pid as argument.** `destroy` and `start` accept a pid but then use the argument itself
  to remove the entry and to name the cgroup (`src/container_manager.cpp:580`, `:676`).
  `DestroyAgreesIff` and `StartAgreesIff` show that directories and table agree afterwards
  exactly when the argument is not such an alias. Witnesses: `DestroyByPidSplits`,
  `StartByPidSplits`.
- **Stopped containers keep their pid**, although `docs/api.md:194` says it is 0 when not
  running. `NotRunningPidIff`: the pid of an entry that does not run is 0 exactly when it was
  never started. Witness: `StoppedKeepsPid`.
- **Ids are printed unescaped.** A `}` in an id closes its record before its fields, a quote
  cuts it short, and nothing at all is read of an empty id or one that begins with a quote,
  whose fields then stay behind for the next record. `LoadOfSaveSeen` gives the exact result
  for all ids that fit on one line. `LoadIsKeptIff`: such a table loads as its kept entries
  exactly when every kept id is a positive decimal of at most 255 characters and no other
  entry is revived by a brace. Witnesses: `BraceStopComesBack`, `QuoteMakesTwins`.
- **Renumbering on load**, and cutting at a quote, can give two entries the same id.
  `LoadUniqueIff` says exactly when, by a count over the ids as they are read. Witnesses:
  `RestartMakesTwins`, `QuoteMakesTwins`, `BraceMakesTwins`.
- **Init does not rewrite the file when nothing loads**, so a pid that is used again later
  brings a dead container back, until a call or the end of the session saves again.
  `CrashConsistencyIff`: a crash loses and invents nothing exactly when no pid of a run that
  only the file still shows is alive. `CleanEnd`: after a cleanup or a shutdown that always
  holds. Witness: `ReusedPidComesBack`.
- **A restart removes no directories.** `RestartAgreesIff`: directories and table agree after
  it exactly when every saved entry is kept under its own name. `HistoryCovers`: over all
  sessions the directories left over are those of dropped ids. Witnesses:
  `DeadRunLeavesDirectory`, and `ComesBackWithoutDirectory` for an entry that comes back by a
  reused pid.
- **A v1 cgroup creation that fails half way** is not undone: `FailedCreateKeepsTreeIff`,
  `CreateRollback` and `RunRollback` give the exact condition. Witness:
  `HalfWayLeavesDirectory`.
- **The copy's failure arm for command strings** releases blocks twice, every time
  (`Allocator.Copy`), and release stops at the first null argument (`ReleaseAfterCopyIff`).
- **`shares * period` is an `int` product**: `QuotaExactIff`. `QuotaFalls` names two limits.
- **The monitor misreads unset CPU limits.** `CpuReadsAs`: for a new container it reads the
  true quota and period when limits are set (the defaults set them, `--cpu 0` does not);
  otherwise it throws in v2, where the kernel shows `max 100000`, and reads the largest
  unsigned number in v1, where it shows -1, so that the share shown is next to nothing
  (`UnlimitedShowsNothing`). `ReadLimitIff`: a number reads as itself exactly when it is not
  negative. Witness: `UnsetLimitMisread`.
- **Shutdown misses running entries behind an equal id**: `ShutdownStopsAllIff`.
  `ShutdownLoadsNothingIff` says exactly when the next start loads nothing. Witness:
  `ShutdownLeavesTwin`, where it takes the missed container over as running.

## Model

| member | source | states |
|---|---|---|
| `CText.ScanPrinted` | src/container_manager.cpp:356-366 | reading a printed number returns it and leaves exactly the text behind it, for every integer |
| `CText.ScanDecimal` | src/container_manager.cpp:31-39 | what every number reader takes of a text: blanks, a sign, digits, and nothing of the rest |
| `Table.NumericIdOfPrinted` | src/container_manager.cpp:31-39 | the numeric id of any printed number: a positive `int` itself, its low 32 bits up to the largest `long`, -1 otherwise |
| `Table.NumericIdOfDecimal` | src/container_manager.cpp:31-39 | blanks, a plus sign and leading zeros do not change it |
| `Table.ArgPidOfPrinted` | src/container_manager.cpp:738-744 | the pid any printed number stands for as an argument, narrowed in the same way |
| `Table.MaxIdAttained` | src/container_manager.cpp:45-51 | the largest numeric id is that of an entry, or 0 |
| `Table.Find` | src/container_manager.cpp:56-63 | the first entry with the id, or none has it |
| `Table.FindPid` | src/container_manager.cpp:726-733 | the first entry with the pid, or none has it |
| `Table.FindIsMapLookup` | src/container_manager.cpp:56-63 | with distinct ids, lookup is the map from ids to positions |
| `Table.NextIdFresh` | src/container_manager.cpp:40-55 | below the `int` limit the generated id is the next number and no entry has it |
| `Table.NextIdFreshIff` | src/container_manager.cpp:40-55 | for every table, the generated id is new exactly when the increment fits or the wrapped name is free |
| `Table.LookupIff` | src/container_manager.cpp:734-746 | lookup fails exactly when the argument is neither an id nor a recorded pid; an id wins over a pid |
| `Table.PrintedPidFinds` | src/container_manager.cpp:726-746 | the decimal of a recorded pid leads to the first entry with it, in every state |
| `Cgroups.CreateFrame` | src/resource_manager.cpp:234-276 | creation touches only the container's own directories and knobs, whatever is refused; it makes exactly the directories it asks for and may make (cpuacct too, behind a separate cpu), and succeeds exactly when a CPU and a memory one, or the unified one, can be had |
| `Cgroups.CreateWrites` | src/resource_manager.cpp:89-190 | the text of every knob after a creation, whatever the kernel refuses: which limits are written, in which order, and what a refusal keeps out |
| `Cgroups.CreateIdempotent` | src/resource_manager.cpp:234-276 | creating twice under the same limits and answers is the same as once, in both layouts |
| `Cgroups.DestroyExact` | src/resource_manager.cpp:365-385 | removal takes exactly the container's directories that the kernel lets go, with their knobs, in both layouts |
| `Cgroups.DestroyUndoesCreate` | src/resource_manager.cpp:365-385 | after any outcome of create, destroy leaves no directory of that id and every other directory and knob as before |
| `Cgroups.FailedCreateKeepsTreeIff` | src/resource_manager.cpp:247-264 | a failed creation leaves the tree unchanged exactly when it did not stop half way in v1 |
| `Cgroups.QuotaPositive` | src/resource_manager.cpp:265-269 | every quota reached through creation is positive, a derived one at least 1000, so "max" is never written from there |
| `Cgroups.QuotaMeans` | src/resource_manager.cpp:93-98 | an explicit quota stands as it is, the period is the one given or 100000, a derived quota is the shares' part of the period, at least 1000, of the low 32 bits of the product |
| `Cgroups.QuotaExactIff` | src/resource_manager.cpp:93-98 | the derived quota is shares * period / 1024 (at least 1000) exactly when the product fits an `int` |
| `Cgroups.QuotaMonotone` | src/resource_manager.cpp:95-98 | within the `int` bound more shares never give a smaller quota |
| `Cgroups.QuotaProportional` | src/resource_manager.cpp:95-98 | within the `int` bound 1024 shares are one period and, unclamped, the quota is less than one microsecond below the exact share |
| `ResourceManagers.ResourceManager.EffectiveCpu` | src/resource_manager.cpp:93-98 | the stepwise computation yields the specified quota and period |
| `ResourceManagers.ResourceManager.SetCpuLimits` | src/resource_manager.cpp:89-148 | the writes, in order and stopping at the first refusal, are those of the specification; success exactly when the directory exists and no write is refused |
| `ResourceManagers.ResourceManager.SetMemoryLimits` | src/resource_manager.cpp:149-190 | the same for memory and swap |
| `ResourceManagers.ResourceManager.MakeDirs` | src/resource_manager.cpp:240-264 | the directories made, with the v1 fallback, and the result |
| `ResourceManagers.ResourceManager.CreateCgroup` | src/resource_manager.cpp:234-276 | the tree and result of the specification; nothing when not initialized |
| `ResourceManagers.ResourceManager.DestroyCgroup` | src/resource_manager.cpp:365-385 | the tree of the specification; nothing when not initialized |
| `StateFile.ScanKeyLine` | src/container_manager.cpp:356-366 | a printed field sets its own variable only, inside a record only, and commits nothing |
| `StateFile.AssignKeeps` | src/container_manager.cpp:356-366 | a field keeps the number read; pid and state keep its low 32 bits |
| `StateFile.RecordShows` | src/container_manager.cpp:311-333 | the saved record of any entry, stopped ones included, shows all its fields |
| `StateFile.ScanIdLine` | src/container_manager.cpp:353-368 | the line of any id opens a record under what is read of it, and a brace anywhere in the id closes the record at once unless no id was read |
| `StateFile.CutWholeIff` | src/container_manager.cpp:355 | an id is read whole exactly when it has no quote and at most 255 characters |
| `StateFile.LoadOfSaveSeen` | src/container_manager.cpp:334-416 | the exact result of loading any saved table whose ids fit on one line: braces, quotes, empty and overlong ids included |
| `StateFile.LoadOfSave` | src/container_manager.cpp:311-416 | loading a saved table returns its kept entries, in order, with all fields and no configuration, renaming only non-numeric ids |
| `StateFile.BraceIdComesBack` | src/container_manager.cpp:367-368 | in any such table an entry with a brace in its id, in whatever state, loads as CREATED without history, behind what the entries before it load as, unless nothing is read of the id before it |
| `StateFile.LoadIsKeptIff` | src/container_manager.cpp:311-416 | below the `int` limit a saved table of one-line ids loads as its kept entries exactly when every kept id is a positive decimal of at most 255 characters and no brace revives another entry |
| `StateFile.LoadCounter` | src/container_manager.cpp:376-391 | below the `int` limit the largest loaded id is a count over the ids as they are read: a kept decimal raises it, any other kept id adds one |
| `StateFile.LoadUniqueIff` | src/container_manager.cpp:334-416 | below the `int` limit the ids loaded from a saved table of one-line ids are distinct exactly when, as they are read, no kept decimal is the name an earlier kept entry gets |
| `StateFile.NumericFirstUnique` | src/container_manager.cpp:376-391 | in particular when distinct ids are read and kept decimals come before renamed entries |
| `Lifecycle.RunIsCreateThenStart` | src/container_manager.cpp:765-836 | run succeeds exactly when create and then start do, and ends in the same table, tree, capacity and file |
| `Lifecycle.CreateRollback` | src/container_manager.cpp:448-556 | a create that fails at any step changes nothing, except the tree exactly when it stopped half way in v1 |
| `Lifecycle.RunRollback` | src/container_manager.cpp:765-836 | a run that fails at any step restores the table, and the tree under the same exact condition; the file is untouched or shows the old table |
| `Manager.ContainerManager.constructor` | src/container_manager.cpp:417-447 | init ends in the state of the specified restart: loaded table, grown capacity, file rewritten only if something loaded |
| `Manager.ContainerManager.FindContainer` | src/container_manager.cpp:56-63 | the loop finds the first entry with the id |
| `Manager.ContainerManager.FindByPid` | src/container_manager.cpp:726-733 | the loop finds the first entry with the pid |
| `Manager.ContainerManager.GetInfo` | src/container_manager.cpp:734-746 | lookup by id, else by pid |
| `Manager.ContainerManager.LargestId` | src/container_manager.cpp:45-51 | the loop computes the largest numeric id |
| `Manager.ContainerManager.GenerateId` | src/container_manager.cpp:40-55 | the generated id of the specification |
| `Manager.ContainerManager.Grow` | src/container_manager.cpp:66-78 | a new array of twice the size with the same entries |
| `Manager.ContainerManager.AddContainer` | src/container_manager.cpp:64-83 | appends one entry, doubling when full; a refused reallocation changes nothing |
| `Manager.ContainerManager.ShiftLeft` | src/container_manager.cpp:91-94 | the shifting loop removes exactly one entry and keeps the order |
| `Manager.ContainerManager.RemoveContainer` | src/container_manager.cpp:85-98 | exactly the first entry with the id goes, if there is one |
| `Manager.ContainerManager.UpdateEntry` | src/container_manager.cpp:605-608 | changes one record in place and no other |
| `Manager.ContainerManager.SaveState` | src/container_manager.cpp:311-333 | the file holds exactly the printed table, or is untouched when it cannot be opened; this is also what cleanup does to the file |
| `Manager.ContainerManager.CommitRecord` | src/container_manager.cpp:367-412 | a closed record is dropped or appended, renamed if needed |
| `Manager.ContainerManager.LoadState` | src/container_manager.cpp:334-416 | the line loop builds the specified table and counts it |
| `Manager.ContainerManager.Create` | src/container_manager.cpp:448-556 | state and result of the specified create |
| `Manager.ContainerManager.CreateEntry` | src/container_manager.cpp:478-556 | the part with rollback |
| `Manager.ContainerManager.Start` | src/container_manager.cpp:557-611 | state and result of the specified start |
| `Manager.ContainerManager.Stop` | src/container_manager.cpp:612-662 | state and result of the specified stop |
| `Manager.ContainerManager.Destroy` | src/container_manager.cpp:663-679 | state and result of the specified destroy |
| `Manager.ContainerManager.Launch` | src/container_manager.cpp:785-836 | spawn and record, or destroy the entry |
| `Manager.ContainerManager.Run` | src/container_manager.cpp:765-836 | state and result of the specified run |
| `Manager.ContainerManager.ShutdownPass` | src/main.cpp:1564-1605 | one pass over the table, each stop through the manager by id |
| `Manager.ContainerManager.ShutdownAll` | src/main.cpp:1539-1611 | the passes and the final save |
| `Operations.StartExact` | src/container_manager.cpp:557-611 | start succeeds exactly when the argument leads to a CREATED or STOPPED entry with a command, the cgroup can be made and the spawn answers a pid; it records that very pid and time there and changes nothing else |
| `Operations.StopExact` | src/container_manager.cpp:612-662 | stop succeeds exactly when the argument, id or pid, leads to a running entry; it stops that one, then, and keeps its pid |
| `Operations.DestroyExactly` | src/container_manager.cpp:663-679 | destroy succeeds exactly when the argument leads to an entry; in both layouts and in every state it removes all directories of that entry's id that the kernel lets go, stops it if it runs, and removes the first entry whose id is the argument |
| `Operations.DestroyByPidStops` | src/container_manager.cpp:663-679 | an entry destroyed through its pid stays, stopped |
| `Operations.CreateExact` | src/container_manager.cpp:448-556 | create succeeds exactly when no allocation, cgroup, root or realloc answer refuses it and no entry has the name; the exact new state |
| `Operations.AutoNamedCreate` | src/container_manager.cpp:448-475 | without a name the container gets the number after the largest, which no entry has, and never stops at the duplicate check |
| `Operations.RunExact` | src/container_manager.cpp:765-836 | run succeeds exactly when its creation does, there is a command and the spawn answers a pid; the exact new state |
| `Operations.AutoNamedRun` | src/container_manager.cpp:765-784 | the same freshness for run |
| `Operations.RestartExact` | src/container_manager.cpp:417-447 | init loads what the file shows, saves only if that is anything, leaves the tree, and has room by the fewest doublings |
| `Operations.StepKeepsRoom` | src/container_manager.cpp:64-83 | in every session and across restarts the table fits its array |
| `Runs.StepKeepsTable` | src/container_manager.cpp:448-679 | every call keeps ids distinct and every entry in a legal stage: pid and timestamps fit the state, times are ordered, the pid is 0 exactly when never started |
| `Runs.SessionKeepsTable` | src/container_manager.cpp:448-836 | so does every session, to its end by cleanup or shutdown, for all ids, arguments and outside answers |
| `Runs.NotRunningPidIff` | src/container_manager.cpp:612-662 | in every state of every session the pid of an entry that does not run is 0 exactly when it was never started |
| `Runs.StepMoves` | src/container_manager.cpp:448-836 | every call but destroy and shutdown keeps all entries in their places, moving at most one along a legal edge (start, stop or retire) that never changes its id, creation time or configuration; it adds an entry exactly when it is a successful create or run: last, under the chosen id and the given configuration, CREATED or RUNNING |
| `Runs.DestroyMoves` | src/container_manager.cpp:663-679 | destroy stops at most one running entry, in place, then removes at most the first entry whose id is the argument; the others keep their order and content |
| `Runs.ShutdownMoves` | src/main.cpp:1539-1611 | shutdown keeps every entry in its place, unchanged or stopped from CREATED or RUNNING |
| `Agreement.StartAgreesIff` | src/container_manager.cpp:557-611 | start keeps one v2 directory per entry exactly when it does not make one for a pid alias |
| `Agreement.DestroyAgreesIff` | src/container_manager.cpp:663-679 | destroy keeps one v2 directory per entry exactly when the argument is no pid alias |
| `Agreement.SessionAgrees` | src/container_manager.cpp:514-679 | every state of a v2 session that names entries by id, with removals succeeding, has exactly the directories of its entries |
| `Agreement.RestartAgreesIff` | src/container_manager.cpp:417-447 | a restart keeps one v2 directory per entry exactly when every saved entry is kept and its id is a positive decimal of at most 255 characters, for all one-line ids |
| `Leftovers.HistoryCovers` | src/container_manager.cpp:417-679 | over every history of v2 sessions that name entries by id, with no dead run brought back, every entry has its directory and every other directory belongs to an id that a restart dropped |
| `Agreement.SessionUnconfigured` | src/container_manager.cpp:575-578 | no session makes an entry without saved configuration run |
| `Durability.StepWritesThrough` | src/container_manager.cpp:448-679 | a call changes nothing that a load can see, or leaves the file showing the new table |
| `Durability.DurableLoadsIff` | src/container_manager.cpp:334-416 | under the invariant, a load finds exactly the CREATED and live RUNNING entries in memory, in order, if and only if no pid of a run that only the file still shows is alive |
| `Durability.EveryHistoryDurable` | src/container_manager.cpp:417-447 | every history of calls, cleanups, shutdowns and restarts, with any pids alive at them, keeps the invariant: the file shows the table in memory, or memory is empty and the file shows only stopped entries and runs found dead |
| `Durability.CrashConsistencyIff` | src/container_manager.cpp:311-447 | if state-file writes succeed and chosen ids load under their own name, then after any history of sessions from a fresh start, ended normally or by a crash, a crash between calls loses and invents nothing if and only if no pid of a run that only the file still shows is alive; the lifecycle invariant holds throughout |
| `Durability.CrashConsistency` | src/container_manager.cpp:311-447 | in particular when the pids that restarts found dead are still dead |
| `Durability.CleanEnd` | src/container_manager.cpp:747-749 | after any history whose last session ended by cleanup or shutdown, whatever pids are alive, the next start finds exactly the kept entries of the table, and after a shutdown none |
| `Shutdown.ShutdownStates` | src/main.cpp:1564-1605 | what the handler's passes make of every entry: a created one is stopped at the time of the last pass, the first running one of its id at the time of the first, anything else stays as it was |
| `Shutdown.ShutdownStopsAllIff` | src/main.cpp:1564-1605 | nothing stays created or running exactly when no running entry stands behind one with the same id |
| `Shutdown.ShutdownLoadsNothingIff` | src/main.cpp:1539-1611 | for one-line ids the next start loads nothing exactly when every entry of whose id anything is read gets its fields from an entry in a legal state that does not run on behind an equal id |
| `Shutdown.ShutdownThenRestart` | src/main.cpp:1539-1611 | in particular with distinct ids that are read whole |
| `Tokenizer.Tokenize` | src/main.cpp:719-764 | the loop computes the specified tokens, none of them empty |
| `Tokenizer.ScanTakes` | src/main.cpp:724-752 | scanning from any state adds a subsequence of the text to what was taken |
| `Tokenizer.TokensInOrder` | src/main.cpp:719-764 | the tokens of any command, joined, are a subsequence of it |
| `Tokenizer.RoundTrip` | src/main.cpp:719-764 | writing a list of arguments, each bare or between single or double quotes, and scanning it returns the list |
| `Tokenizer.PiecesScan` | src/main.cpp:719-764 | a command written in pieces, bare or between quotes and put side by side, with any spaces around the words, scans to the words' texts, empty ones left out |
| `Tokenizer.EveryCommandInPieces` | src/main.cpp:719-764 | every command is so written, so the pieces say what any command scans to |
| `Tokenizer.QuoteInsideWord` | src/main.cpp:726-729 | a quote that opens inside a word continues it |
| `Tokenizer.QuotedWordIff` | src/main.cpp:726-735 | one word between single or double quotes comes back exactly when it is not empty, does not end in a backslash and has every such quote behind a backslash |
| `Monitor.CpuReadBack` | src/web_server_simple.cpp:170-203 | the monitor reads the very quota and period that were written, the same in v1 and v2, from the directory the writer chose |
| `Monitor.CpuReadsExactly` | src/web_server_simple.cpp:170-203 | after a creation the monitor reads the explicit quota as it was set, or the shares' part of the period, at least 1000, and the period given or 100000 |
| `Monitor.SharesStored` | src/resource_manager.cpp:136-145 | the v1 shares are stored in that directory too |
| `Monitor.MemoryReadBack` | src/web_server_simple.cpp:127-144 | the memory limit reads back, and a swap limit is stored |
| `Monitor.CpuReadsAs` | src/web_server_simple.cpp:170-203 | what is read for a new container, for every limit: the true quota and period exactly when limits are set, else v2 throws and v1 reads the largest number |
| `Monitor.MemoryReadsAs` | src/web_server_simple.cpp:185-205 | the same for memory: the limit, or without one 0 in v2 and the kernel's largest limit in v1 |
| `Monitor.MissingReads` | src/web_server_simple.cpp:170-205 | without a cgroup it reads no limits |
| `Monitor.OneWordReads` | src/web_server_simple.cpp:174-183 | nor from a one-word v2 line |
| `Monitor.TwoWordsThrowIff` | src/web_server_simple.cpp:177-183 | a two-word line makes the reader throw exactly when a word is no number in range |
| `Monitor.StoulIff` | src/web_server_simple.cpp:177-183 | a printed number is taken exactly when it fits in size, a negative one as unsigned |
| `Monitor.UnsetCpuMaxThrows` | src/web_server_simple.cpp:177-183 | a line of the word max and a period always does |
| `Monitor.ReadLimitIff` | src/web_server_simple.cpp:127-144 | a printed `long` reads as itself exactly when it is not negative, else as itself plus 2^64 |
| `Monitor.ReadLimitTail` | src/web_server_simple.cpp:127-144 | only a space may follow the number |
| `Monitor.ReadLimitBeyond` | src/web_server_simple.cpp:127-144 | a number beyond the range reads as the largest |
| `Monitor.ReadLimitLong` | src/web_server_simple.cpp:128-133 | no more than the buffer's 255 characters are read |
| `Monitor.FirstLineDecides` | src/web_server_simple.cpp:127-144 | the readers see only the first line |
| `Monitor.Percent` | src/web_server_simple.cpp:208-228 | every reported share lies between 0 and 100 |
| `Monitor.PercentOfAllowed` | src/web_server_simple.cpp:210-228 | the share is the CPU time used over the time the quota allows, or over one CPU without a quota, capped at 100 |
| `Monitor.PercentZeroIff` | src/web_server_simple.cpp:207-228 | the share is 0 exactly for a container that does not run, at its first reading, when no time passed or no CPU time was used |
| `Monitor.DiffWraps` | src/web_server_simple.cpp:210 | a counter that went back counts as having wrapped around |
| `Monitor.UnlimitedShowsNothing` | src/web_server_simple.cpp:210-228 | with that quota and a period up to a second, up to 1024 busy CPUs show as less than a millionth of a percent |
| `Monitor.Sampler.Visit` | src/web_server_simple.cpp:207-241 | one container's share and the two updated maps |
| `Monitor.Sampler.Sweep` | src/web_server_simple.cpp:158-241 | the loop over all containers |
| `Monitor.PollAllKeys` | src/web_server_simple.cpp:146-241 | over every sequence of polls both maps cover the same containers |
| `Monitor.PollRecords` | src/web_server_simple.cpp:229-230 | a poll leaves a running container's own reading and time behind |
| `Monitor.PollForgets` | src/web_server_simple.cpp:237-241 | and forgets a container that does not run |
| `Monitor.DifferencesTelescope` | src/web_server_simple.cpp:207-230 | while a container runs and its counter does not go back, the differences add up to last minus first |
| `MinimalRoot.FileSystem.MkdirP` | src/filesystem_manager.cpp:48-66 | terminates; succeeds exactly when no device is in the way and nothing missing is refused; success adds exactly the missing ancestors and the path |
| `MinimalRoot.FileSystem.MakeDirs` | src/filesystem_manager.cpp:106-113 | the directory loop: success exactly when every listed path could be made in the tree it found |
| `MinimalRoot.FileSystem.MakeDevices` | src/filesystem_manager.cpp:114-123 | the device loop: success exactly when each node exists or its parent is a directory and nothing refuses it |
| `MinimalRoot.FileSystem.CreateMinimalRoot` | src/filesystem_manager.cpp:101-125 | success exactly when every listed path could be made in the tree it found; success leaves each listed path as found or as the listed directory or device, and adds nothing else; on a complete root it always succeeds and changes nothing |
| `ConfigBlocks.Allocator.Copy` | src/container_manager.cpp:106-256 | succeeds exactly when no allocation is refused, and then stands for the whole configuration, plain values included, with every string in a new block of its own; a refusal restores the heap before the command strings and always releases twice among them |
| `ConfigBlocks.CopiesRead` | src/container_manager.cpp:106-256 | following the pointers of a copy gives the source configuration, an empty command having become a null one |
| `ConfigBlocks.Allocator.AbandonArgs` | src/container_manager.cpp:225-236 | the failure arm of the command loop always releases a dead block |
| `ConfigBlocks.Allocator.FreeConfig` | src/container_manager.cpp:257-269 | the blocks released, in order |
| `ConfigBlocks.ReleaseFrees` | src/container_manager.cpp:257-269 | release frees each block of a copy once, except the arguments behind the first null one |
| `ConfigBlocks.ReleaseAfterCopyIff` | src/container_manager.cpp:257-269 | releasing a copy gives back everything exactly when the command has no string behind a null one |
| `Witnesses.DestroyByPidSplits` | src/container_manager.cpp:663-679 | run, then destroy by the printed pid: the entry stays without its directory |
| `Witnesses.StartByPidSplits` | src/container_manager.cpp:557-611 | run, stop, then start by the printed pid: a directory of no entry |
| `Witnesses.StoppedKeepsPid` | src/container_manager.cpp:612-662 | run, then stop: a STOPPED entry with its pid |
| `Witnesses.BraceStopComesBack` | src/container_manager.cpp:334-416 | a stopped container "a}" is a CREATED "1" after a restart |
| `Witnesses.RestartMakesTwins` | src/container_manager.cpp:376-391 | created "foo" and "1" both come back as "1" |
| `Witnesses.QuoteMakesTwins` | src/container_manager.cpp:355 | created `1` and `1"x` both come back as `1` |
| `Witnesses.BraceMakesTwins` | src/container_manager.cpp:367-391 | a stopped "a}" comes back as "1", the id of a container that was created |
| `Witnesses.HalfWayLeavesDirectory` | src/resource_manager.cpp:247-264 | a v1 create refused at the memory directory leaves the CPU directory |
| `Witnesses.ReusedPidComesBack` | src/container_manager.cpp:441-445 | in a history as `CrashConsistencyIff` takes it, a run found dead at a restart is loaded at the next one when its pid is in use |
| `Witnesses.DeadRunLeavesDirectory` | src/container_manager.cpp:417-447 | a run found dead at a restart leaves its v2 directory without an entry |
| `Witnesses.ComesBackWithoutDirectory` | src/container_manager.cpp:417-447 | a run found dead, a failed create under its id, and a restart with its pid in use: an entry without its directory |
| `Witnesses.ShutdownLeavesTwin` | src/main.cpp:1539-1611 | running "foo" and "1" after a restart: shutdown leaves the second running and the next start loads it |
| `Witnesses.UnsetLimitMisread` | src/web_server_simple.cpp:170-203 | a container created without CPU limits makes the monitor throw in v2 and read the largest number in v1 |
| `Witnesses.QuotaFalls` | src/resource_manager.cpp:93-98 | one share more and the derived quota falls to the minimum |

## Left out

- The file system changes of `create`: only their outcome reaches the table; the builder itself is modelled in `MinimalRoot.dfy`.
- Namespaces, `clone`, `setns` and `execvp`: spawning is an answer, -1 or a positive pid, and always -1 for a missing command.
- `kill_process_tree` and the waiting loops in stop and shutdown: signals and timing; a stopped container's process is taken to be gone.
- `container_manager_exec`, sockets, HTTP text, menus, terminal handling and option parsing: input and output.
- Adding processes to cgroups and reading usage statistics: depend on /proc and kernel counters; usage is a parameter of the monitor.
- `getSystemCPUPercent`, the monitor's sort comparator and `copy_file`: each stands alone, and no stored state depends on it.
- The choice between the two state-file paths (`src/container_manager.cpp:304-310`): one file is modelled, so a start that finds the other path than the last session used is not.
- Ids with a newline, or longer than 1007 characters, so that their line in the state file is read in pieces: the menu accepts neither.
- Path strings of cgroups and truncation of paths to their buffers: a directory is a hierarchy and an id, so ids too long for a 512-byte path are not modelled.
- Failure arms of `container_manager_init` before the state is loaded, and allocation failure while loading.
- A crash in the middle of writing the state file: crashes happen at boundaries between calls.
- `Durability.CrashConsistencyIff`: the moment inside shutdown between retiring a CREATED entry and the final save is not among the boundaries, because the code has not saved there yet; `Durability.CleanEnd` covers the state after the save.
- Overflow of the table's capacity, and of megabytes multiplied in `int` at the command line.
- `MinimalRoot.FileSystem.MkdirP`: paths are component lists, so `dirname` on odd spellings and path length limits are not modelled.
- `Monitor.Percent`: real arithmetic, no floating-point rounding.
