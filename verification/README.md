# A verified model of fgos: process domains, the worker lane, the pane grid and the command-line edges

The project models, in Dafny, the parts of the repository whose behaviour spans processes, runs or
several functions, and proves what those parts promise.

- **Taking over from a dead lock holder** (`tools/platform-probe`). `ProcessChain` is the walk that finds a
  holder's descendants in a process snapshot, `ProcessHistory` judges it against every possible history of
  processes and reused pids, `JobDomain` is the tracked union of three membership sources, `JobRun` is the
  operating system around it, and `Predecessor` is the acquire rule. `StopRescan` (stop, rescan, kill while
  others fork) and `LockLifetime` (a lock held through inherited descriptors) are the unix side.
- **The dashboard** (`herdr-dashboard`). `WorkerLane` is pane reuse, pending panes and the launching tick, over
  whole runs; `PaneGrid` the growth of a tab into a 2x2 grid and its slots; `WorkerTabs` the numbering of the
  worker tabs; `WorkItemId` the id grammar and pane labels; `Cockpit` the cursor, tabs, filter and dialog.
- **The edges** (`apps`). `ConfigArgs` and `IdentityArgs` are the two argument parsers, `PatchArgs` with
  `ArgvFlags` and `JsonLibrary` the way of a JSON patch through an argument list into the engine, `JwksCache` the signing-key
  cache under interleaved calls. `Text`, `Decimal` and `Wrappers` are shared.

Objects that the source updates in place are classes here (`JobDomain.Dom`, `StopRescan.Kernel`,
`WorkerLane.App`, `Cockpit.App`, `JwksCache.Verifier`); their methods are tied to functions of the state, and
the statements about whole runs are lemmas about those functions.

`dafny verify dfyconfig.toml` checks the whole project.

## Assumptions about the surroundings

They are preconditions or parts of the step functions, never axioms.

- Windows jobs (`JobRun.Reads`, `JobRun.Apply`): one query of the domain is one instant; a count of 0 means no
  member is counted; a member that still runs uncounted is named by some source and can be opened; such a
  member starts no process; children of members are members (no breakaway); a pid is not handed out while its
  process runs or a handle to it is open. `JobRun.ReusedPidEscapesThePoll` shows the last one is needed.
- Process histories (`ProcessHistory.ValidHistory`): a parent is alive when it starts a child; a pid is handed
  out again only after its owner died, and later than that; a snapshot lists live processes, each pid once.
- Unix trees (`StopRescan`): a stopped process does nothing and a signal acts at once; no pid is reused during
  the loop; a process with living children does not exit, so nothing leaves the tree. Other processes run
  between any two reads, also between two entries of `/proc`.
- Terminal panes: `PaneGrid.Honest` says what an honest terminal does with a split, and
  `WorkerLane.SplitIsNew` that a split answers a pane the scan just before it did not list.
- Libraries (`JsonLibrary.Sound`, `PatchArgs.PlainTexts`): JSON text reads back with every number as its double,
  the decimal text of a double reads back as that double, and no text written for a value that is sent starts with
  two dashes. `JsonLibrary.SoundLibraryExists` gives a library that meets all of it. Lower-casing is a parameter of
  `Cockpit.Screen`.

## Where a plain reading of the comments is too strong

The model follows the code; each difference is a lemma with a concrete case, next to the exact condition.

- A reused pid does match when a descendant itself was handed the holder's pid (the walk then misses it), and a
  stranger is let in when the new owner's creation time cannot be read (`ProcessHistory`).
- A stale title can settle a pane before its worker has claimed anything (`WorkerLane.StaleTitleLetsSecondWorkerIn`);
  `HeldIff`, `ReusedIff` and `OldTitleSettlesIff` say exactly when.
- Reading order gives the bottom right pane the third slot when the left column was cut lower
  (`PaneGrid.LowerLeftCutSwapsTheBottomRow`).
- An empty text that clears a field or is refused, a list element that is empty or padded, a number no double holds
  or the field does not take: these do not reach the patch as they were sent (`PatchArgs.FieldComesBack`), and one
  refused value refuses the whole edit (`PatchArgs.EditRefusedIff`).
- `--init=x` and the other switches with a value name a directory (`IdentityArgs.SwitchWithValueIsDirectory`), and an
  argument list that ends in a flag without its value reads a following `--json` as that value
  (`ConfigArgs.TrailingJsonIff`).

## Model

| member | source | states |
|---|---|---|
| `ProcessChain.ChainFrom` | tools/platform-probe/src/windows.rs:447-478 | the walk ends, repeats no pid, reports only listed pids, and as a set is the least fixed point of the link rule and the holder while it is listed, whatever the order of the snapshot |
| `ProcessChain.ReusedSince` | tools/platform-probe/src/windows.rs:450-452 | no answer exactly when no listed process has taken over the holder's pid; otherwise the creation time of one that has |
| `ProcessChain.ChainIsLeastFixedPoint` | tools/platform-probe/src/windows.rs:454-473 | the chain is a fixed point, lies below every closed set, and never holds the holder's own pid |
| `ProcessChain.ChainIgnoresOrder` | tools/platform-probe/src/windows.rs:447-478 | two snapshots with the same rows in any order give the same answer |
| `ProcessChain.QuietPassIsComplete` | tools/platform-probe/src/windows.rs:454-473 | a pass that adds nothing has reached the least fixed point, although the known processes change during a pass |
| `ProcessHistory.ChainFindsDescendant` | tools/platform-probe/src/windows.rs:446-478 | in every history, a descendant whose path is in the snapshot with known creation times is reported if and only if nobody on that path was handed the holder's old pid, also when a newer process owns that pid |
| `ProcessHistory.ChainMissesNothing` | tools/platform-probe/src/windows.rs:446-478 | no such descendant is missed if and only if none of them now owns the holder's pid |
| `ProcessHistory.GrandchildUnderHolderPidIsMissed` | tools/platform-probe/src/windows.rs:446-478 | a concrete history in which a true descendant is missed because it was handed the holder's pid |
| `ProcessHistory.ChildPrecedesReuse` | tools/platform-probe/src/windows.rs:449-452 | a child of the holder was created before the process now listed under the holder's pid |
| `ProcessHistory.ChainIsSound` | tools/platform-probe/src/windows.rs:446-478 | everything reported is the holder or a true descendant if and only if no seen process is foreign: started by another owner of the holder's pid and not cut off by a listed newer owner |
| `ProcessHistory.TwoOwnersAreSound` | tools/platform-probe/src/windows.rs:447-477 | when only the holder and listed processes with known creation times ever owned the holder's pid, no stranger is reported; a reused pid in between links nobody in |
| `ProcessHistory.UnreadableOwnerLetsStrangerIn` | tools/platform-probe/src/windows.rs:450-452 | a concrete history in which the unreadable creation time of the new owner lets its child in |
| `ProcessHistory.OwnerIsParent` | tools/platform-probe/src/windows.rs:463-467 | the live process under a parent pid that is old enough is the true parent |
| `ProcessHistory.HolderIsReported` | tools/platform-probe/src/windows.rs:474-476 | in every history and snapshot the holder's own pid is reported if and only if the holder is seen: listed under its pid with its creation time |
| `ProcessHistory.ListedHolderLives` | tools/platform-probe/src/windows.rs:474-476 | and a listed holder is alive at the time of the snapshot |
| `JobDomain.Dom.constructor` | tools/platform-probe/src/windows.rs:316-329 | an opened domain has no members before its first reading |
| `JobDomain.Dom.Refresh` | tools/platform-probe/src/windows.rs:284-312 | one reading: every pid named by the list, the in-job scan or the holder's tree is tracked by the process opened when it was first named, with exactly the sources that named it since it is tracked; all other entries stay |
| `JobDomain.EverOneMore` | tools/platform-probe/src/windows.rs:305-306 | the sources a tracked process was ever named by are those of any reading since it is tracked, read off the lists, snapshots and walks themselves |
| `JobDomain.OpenSources` | tools/platform-probe/src/windows.rs:307-309 | the view taken at open is what the opening reading named the process by, and later readings keep it |
| `JobDomain.TrackedByIff` | tools/platform-probe/src/windows.rs:295-305 | a pid is tracked by the handle that the first reading naming and opening it gave, over the list, the in-job rows and the walk of each reading |
| `JobDomain.EmptyAfterIff` | tools/platform-probe/src/windows.rs:353-358 | the union is empty exactly when the job counts nothing and no handle that a first naming opened is running |
| `JobDomain.Dom.Active` | tools/platform-probe/src/windows.rs:353-358 | no number when the query failed, otherwise the larger of the job's count and the tracked processes still running; it is 0 exactly when the union is empty |
| `JobDomain.NameAll` | tools/platform-probe/src/windows.rs:286-294 | exactly the union of the three sources, with which of them named each process |
| `JobDomain.LookupAfterPut` | tools/platform-probe/src/windows.rs:296-311 | an entry is replaced or appended without touching the others, one entry per pid |
| `JobDomain.PendingIsUnsignaled` | tools/platform-probe/src/windows.rs:353-358 | nothing tracked is running exactly when every process ever named and opened is signaled |
| `JobRun.EmptyPollIsFinal` | tools/platform-probe/src/windows.rs:225-230 | if a poll found the union empty, no member of the domain runs then or after any later steps of the operating system |
| `JobRun.ReadingsKeepHandles` | tools/platform-probe/src/windows.rs:290-305 | over all readings a tracked handle stays with the process it was opened for and keeps its pid from being handed out |
| `JobRun.LeavingMemberIsTracked` | tools/platform-probe/src/windows.rs:225-230 | a member the job no longer counts but that still runs is tracked by a handle of its own after the reading |
| `JobRun.NoMemberEverRuns` | tools/platform-probe/src/windows.rs:225-230 | once no member runs, none ever does: only members start members |
| `JobRun.ReusedPidEscapesThePoll` | tools/platform-probe/src/windows.rs:296-305 | without handles that keep their pid, a concrete run whose poll is empty while a member runs |
| `Predecessor.EnterRule` | tools/platform-probe/src/predecessor.rs:61-148 | the whole acquire rule: an error exactly when the lock was never obtained; through an opened domain it proceeds exactly on the first empty poll, kills unless the first poll was empty, and then no member of the domain can run again; through the fallback exactly after the first two quiet snapshots in a row, and in neither is a living process listed with the pid (cut to 32 bits) and creation time of the record; otherwise it holds with the named reason |
| `Predecessor.CheckDomain` | tools/platform-probe/src/predecessor.rs:90-118 | open, query, and if not empty kill and wait: ends at the first empty poll after the kill or at the deadline |
| `Predecessor.WaitUntilEmpty` | tools/platform-probe/src/predecessor.rs:112-117 | polls until the first empty poll; at least one poll is made and only the deadline gives up |
| `Predecessor.FallbackWait` | tools/platform-probe/src/windows.rs:487-510 | empty exactly when the last two snapshots in a row had only dead chains, and the first such pair ends the wait; it reports the chain of the first snapshot |
| `Predecessor.CheckRound` | tools/platform-probe/src/windows.rs:492-503 | one snapshot is quiet exactly when nothing in its chain is alive |
| `Predecessor.LivingHolderIsNotQuiet` | tools/platform-probe/src/windows.rs:474-476 | no round that lists the living holder is quiet |
| `Predecessor.RecordedHolder` | tools/platform-probe/src/predecessor.rs:88 | the holder exists exactly when the record has both numbers, and the walks of the domain and of the fallback start from that pid, cut to 32 bits, and that creation time |
| `Predecessor.WaitForLock` | tools/platform-probe/src/util.rs:80-92 | a wait polls at least once and succeeds exactly when some poll did |
| `Predecessor.EmptyIsFinal` | tools/platform-probe/src/predecessor.rs:56-60 | the moment the rule proceeds through the domain is final: nothing of the old domain runs from then on |
| `StopRescan.DescendantsNative` | tools/platform-probe/src/unix.rs:596-608 | the scan ends although processes fork meanwhile; it finds only descendants, and every child that stays alive of whatever it finds; out of the table it finds exactly the closure of the rows; when nothing happens it finds exactly the closure of the child relation, on either platform |
| `StopRescan.NativeChildren` | tools/platform-probe/src/unix.rs:562-594 | the children listed now, or in the table read on the first call: true children only, and all that stay alive from the start of the scan |
| `StopRescan.ReadTable` | tools/platform-probe/src/unix.rs:573-592 | the table is read entry by entry while others fork and exit: every row is true, and every process that stays alive has one |
| `StopRescan.QuietScanIsExact` | tools/platform-probe/src/unix.rs:596-608 | when nothing happens during the scan, its result is exactly the transitive closure of the child relation, on Linux and on macOS |
| `StopRescan.QuietTableScanIsExact` | tools/platform-probe/src/unix.rs:573-608 | out of the table that holds also when processes have left the tree |
| `StopRescan.ListedIsLivingTree` | tools/platform-probe/src/unix.rs:596-608 | while nothing has left the tree, the closure is exactly what is alive below the root |
| `StopRescan.QuietScanFreezes` | tools/platform-probe/src/unix.rs:646-658 | a scan that finds nothing new has found every current descendant, all of them are stopped and none can fork, although others forked while its entries were read one after the other |
| `StopRescan.StopTree` | tools/platform-probe/src/unix.rs:638-658 | everything on the stop list is of the tree; when the loop ends quietly the list holds every living descendant and the tree is frozen; it gives up only after eleven scans that each found a process not yet on the list; and when no process is started during the call it ends quietly after at most two scans |
| `StopRescan.ScanFindsTree` | tools/platform-probe/src/unix.rs:596-658 | a scan during which no process is started finds everything of the tree that is alive at its end |
| `StopRescan.StopFresh` | tools/platform-probe/src/unix.rs:652-657 | every process on the stop list is stopped or dead, and the list grows by exactly the fresh ones |
| `StopRescan.KillPass` | tools/platform-probe/src/unix.rs:659-664 | everything on the stop list is dead after the pass, in any order, and of a frozen tree nothing is alive |
| `StopRescan.KillAll` | tools/platform-probe/src/unix.rs:638-664 | only processes of the tree are killed; after a quiet end neither the root nor any process it ever started, directly or not, is alive; it ends otherwise only after eleven scans that each found something new, and never when no process is started during the call |
| `StopRescan.RunKeepsFrozen` | tools/platform-probe/src/unix.rs:638-658 | a frozen tree stays frozen and gains no living process, whatever else runs |
| `StopRescan.ExtendedDescendants` | tools/platform-probe/src/unix.rs:596-608 | who descends from the root is settled when a process starts; later forks and exits do not change it |
| `LockLifetime.LockFreeOnlyWhenTreeIsDead` | tools/platform-probe/src/unix.rs:65-70 | with close-on-exec cleared, after any forks, execs, exits and kills the lock is free if and only if the holder and everything it forked, directly or not, is dead |
| `LockLifetime.ApplyKeepsTree` | tools/platform-probe/src/unix.rs:173-177 | every step keeps the descriptor with exactly the holder's tree |
| `LockLifetime.ClearedLockStarts` | tools/platform-probe/src/unix.rs:288-293 | the state after the holder took the lock and cleared close-on-exec is where these runs start |
| `LockLifetime.InheritanceIsNeeded` | tools/platform-probe/src/unix.rs:173-177 | with close-on-exec left on, or when a child closes the descriptor, a concrete run frees the lock while the child lives |
| `WorkerLane.TaskIdMap` | herdr-dashboard/src/pane_scan.rs:136-153 | every id a title names goes to the last pane naming it, and no other id is in the map |
| `WorkerLane.TaskOfIff` | herdr-dashboard/src/pane_scan.rs:89-105 | a pane names an id exactly when its title is a valid id outside the reserved names, alone or in front of the separator |
| `WorkerLane.ReusableWorkerPane` | herdr-dashboard/src/layout.rs:287-310 | a pane that is in the worker lane, not focused, not awaited and whose title names an item not running, the least such by id; none exactly when there is none |
| `WorkerLane.ReusesIdlePane` | herdr-dashboard/src/layout.rs:287-310 | over titles, tab names and statuses: a reused pane is listed in a tab titled as a worker tab, not focused, not awaited, and its title names an item that is not running; and any such pane yields an answer that is no greater |
| `WorkerLane.LeqIff` | herdr-dashboard/src/layout.rs:306-309 | the least id is the one that begins the other or is smaller where they first differ |
| `WorkerLane.App.RefreshPaneState` | herdr-dashboard/src/app.rs:845-938 | one scan: a pending pane is kept exactly when it is listed and its title does not name a running item; the auto-discover pane follows it; an admin pane is kept while listed; each task shows the last pane naming it |
| `WorkerLane.App.RetireSettledPendingPanes` | herdr-dashboard/src/app.rs:874-895 | the same for the pending worker panes, looked up through the map of task ids |
| `WorkerLane.SettlesByMap` | herdr-dashboard/src/app.rs:874-895 | looking a pane up in the map of task ids finds a running item exactly when the pane is the last one naming it |
| `WorkerLane.SettlesIff` | herdr-dashboard/src/app.rs:874-895 | a scan settles a pane exactly when it does not list it, or a title of it names a running item that no later pane's title names |
| `WorkerLane.App.LaunchWorker` | herdr-dashboard/src/main.rs:266-289 | the engine is asked first and an unreachable engine refuses nothing; the pane that comes back is pending from then on; a failed launch changes nothing |
| `WorkerLane.App.AutoLaunchDiscover` | herdr-dashboard/src/main.rs:522-532 | launches only when switched on, none is running or pending and a candidate is ready, and remembers the pane |
| `WorkerLane.App.AutoLaunchOperationPanes` | herdr-dashboard/src/main.rs:651-676 | each admin lane launches into its own fixed pane exactly when due and spawned |
| `WorkerLane.App.Tick` | herdr-dashboard/src/main.rs:483-544 | one poll tick is the run of its parts, in the loop's order, so the statements about runs hold of runs of ticks |
| `WorkerLane.TickIsRun` | herdr-dashboard/src/main.rs:483-544 | a tick is the run of the parts that take place: refresh, scan, settings, auto-discover, admin lanes |
| `WorkerLane.LaunchTakesFreePane` | herdr-dashboard/src/layout.rs:400-421 | a launch gives the free pane of its own scan with the least id, whose title then names an item not running; or splits one when none is free |
| `WorkerLane.LaunchesAreSeparated` | herdr-dashboard/src/app.rs:874-895 | over every run: between two launches into one pane a scan settled it, or the second launch split the pane anew |
| `WorkerLane.HeldIff` | herdr-dashboard/src/app.rs:874-895 | in every run a pane is held exactly when some launch into it has not been settled since |
| `WorkerLane.ReusedIff` | herdr-dashboard/src/layout.rs:287-310 | in every run a launch takes a pane again if and only if it is ready, its own scan shows the pane idle (by its title, its tab's title and the statuses), every earlier launch into it has been settled since, and no such pane has a lower id |
| `WorkerLane.NoSecondWorkerBeforeAScan` | herdr-dashboard/src/app.rs:874-895 | with splits that are new panes: between two launches into one pane a successful scan lacked the pane or showed it with the title of an item reported doing |
| `WorkerLane.StaleTitleLetsSecondWorkerIn` | herdr-dashboard/src/app.rs:864-873 | a concrete run in which a stale title settles a pane early, so two workers unconditionally in one pane cannot be excluded |
| `WorkerLane.TitledPaneSettlesIff` | herdr-dashboard/src/app.rs:864-892 | a pane listed once that still shows a title is settled if and only if the item that title names is running and no later pane names it |
| `WorkerLane.OldTitleSettlesIff` | herdr-dashboard/src/app.rs:864-892 | so in every run a reused pane that still shows its old title is settled exactly by the scans that find that old item running |
| `WorkerLane.DiscoverStaysPending` | herdr-dashboard/src/app.rs:897-912 | in every run the auto-discover pane is also a pending worker pane |
| `WorkerLane.DiscoverPaneIsNotReused` | herdr-dashboard/src/app.rs:897-912 | so no other launch reuses it |
| `WorkerLane.DiscoverLaunchesAreSeparated` | herdr-dashboard/src/main.rs:515-533 | two auto-discover launches are separated by a scan that settled the first one's pane |
| `WorkerLane.DiscoverHeldIff` | herdr-dashboard/src/app.rs:897-912 | in every run the auto-discover pane is p exactly when an auto-discover launch into p has not been settled since |
| `WorkerLane.DiscoverLaunchIff` | herdr-dashboard/src/main.rs:515-533 | an auto-discover launch happens exactly when it is switched on, no item in a discovery stage is running, none is awaited, an unblocked one is to be done, and a worker launch succeeds |
| `WorkerLane.AdminLaunchesAreSeparated` | herdr-dashboard/src/main.rs:615-676 | two launches of one admin lane are separated by a scan without the first one's pane |
| `WorkerLane.AdminHeldIff` | herdr-dashboard/src/app.rs:926-937 | in every run an admin lane holds pane p exactly when it was launched into p and every scan since listed it |
| `WorkerLane.AdminLaunchIff` | herdr-dashboard/src/main.rs:618-676 | each admin lane is launched into its own fixed pane exactly when the panes are known, the lane is switched on, nothing of it is awaited, some item waits with its status, and the command was spawned |
| `WorkerLane.WorkerLaneSkipsOperationTab` | herdr-dashboard/src/layout.rs:287-327 | no pane of the operation tab is reused by the worker lane and no worker is placed there |
| `PaneGrid.SplitKeepsTiling` | herdr-dashboard/src/layout.rs:354-377 | any split of any pane keeps the panes an exact tiling of the area, no cell twice |
| `PaneGrid.FirstFullHeight` | herdr-dashboard/src/layout.rs:371-375 | the first listed pane as high as the area, or none when there is none |
| `PaneGrid.NextSplitIff` | herdr-dashboard/src/layout.rs:354-377 | one pane is split to the right at the pane listed first, more are split downwards at the first listed pane as high as the tab, and nothing otherwise |
| `PaneGrid.NextSplitGrows` | herdr-dashboard/src/layout.rs:354-377 | for one, two and three panes listed in any order the code finds a pane that can be cut, and every cut gives the next stage towards the grid |
| `PaneGrid.HonestRunBuildsGrid` | herdr-dashboard/src/layout.rs:594-612 | from any stage of a tab of at least 2x2, whatever cuts and listing orders the terminal chooses, no round fails and the 2x2 grid is reached |
| `PaneGrid.GridTiles` | herdr-dashboard/src/layout.rs:345-377 | every stage is an exact disjoint tiling of the area |
| `PaneGrid.EnsureOperationTab` | herdr-dashboard/src/layout.rs:594-620 | for any answers of the terminal: at most one round per missing pane, every round before the end adds panes and splits the pane chosen from its own layout; success exactly when four panes are there, with their slots; otherwise the first failure of the last round |
| `PaneGrid.FailureIff` | herdr-dashboard/src/layout.rs:594-612 | the error is that of the first answer that failed, or that there was nothing to split or nothing new |
| `PaneGrid.FilledRunHasOneEnd` | herdr-dashboard/src/layout.rs:594-612 | a run that fills the tab has only that end |
| `PaneGrid.HonestRunSlots` | herdr-dashboard/src/layout.rs:540-620 | on such a run the slots are the corners of the grid: top left, top right, and the bottom row in the order of its upper edges |
| `PaneGrid.SlotsIgnoreListing` | herdr-dashboard/src/layout.rs:540-552 | on any tiled tab every order of the listing gives the same four different panes |
| `PaneGrid.SlotsAreFirst` | herdr-dashboard/src/layout.rs:540-552 | the four slots are the four first panes of the tab, row by row and each row from the left |
| `PaneGrid.GridSlots` | herdr-dashboard/src/layout.rs:540-552 | the third slot is the bottom left pane if and only if the left column is not cut lower than the right one |
| `PaneGrid.LowerLeftCutSwapsTheBottomRow` | herdr-dashboard/src/layout.rs:529-552 | cuts after which reading order puts the bottom right pane third |
| `PaneGrid.OrderKeepsPanes` | herdr-dashboard/src/layout.rs:544-545 | sorting keeps every pane |
| `PaneGrid.OrderIsOrdered` | herdr-dashboard/src/layout.rs:544-545 | no later pane lies higher, or as high and further left |
| `WorkerTabs.TitleRoundTrip` | herdr-dashboard/src/layout.rs:179-181 | the index read from a rendered title is the number rendered, for exactly the 32-bit numbers |
| `WorkerTabs.IndexIff` | herdr-dashboard/src/layout.rs:179-181 | a title gives an index exactly when it is the prefix, an optional plus sign, any zeros and the digits of that 32-bit number |
| `WorkerTabs.SortedWorkerTabs` | herdr-dashboard/src/layout.rs:216-223 | exactly the listed tabs with an index, sorted by it |
| `WorkerTabs.FirstWithRoom` | herdr-dashboard/src/layout.rs:250-255 | a listed worker tab with fewer than four panes, none exactly when all are full |
| `WorkerTabs.PlacesInWorkerTab` | herdr-dashboard/src/layout.rs:208-238 | a pane is placed only in a listed worker tab with room |
| `WorkerTabs.PlacedInRoomIff` | herdr-dashboard/src/layout.rs:216-255 | a pane goes exactly to the worker tab with room that has the least index, the one listed first among equal indexes |
| `WorkerTabs.CreatesNextIff` | herdr-dashboard/src/layout.rs:216-257 | a tab is created exactly when none has room, with the index after the largest there is, or with one |
| `WorkerTabs.RunKeepsNumbering` | herdr-dashboard/src/layout.rs:208-258 | in every run where only the dashboard opens panes and none closes, the worker tabs are numbered exactly 1..n, all but the last hold four panes and none holds more |
| `WorkerTabs.NoWorkerTabsStarts` | herdr-dashboard/src/layout.rs:208-223 | a workspace without worker tabs is where such runs start |
| `WorkerTabs.PlaceKeepsNumbering` | herdr-dashboard/src/layout.rs:208-258 | placing one pane keeps that, with the same or the next n |
| `WorkerTabs.NoRoomAddsNext` | herdr-dashboard/src/layout.rs:256-257 | without room the next tab is n + 1, until the 32-bit numbers end |
| `WorkerTabs.OperationTabHasNoIndex` | herdr-dashboard/src/layout.rs:179-181 | the operation tab is no worker tab |
| `WorkItemId.IdGrammar` | herdr-dashboard/src/pick.rs:61-88 | a valid id is exactly a word of `[a-z][a-z0-9]*(-[a-z0-9]+)*`, given as a regular expression with its own meaning |
| `WorkItemId.ExtractedIdLeadsLabel` | herdr-dashboard/src/pane_scan.rs:89-105 | a label gives an id exactly when the id is valid, outside the reserved namespace, and the whole label or what stands before the first separator |
| `WorkItemId.LeadingIsPrefix` | herdr-dashboard/src/pane_scan.rs:99-100 | the leading segment is the label or ends at a separator |
| `Decimal.ParseAfterRender` | herdr-dashboard/src/layout.rs:179-181 | a printed number is read back, below the limit of its type |
| `Decimal.ParseIff` | herdr-dashboard/src/layout.rs:179-181 | a text is read as a number exactly when it is an optional plus sign, any zeros and the digits of that number, below the limit |
| `Cockpit.RunKeepsConsistent` | herdr-dashboard/src/ui.rs:175-252 | in every reachable screen there is a cursor exactly when rows are on view and it is on one of them, likewise for the tasks in process, and the dialog and the filter are never both active |
| `Cockpit.App.VisibleWorkItems` | herdr-dashboard/src/app.rs:390-401 | the rows of the active tab that match the filter, in order |
| `Cockpit.FilteredIsShown` | herdr-dashboard/src/app.rs:390-401 | an item is on view exactly when it is in the tab and the filter is empty or occurs in its id or title, ignoring case |
| `Cockpit.FilteredInOrder` | herdr-dashboard/src/app.rs:390-401 | the rows stand in the order of the items |
| `Cockpit.App.Handle` | herdr-dashboard/src/main.rs:310-479 | what each event does to the screen and what it launches |
| `Cockpit.App.Take` | herdr-dashboard/src/ui.rs:175-252 | one round of the loop is one turn of the run, whatever the input, and keeps the screen consistent |
| `Cockpit.App.Run` | herdr-dashboard/src/main.rs:291-546 | the loop ends at the first turn that leaves, in the state the run theorem speaks of |
| `Cockpit.App.RefreshFromFgos` | herdr-dashboard/src/app.rs:708-800 | new rows and clamped cursors; a failed source leaves its rows alone |
| `Cockpit.UpUndoesDown` | herdr-dashboard/src/app.rs:403-423 | moving the cursor up undoes moving it down and the other way round, over the ends as well |
| `Cockpit.ClickedRowIsSelected` | herdr-dashboard/src/ui.rs:73-110 | a click on a row of either list puts the cursor on exactly that row and the focus on the list |
| `Cockpit.TypingIsQuery` | herdr-dashboard/src/app.rs:480-504 | what is typed is the query, a backspace takes the last character back, leaving the filter clears it, and the cursor goes to the first row then on view |
| `Cockpit.RefreshKeepsCursor` | herdr-dashboard/src/app.rs:708-800 | a poll tick keeps the cursor on its row, or moves it to the last one when there are fewer |
| `Cockpit.ActionIff` | herdr-dashboard/src/main.rs:310-479 | exactly when an event launches the item under the cursor, a discovery for it, focuses the pane under the cursor, or leaves |
| `Cockpit.LaunchesShownItem` | herdr-dashboard/src/main.rs:363-435 | a launch is for an item on view, from the open dialog, which it closes; a discovery launch is for an eligible item |
| `Cockpit.RunsLaunchShownItems` | herdr-dashboard/src/main.rs:363-435 | in every run, whatever a turn launches is on view in that turn's screen, with the dialog open on the work items and no filter being typed |
| `ArgvFlags.ParseArgs` | src/cli/parse-args.mjs:8-27 | the reading that the round trip is stated about: a flag takes the next argument unless that is a flag |
| `PatchArgs.PatchWork` | apps/fgos-gateway/src/gateway.rs:665-786 | the arguments built from a body, or its first error in table order |
| `PatchArgs.AcceptedIff` | apps/fgos-gateway/src/gateway.rs:665-786 | a body is accepted exactly when the id has no leading dash, the retired field is absent and every recognised field that is sent is a text, a list of texts without commas, a number, or any JSON, as its kind asks, no text with a dash in front |
| `PatchArgs.FirstErrorIs` | apps/fgos-gateway/src/gateway.rs:684-781 | the error is that of the first field of the table that is not accepted |
| `PatchArgs.FieldErrorSays` | apps/fgos-gateway/src/gateway.rs:711-779 | what the error of a field says is true of its value, with the field's own key |
| `PatchArgs.TablesAgree` | src/verbs/state/edit.mjs:94-175 | the gateway's table and the engine's, written down apart, fit together: each flag that is sent is one the engine reads as that kind and stores under that key, and no two flags set one key |
| `PatchArgs.EncodeFields` | apps/fgos-gateway/src/gateway.rs:684-781 | the pairs of a whole table, in order |
| `PatchArgs.EncodeList` | apps/fgos-gateway/src/gateway.rs:735-754 | a list as one comma-separated text, or the first bad element |
| `PatchArgs.ListErrorIff` | apps/fgos-gateway/src/gateway.rs:739-752 | a list is accepted exactly when every element is a string without leading dash or comma |
| `PatchArgs.TextIsNoFlag` | apps/fgos-gateway/src/gateway.rs:570-577 | no argument text starts with two dashes, if the library's texts of the values that are sent do not |
| `PatchArgs.ArgsHoldEachFlagOnce` | apps/fgos-gateway/src/gateway.rs:684-783 | each flag occurs at most once |
| `PatchArgs.ArgsReadBack` | src/cli/parse-args.mjs:8-27 | reading the arguments of any accepted body gives the verb, the id and exactly the flags of the recognised fields that were sent, each with its text |
| `PatchArgs.ListComesBack` | src/verbs/state/edit.mjs:8-14 | splitting at commas gives back every non-empty list; the engine's reading gives back a list if and only if no element is empty or padded |
| `PatchArgs.TrimCuts` | src/verbs/state/edit.mjs:8-14 | trimming cuts spaces off both ends and all of them |
| `PatchArgs.TrimAllEach` | src/verbs/state/edit.mjs:8-14 | each part of a list is trimmed in its place and stays unless it is empty |
| `PatchArgs.AllKeptIff` | src/verbs/state/edit.mjs:8-14 | a list is kept exactly when each element is |
| `PatchArgs.FieldComesBack` | src/verbs/state/edit.mjs:94-175 | for every accepted value the engine patches what was sent if and only if: not empty for the four fields where empty clears or is refused, no list element empty or padded, every number in JSON text held by a double, an integer for priority and intent, not negative for impact and effort |
| `PatchArgs.FieldComesBackChanged` | src/verbs/state/edit.mjs:94-175 | what the engine makes of the others: cleared, refused, trimmed part by part, or rounded to doubles |
| `PatchArgs.EmptyTexts` | src/verbs/state/edit.mjs:115-141 | an empty parent becomes null, an empty path is refused |
| `PatchArgs.RefusedNumbers` | src/verbs/state/edit.mjs:142-175 | a priority of 3/2 and an impact of -1 are accepted by the gateway and refused by the engine |
| `PatchArgs.NestedNumberIsRounded` | src/verbs/state/edit.mjs:16-26 | 2^53 + 1 inside a JSON field comes back as another number |
| `PatchArgs.ParseEditFlags` | src/verbs/state/edit.mjs:94-198 | all flags are read into one patch; one error, the retired flag or an empty patch refuses the whole edit |
| `PatchArgs.EditRefusedIff` | src/verbs/state/edit.mjs:94-198 | an accepted body is refused by the engine if and only if it has no recognised field or sends an empty docsRef or goalTier, a priority or intent whose double is no integer, or an impact or effort whose double is negative |
| `PatchArgs.OneRefusedFieldStopsAll` | src/verbs/state/edit.mjs:28-34 | a good title beside an empty docsRef is accepted by the gateway, and nothing is patched |
| `PatchArgs.FieldArrivesIff` | src/verbs/state/edit.mjs:94-198 | from the request to the engine: a recognised field of an accepted body arrives as it was sent, or stays out of the patch when it was not, if and only if its value survives, something recognised was sent, and no sent value is refused |
| `PatchArgs.BodyArrivesIff` | src/verbs/state/edit.mjs:94-198 | the engine's patch is exactly the recognised fields of the body, each under its own key, if and only if there is one and every value that was sent survives |
| `JsonLibrary.RoundedIsSame` | src/verbs/state/edit.mjs:16-26 | a JSON value is unchanged by reading its numbers as doubles if and only if doubles hold all its numbers |
| `JsonLibrary.SoundLibraryExists` | apps/fgos-gateway/src/gateway.rs:757-781 | the assumptions about the libraries can be met, all at once |
| `ConfigArgs.ProjectConfigRequest` | apps/fgos/src/cli_projector.rs:131-275 | the request or the first error of the arguments |
| `ConfigArgs.AcceptsOnlyConsistent` | apps/fgos/src/cli_projector.rs:212-275 | whatever the arguments, an accepted migration obeys the rules on finish, convert, machine-checked, accept-overrides and global, and no argument reads as an option |
| `ConfigArgs.ParseAfterRender` | packages/config/rust/src/provider.rs:107-155 | reading the canonical arguments of a request gives it back, for every verb |
| `ConfigArgs.RequestsIff` | apps/fgos/src/cli_projector.rs:131-275 | the requests the parser can give are exactly the consistent ones whose arguments do not read as options |
| `ConfigArgs.AcceptedIff` | apps/fgos/src/cli_projector.rs:185-275 | the accepted argument lists are exactly the lists of fitting token groups, and the request is built from what the groups say |
| `ConfigArgs.FlagsIff` | apps/fgos/src/cli_projector.rs:150-177 | a verb takes a switch, or a value besides `--dir`, exactly when some request of it depends on that |
| `ConfigArgs.BuildIff` | apps/fgos/src/cli_projector.rs:212-275 | a request is built from the options exactly when they have its arguments, turn on its switches and no others, and hold its path or reason |
| `ConfigArgs.BuildErrorSays` | apps/fgos/src/cli_projector.rs:212-263 | what the error of options that build nothing says is true of them |
| `ConfigArgs.LastValueCounts` | apps/fgos/src/cli_projector.rs:203-207 | of several values of a flag the last one counts |
| `ConfigArgs.SwitchCounts` | apps/fgos/src/cli_projector.rs:201-202 | a switch is on exactly when it is given somewhere |
| `ConfigArgs.UnknownOptionIff` | apps/fgos/src/cli_projector.rs:208-210 | an option is refused exactly when it comes after token groups and the verb does not take it, with or without a value |
| `ConfigArgs.InlineMeansTheSame` | apps/fgos/src/cli_projector.rs:193-207 | `--flag value` and `--flag=value` agree for every value-taking flag, after tokens that do not wait for a value |
| `ConfigArgs.InlineIff` | apps/fgos/src/cli_projector.rs:193-207 | the two forms agree for every value and whatever follows if and only if the tokens before are not groups followed by a value-taking flag without its value |
| `ConfigArgs.MissingValueIff` | apps/fgos/src/cli_projector.rs:203-207 | a value is reported missing exactly for such tokens |
| `ConfigArgs.ExtrasChangeNothing` | apps/fgos/src/cli_projector.rs:188-211 | `--json` and `--dir` groups change nothing after tokens that do not wait for a value |
| `ConfigArgs.TrailingJsonIff` | apps/fgos/src/cli_projector.rs:188-211 | a trailing `--json` leaves the outcome of the whole arguments as it is if and only if there is a verb before it and the tokens are not groups followed by a value-taking flag without its value |
| `ConfigArgs.WaitingFlagSwallows` | apps/fgos/src/cli_projector.rs:203-207 | after such tokens a plain value makes the two forms differ |
| `ConfigArgs.GroupIsRead` | apps/fgos/src/cli_projector.rs:188-211 | each kind of token group is read as what it says, whatever follows |
| `IdentityArgs.ProjectIdentityRequest` | apps/fgos/src/cli_projector.rs:284-579 | the request or the first error of the arguments |
| `IdentityArgs.AcceptsOnlyConsistent` | apps/fgos/src/cli_projector.rs:284-579 | whatever the arguments, an accepted request is consistent: values are filled, numbers in range, a taken role is named, a directory or pid only where the verb can have one |
| `IdentityArgs.ParseAfterRender` | packages/identity/rust/src/provider.rs:92-165 | reading the canonical arguments of a request gives it back, for every verb |
| `IdentityArgs.RequestsIff` | apps/fgos/src/cli_projector.rs:284-579 | the requests the parser can give are exactly the consistent ones |
| `IdentityArgs.OptionsIff` | apps/fgos/src/cli_projector.rs:394-525 | the option tokens that are read are exactly the lists of groups that fit the verb and whose values are accepted |
| `IdentityArgs.AcceptedIff` | apps/fgos/src/cli_projector.rs:284-579 | arguments are accepted as a request exactly when they have a verb, with its argument if it needs one, and then spell groups from which that request is built |
| `IdentityArgs.AllowedIff` | apps/fgos/src/cli_projector.rs:285-346 | a verb takes a flag besides `--dir` exactly when some request of it holds what the flag says |
| `IdentityArgs.BuildIff` | apps/fgos/src/cli_projector.rs:526-579 | a verb is built from the options exactly when they say what it holds and nothing against it |
| `IdentityArgs.BuildErrorSays` | apps/fgos/src/cli_projector.rs:526-579 | what the error of options that build nothing says is true of them |
| `IdentityArgs.ValueAcceptedIff` | apps/fgos/src/cli_projector.rs:446-524 | a pid or release is accepted exactly as a positive number below 2^32 or 2^64 in digits, a text when it is not empty, and `--dir` always |
| `IdentityArgs.LastTextCounts` | apps/fgos/src/cli_projector.rs:446-524 | of several values of a flag the last one counts, where a switch given a value gives it to the directory |
| `IdentityArgs.LastNumberCounts` | apps/fgos/src/cli_projector.rs:448-472 | a number replaces the one before it |
| `IdentityArgs.InlineMeansTheSame` | apps/fgos/src/cli_projector.rs:426-444 | `--flag value` and `--flag=value` agree for every value-taking flag, after tokens that do not wait for a value |
| `IdentityArgs.InlineIff` | apps/fgos/src/cli_projector.rs:426-444 | the two forms agree for every value and whatever follows if and only if the tokens before are not groups followed by a value-taking flag without its value |
| `IdentityArgs.ExtrasChangeNothing` | apps/fgos/src/cli_projector.rs:394-446 | `--json` and `--dir` groups change nothing after tokens that do not wait for a value |
| `IdentityArgs.TrailingJsonIff` | apps/fgos/src/cli_projector.rs:394-446 | a trailing `--json` leaves the outcome of the whole arguments as it is if and only if they do not end in a value-taking flag without its value |
| `IdentityArgs.MissingValueIff` | apps/fgos/src/cli_projector.rs:434-444 | a value is reported missing exactly for such arguments |
| `IdentityArgs.SwitchWithValueIsDirectory` | apps/fgos/src/cli_projector.rs:400-444 | a switch given with a value is taken for the directory, and a second mint switch is then not refused |
| `IdentityArgs.BareIsWriter` | apps/fgos/src/cli_projector.rs:285-294 | the bare verb and the named writer read the same options |
| `JwksCache.Verifier.Check` | apps/fgos-gateway/src/cf_access.rs:171-178 | the first locked section is the begin of a call in the interleaving: a fresh cache answers, otherwise the call goes to fetch |
| `JwksCache.Verifier.Install` | apps/fgos-gateway/src/cf_access.rs:180-190 | the second locked section is its end: the fetched keys replace the cache and answer the call, a failed fetch leaves it |
| `JwksCache.Parse` | apps/fgos-gateway/src/cf_access.rs:180-185 | the keys of an answer, entry by entry |
| `JwksCache.KeysAreLast` | apps/fgos-gateway/src/cf_access.rs:180-185 | the keys of an answer are the last usable one of each kid |
| `JwksCache.KeysAreFreshOrOwn` | apps/fgos-gateway/src/cf_access.rs:166-190 | under any interleaving a returned key was fetched by the call itself or comes from the latest install, less than the TTL old at the check |
| `JwksCache.BeginToldIff` | apps/fgos-gateway/src/cf_access.rs:171-178 | in every run a call that begins is answered at once if and only if the latest install is less than 3600 seconds old, and then with the last usable key of its kid in that install, or that there is none |
| `JwksCache.FinishToldIff` | apps/fgos-gateway/src/cf_access.rs:180-190 | a call that comes back is told exactly that its fetch failed, or the last usable key of its own kid in what it fetched, or that there is none |
| `JwksCache.FetchingIff` | apps/fgos-gateway/src/cf_access.rs:170-190 | a call fetches exactly from a beginning that was told nothing until it finishes |
| `JwksCache.OnlyEarlierCallsFetch` | apps/fgos-gateway/src/cf_access.rs:170-190 | after an install, until the TTL passes, every fetch that comes back belongs to a call that had checked before it |
| `JwksCache.OnlyEarlierCallsAreFetching` | apps/fgos-gateway/src/cf_access.rs:170-190 | in that time every call that is fetching, whenever its fetch ends, began before the install |
| `JwksCache.NoFetchBegins` | apps/fgos-gateway/src/cf_access.rs:166-178 | and no call begins to fetch: each is answered from the cache, also about a kid it lacks |
| `JwksCache.InstallsSpan` | apps/fgos-gateway/src/cf_access.rs:170-190 | for sequential calls n installs span at least n - 1 TTLs |
| `JwksCache.InstallsAreApart` | apps/fgos-gateway/src/cf_access.rs:170-190 | two installs of sequential calls are at least the TTL apart |

## Left out

- Predecessor.EnterRule: the watched pids, their diagnostics and all time measurements are not modelled; deadlines are the ends of the input sequences, and every sequence has at least the polls the code always makes.
- Predecessor.FallbackWait: nothing is claimed about descendants whose parent has left the snapshot, because the chain does not hold them.
- Proceeding when the job cannot be opened and no fallback applies: stated as it is (nothing is checked), not as safe.
- JobDomain.Dom: processes named in one reading are entered in an arbitrary order instead of by pid; no statement depends on it. The fixed buffer of 1023 list entries and closing the handles are not modelled.
- StopRescan.StopTree: when the loop gives up after eleven rounds only its stop list is known to be dead; nothing is claimed about processes handed to another parent.
- StopRescan.NativeChildren: the buffer of 4096 children on macOS and unreadable `/proc` entries are not modelled.
- LockLifetime.LockFreeOnlyWhenTreeIsDead: the git child is one of the forked processes; its repository work is not modelled.
- WorkerLane.App.RefreshPaneState: if one scan lists a pane under two ids, the source takes whichever its hash order offers first; the model settles the pane if either item is running.
- WorkerLane.App.LaunchWorker: error texts, status lines and the typed shell command are not modelled; how a split finds its tab and pane is in `WorkerTabs` and `PaneGrid`, and its answer is an input here.
- WorkerTabs.RunKeepsNumbering: panes opened or closed by a person are outside these runs; the next index after 4294967295 overflows in the source and is an outcome of its own in the model.
- PaneGrid: widths and heights are natural numbers, not 32-bit ones; finding or creating the operation tab itself is an input.
- Cockpit: scroll offsets, status and error lines, the order of rows by priority, and coordinates near the end of the 16-bit range are not modelled; the drawn rectangles are inputs.
- PatchArgs.ParseEditFlags: the flags verify-from-children and verify-from-targets, which a patch request never sends, and the role of the editor are not modelled.
- PatchArgs.FieldComesBack: the checks of the store behind the flag reader (enumerations such as urgent, shapes of acceptance clauses) are not modelled, and negative zero is the same number as zero.
- PatchArgs: the free-text fields of other routes are unguarded on purpose and carry no statement.
- ConfigArgs.ProjectConfigRequest: arguments are text; the replacement of bytes that are not text, and the value of `--dir`, which another part reads, are not modelled.
- IdentityArgs.ProjectIdentityRequest: the same, and error texts are names of their cases.
- JwksCache: signature and claim checks (section 4.1 of RFC 7519), the token header and the HTTP request are not modelled; an instant that precedes an install reads as no time elapsed.
- The event store, the providers behind the parsers, rendering, HTTP routing, the web client and the python scripts: the subject here is the decisions listed above; these parts carry their results on without deciding any of them.
