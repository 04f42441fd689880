# Verified model of the desktop shell's state machines and algorithms

The shell keeps several pieces of state that must stay right under any order of events: the configuration cache
and its palette jobs, the launchpad's folders, the mirrors of four compositors' windows and workspaces, the worker
pool and its deferred calls. It also has algorithms whose results carry promises: the wallpaper resampler and the
dashboard's row packing. This project models them in Dafny and proves those promises.

Code that changes things step by step is a class or a method with loops, proved against functions of the old state;
the promises are lemmas about those functions, over every input and every run. `dafny verify dfyconfig.toml` checks
the project.

- `ConfigCache` (the globals and their operations), `ConfigLaws` (each operation field by field), `ConfigSteps`,
  `ConfigRuns`, `ConfigGuards` and `ConfigPalettes` (interleavings): the two caches, the generation counter and the jobs,
  as a state machine whose writes are split into the bump outside the lock and the section under it. A configuration is
  the user's settings and a palette; the generator is any function that changes only the palette and, when it runs, puts
  the scheme and mode names in their normal spelling, for any rule of spelling; `SchemeNames` has the code's. `TomlMerge`
  is the table merge under it.
- `LaunchpadFolders` (rebuild and placement), `LaunchpadOrder` (the rebuilt grid said outright), `LaunchpadEdits` (edits
  of the overrides), `LaunchpadHomes` (what an edit does to each app), `Launchpad` (runs of gestures),
  `LaunchpadGestures` (what each gesture leaves), `LaunchpadListings` (no app in two folders), `LaunchpadHost` (the
  host's methods), `LaunchpadStore` (save and load), `LaunchpadRestart` (folders, titles and order after a load).
- `NiriWindows`, `NiriTitles`, `NiriSync`, `NiriClaims`, `SwayStream`, `SwayTree`, `SwayRecords`, `ExtWorkspace`,
  `ExtLaws`, `WindowTracker`, `TrackerLaws`, `WindowIds`, `LineReaders`: the compositor backends.
- `Resampler`, `ResamplerMean`, `DashboardLayout`, `DashboardLaws`, `ThreadPool`: the algorithms and the pool.
  `Sorting`, `Desks` and `Wrappers` are shared.

Where the code falls short of what one would expect, one lemma gives a concrete input or run and another says exactly
when the property holds:

- A palette job that commits as current can overwrite settings after a preview is cleared, with two mutators, or when
  a file edit is followed only by a trigger's bump (`ClearingAPreviewIsNotCovered`, `TwoMutatorsAreNotCovered`,
  `ABumpAloneIsNotEnough`; exactly when: `GuardIsExact`, and `BrokenGuardOverwrites` for every other case).
- A superseded job recolours the second cache although that one shows another wallpaper (`ColorsReachAnotherWallpaper`;
  exactly when: `AdoptStaysOnItsWallpaperExactlyWhen`).
- Merging overlays with one another first can bring back what one of them replaced (`MergingOverlaysFirstDiffers`;
  exactly when: `MergingOverlaysFirstAgreesExactlyWhen`).
- A scheme name with the prefix `m3-` becomes the first scheme, since four characters are compared with three
  (`AVibrantNameIsLost`; exactly when that matters: `PrefixIsHarmlessExactlyWhen`).
- An app added to a bucket folder cannot be dragged out of it (`AnAddedAppCannotBeDraggedOut`; exactly when:
  `DragOutFreesExactlyWhen`, and over runs `EveryRunDragsOut`).
- Manual folder ids do not survive a restart (`ARestartRenumbers`; exactly when: `ReloadKeepsIdExactlyWhen`), and so
  neither do titles and the displayed order, which refer to them (`ARestartReshuffles`; exactly when:
  `TitleSurvivesExactlyWhen`, `OrderSurvivesExactlyWhen`).
- A sway change is not announced when the buffer ends in a header without its payload (`AChangeCanGoUntold`; exactly
  when: `ToldExactlyWhen`), and not made up for later (`AChangeStaysUntold`; exactly when: `BehindExactlyWhen`).
- Niri's reset leaves occupancy behind (`ResetLeavesACount`; exactly when, over runs: `AgreesExactlyWhen`).
- A jump by desk prefers a weak match in an earlier group to the desk itself in a later one (`AWeakMatchWins`; exactly
  when: `ExactDeskExactlyWhen`).
- The finished event of the workspace manager leaves live handles undestroyed (`TheFinishedEventLeaks`; exactly when:
  `TeardownDestroysExactlyWhen`).
- The window tracker's destructor leaves pending requests undestroyed (`AnUnansweredRequestIsLeft`; exactly which:
  `TeardownLeavesExactlyThePending`).
- The window tracker's maps are not inverse once two handles get one address (`OneAddressTwiceLosesAHandle`; exactly
  when: `PairedExactlyWhenDistinct`).
- The dashboard's panel is wider than a surface under 80 with no fitting limit (`ANarrowSurface`; exactly when:
  `PanelInsideExactlyWhen`).
- The dashboard's cards can leave the panel when a 40-pixel floor is in force (`CardsLeaveThePanel`); they do exactly
  when the columns of some row are wider than the panel inside its padding (`CardsFitExactlyWhen`).

## Model

| member | source | states |
|---|---|---|
| ConfigRuns.CurrentCommitChangesOnlyThePalette | src/configuration/shell_config.cpp:1091-1137 | In every run of one disciplined mutator beside any number of palette jobs, a job that commits while its generation is current replaces the palette of the live configuration (or of the one a snapshot would copy), leaves every setting as it is, scheme and mode included, or puts scheme and mode in their normal spelling and nothing else, and leaves both caches equal |
| ConfigSteps.GuardIsExact | src/configuration/shell_config.cpp:2210-2542 | For any number of mutators and any interleaving: a step keeps "every current job was built from the settings each present cache holds, up to the spelling of scheme and mode" if and only if it finds its guard (for a write: the current jobs already have the settings it writes; for a partial load: the other cache is what the files say; for clearing a preview: the merged settings are those of the other cache and of the current jobs) |
| ConfigRuns.DisciplineKeepsSound | src/configuration/shell_config.cpp:2210-2542 | A mutator that finishes each write before its next step, replaces the caches after a file edit before it loads only one of them, and clears no shown preview keeps the whole invariant: agreement, job numbering, a lone cache equal to the files, no current job between a bump and its write |
| ConfigRuns.DisciplinedRunsStaySound | src/configuration/shell_config.cpp:1091-1137 | The same over every run, with jobs and file edits interleaved anywhere |
| ConfigRuns.ClearingAPreviewIsNotCovered | src/configuration/shell_config.cpp:2535-2542 | A concrete run in which clearing a drag preview edits the cache with no bump and the current job then overwrites those settings |
| ConfigRuns.TwoMutatorsAreNotCovered | src/configuration/shell_config.cpp:2502-2510 | A concrete run in which a second mutator triggers a job between the first one's bump and its write, and the current job overwrites the newly loaded settings with the old ones |
| ConfigRuns.ABumpAloneIsNotEnough | src/configuration/shell_config.cpp:2512-2521 | A concrete run with one mutator and no preview clear in which a file edit is followed by a bump (a trigger) before the next load, and the current job still overwrites settings |
| ConfigGuards.GuardedCommitsKeepChoices | src/configuration/shell_config.cpp:1091-1137 | In every run of any number of mutators whose steps find their guards, a current commit changes no choice in either cache, only palettes and the spelling of scheme and mode |
| ConfigGuards.DisciplinedIsGuarded | src/configuration/shell_config.cpp:2210-2542 | Every run of the one disciplined mutator is such a guarded run |
| ConfigGuards.DisagreementOverwrites | src/configuration/shell_config.cpp:1091-1137 | From every state without agreement some continuation of at most a file edit or a trigger, and a job's own steps, ends in a current commit that gives a reader settings other than a snapshot would have |
| ConfigGuards.BrokenGuardOverwrites | src/configuration/shell_config.cpp:2210-2542 | So every step that does not find its guard lets a job overwrite settings |
| SchemeNames.NormalTwice | src/desktop_shell/common/palette/matugen_palette.cpp:44-79 | The normal spelling of a scheme or mode is its own normal spelling |
| SchemeNames.RespelledNames | src/desktop_shell/common/palette/matugen_palette.cpp:390-391 | Respelling a name of the configuration cache gives the name that the code's normal spelling is |
| SchemeNames.PrefixedNamesAreLost | src/desktop_shell/common/palette/matugen_palette.cpp:44-68 | Through the branch that compares four characters with `m3-`: a name with that prefix becomes the first scheme, whatever follows |
| SchemeNames.PrefixIsHarmlessExactlyWhen | src/desktop_shell/common/palette/matugen_palette.cpp:52 | For any name, the same name with the prefix has the same normal spelling if and only if that is the first scheme |
| SchemeNames.AVibrantNameIsLost | src/desktop_shell/common/palette/matugen_palette.cpp:52 | `vibrant` becomes `scheme-vibrant` and `m3-vibrant` becomes `scheme-content` |
| ConfigPalettes.SupersededForever | src/configuration/shell_config.cpp:1108-1123 | Once the counter has passed a job, in every continuation and any interleaving none of its steps changes a setting of either cache, and it recolours neither unless the live cache shows the wallpaper the job was made for |
| ConfigPalettes.AdoptStaysOnItsWallpaperExactlyWhen | src/configuration/shell_config.cpp:1116-1121 | A superseded job recolours only caches that show its wallpaper if and only if the second cache is absent, or shows that wallpaper, or adoption does not apply, or the second cache already has those colours |
| ConfigPalettes.DisciplinedAdoptStays | src/configuration/shell_config.cpp:1108-1123 | In no run of a disciplined mutator do adopted colours reach a cache that shows another wallpaper |
| ConfigPalettes.ColorsReachAnotherWallpaper | src/configuration/shell_config.cpp:1116-1121 | A concrete run in which a superseded job puts the colours of one wallpaper into the second cache, which shows another |
| ConfigPalettes.GoodPaletteIsLostExactlyWhen | src/configuration/shell_config.cpp:2210-2455 | The exact set of steps after which a good palette in the live cache is gone |
| ConfigPalettes.GoodPaletteSurvives | src/configuration/shell_config.cpp:2219-2393 | Through any run of light invalidations, in-memory applies, loads, triggers and superseded jobs the cache keeps a good palette: the first one, or the last one lent by a superseded job for the same wallpaper |
| ConfigCache.Globals.InvalidateLight | src/configuration/shell_config.cpp:2219-2300 | The bump and the locked write as one transition; good colours of the old cache are carried over |
| ConfigCache.Globals.ApplyFromMemory | src/configuration/shell_config.cpp:2302-2393 | The bump, the write with inherited colours, and one or two regenerations for the palettes that could not be inherited |
| ConfigCache.Globals.ReloadFromDiskNow | src/configuration/shell_config.cpp:2395-2414 | The reload and, when palettes were skipped and wanted, the job it queues under the current number |
| ConfigCache.Globals.Snapshot | src/configuration/shell_config.cpp:2457-2483 | All three branches, and what the caller sees while a preview is shown |
| ConfigCache.Globals.RestoreMatugenPalette | src/configuration/shell_config.cpp:2416-2455 | Colours put into the live cache, built from the other cache when missing |
| ConfigCache.Globals.ClearSettingsDragPreview | src/configuration/shell_config.cpp:2535-2542 | The preview's draggable fields, appearance and palette included, merged into the live cache |
| ConfigCache.Globals.CommitIfCurrent | src/configuration/shell_config.cpp:1126-1133 | The second look at the counter under the lock: both caches become the job's configuration, or nothing changes |
| ConfigCache.Globals.AdoptSuperseded | src/configuration/shell_config.cpp:1108-1123 | The good colours of a superseded job go into both caches when the live one shows its wallpaper |
| ConfigCache.Globals.AsyncMatugenUpdate | src/configuration/shell_config.cpp:1091-1137 | A job that nothing interrupts: commit when current, adoption of good colours when superseded, with scheme and mode respelled when the generator ran |
| ConfigLaws.SnapSaid | src/configuration/shell_config.cpp:2457-2483 | A snapshot fills an absent cache from the second one, else both from the files, and raises the counter and queues a job for that cache unless it found a second cache that wants no palette |
| ConfigLaws.PaletteIsComingAfter | src/configuration/shell_config.cpp:2395-2483 | A themed live cache filled by a snapshot or by a reload that skips palettes has a current job of its own right afterwards |
| ConfigLaws.ReloadSaid | src/configuration/shell_config.cpp:2395-2414 | A reload reads the files into the live cache, drops the second, and queues a job under its own number exactly when it skipped a palette that is wanted |
| ConfigLaws.LightSaid | src/configuration/shell_config.cpp:2219-2300 | A light invalidation leaves both caches equal, with the files' settings and, for each engine, the old colours if they were good, else the loaded ones |
| ConfigLaws.ApplySaid | src/configuration/shell_config.cpp:2302-2393 | So does an apply, with the settings applied |
| ConfigLaws.ApplyAsksForTheMissing | src/configuration/shell_config.cpp:2302-2393 | An apply queues one job for each palette that is wanted and could not be lent, under numbers of their own, for the configuration it put into the caches |
| ConfigLaws.RestoreSaid | src/configuration/shell_config.cpp:2416-2455 | A restore puts exactly the given colours into the live cache, made from the second one if need be, and changes nothing else |
| ConfigLaws.TriggerSaid | src/configuration/shell_config.cpp:2502-2510 | A trigger raises the counter and queues a job for the second cache, and without one does nothing |
| ConfigLaws.ClearPreviewSaid | src/configuration/shell_config.cpp:2535-2542 | Clearing a shown preview takes palette and all draggable settings from it and leaves the rest |
| ConfigLaws.JobSaid | src/configuration/shell_config.cpp:1091-1107 | A job makes its palette for the configuration it was queued with, respelling or leaving its names, and its first look at the counter decides between commit and adoption |
| ConfigLaws.CommitSaid | src/configuration/shell_config.cpp:1126-1133 | Both caches become the job's configuration if the counter still has its number, and stay else |
| ConfigLaws.AdoptSaid | src/configuration/shell_config.cpp:1108-1123 | For each engine the job's colours win if they are good, in both caches, and only if the live one shows its wallpaper |
| TomlMerge.DeepMerge | src/configuration/shell_config.cpp:143-156 | The in-place recursive merge computes the specified table |
| TomlMerge.MergeAtPath | src/configuration/shell_config.cpp:143-156 | What is at any path of a merge: the overlay's leaf or table there, else nothing if the overlay has a leaf above, else the base's |
| TomlMerge.MergeTwice | src/configuration/shell_config.cpp:143-156 | Merging the same overlay twice equals merging it once |
| TomlMerge.LastSpeakerWins | src/configuration/shell_config.cpp:1000-1027 | Over a stack of overlays the last one that says anything about a path decides it |
| TomlMerge.MergingOverlaysFirstAgreesExactlyWhen | src/configuration/shell_config.cpp:143-156 | Merging the overlays with one another first gives the same table if and only if at no path does the base have something about which the last overlay says nothing, below a leaf of the middle one where the last has a table |
| TomlMerge.MergingOverlaysFirstDiffers | src/configuration/shell_config.cpp:143-156 | Concrete tables on which the two groupings differ |
| LaunchpadFolders.EveryAppIsPlacedOnce | src/desktop_shell/Overview/overview_host.cpp:2066-2203 | For every catalog with distinct paths and every overrides whose listed apps are removed, the rebuild shows every folder and loose app once, each folder lists its members once, and every app is in exactly the place an independent rule assigns it |
| LaunchpadFolders.BuiltIsDone | src/desktop_shell/Overview/overview_host.cpp:2096-2154 | After each slot (buckets, then manual folders) the folders so far hold exactly the apps of their slots and the grouped flags mark exactly those |
| LaunchpadOrder.AppsAreWhereTheyBelong | src/desktop_shell/Overview/overview_host.cpp:2066-2160 | The rebuilt folders hold an app exactly where overrides and catalog put it: its bucket unless that is the last one or has neither another app nor an addition; for a moved app the first bucket it was added to, else the first manual folder that lists it |
| LaunchpadOrder.SearchShowsHitsInOrder | src/desktop_shell/Overview/overview_host.cpp:2190-2196 | A search shows its hits as cells, one after the other, in the order in which they came, and no folder |
| LaunchpadOrder.GridInPlainOrder | src/desktop_shell/Overview/overview_host.cpp:2129-2157 | Without a saved order folders stand before loose apps, and both as they were made and as the catalog lists them |
| LaunchpadOrder.SavedItemsInSavedOrder | src/desktop_shell/Overview/overview_host.cpp:2158-2188 | Of two items with saved positions the one whose last position is earlier stands first |
| LaunchpadOrder.FoldersInOrder | src/desktop_shell/Overview/overview_host.cpp:2094-2150 | Folders come by bucket number and then as the user's list has them |
| LaunchpadOrder.FolderMembersInOrder | src/desktop_shell/Overview/overview_host.cpp:2094-2150 | A bucket's folder lists its own apps as the catalog does and then the added ones as they were added; a manual folder lists its apps as its list does |
| LaunchpadHost.Host.RebuildGridItems | src/desktop_shell/Overview/overview_host.cpp:2066-2203 | The loops, with the stable sort by saved order and the clipped open folder, compute the specified rebuild |
| LaunchpadEdits.MovedKept | src/desktop_shell/Overview/overview_host.cpp:2367-2409 | Moving any app into any folder, early return included, keeps every added and manual member removed, addition lists free of repeats and folder numbers distinct |
| LaunchpadEdits.TakenOutKept | src/desktop_shell/Overview/overview_host.cpp:2411-2432 | So does dragging out |
| LaunchpadEdits.CreatedKept | src/desktop_shell/Overview/overview_host.cpp:2339-2365 | So does creating a folder, under a number not in use |
| LaunchpadEdits.EditsLeaveNoneEmpty | src/desktop_shell/Overview/overview_host.cpp:2339-2432 | Every edit that rebuilds the grid leaves no empty manual folder |
| Launchpad.EveryRunKeepsInv | src/desktop_shell/Overview/overview_host.cpp:2018-2064 | Over every run of drops, reorders, drag-outs, opened folders and refreshes the grid on screen is the rebuild of the current overrides |
| Launchpad.EveryRunPlacesEveryApp | src/desktop_shell/Overview/overview_host.cpp:2066-2203 | In every state of such a run without a query every app of the catalog is shown in exactly one place |
| Launchpad.DropOnTileMovesIn | src/desktop_shell/Overview/overview_host.cpp:2018-2041 | A loose app dropped on a folder's tile belongs to that folder after the rebuild and every other app keeps its home |
| Launchpad.DropOnCellMakesFolder | src/desktop_shell/Overview/overview_host.cpp:2018-2041 | Two loose apps form a new folder and every other app keeps its home |
| Launchpad.DragOutMovesOut | src/desktop_shell/Overview/overview_host.cpp:2411-2432 | A member dragged out of the open folder becomes loose if and only if no addition to the bucket lists it (for a bucket) or no second manual folder does (for a manual one); every other app keeps its home |
| LaunchpadGestures.OnlyTheOpenGridMoves | src/desktop_shell/Overview/overview_host.cpp:1890-1894 | A drop or reorder changes nothing unless the grid is shown, no folder is open, there is no query, and both places are on the grid and differ |
| LaunchpadGestures.DropOnCellSaid | src/desktop_shell/Overview/overview_host.cpp:2339-2365 | The new folder stands last, under one more than the highest number or zero, with the dragged app first; nothing else changes but that both are marked as moved |
| LaunchpadGestures.DropOnTileSaid | src/desktop_shell/Overview/overview_host.cpp:2367-2409 | The dropped app is put at the end of that folder's list and marked as moved, and no other list changes |
| LaunchpadGestures.MoveIntoManualSaid | src/desktop_shell/Overview/overview_host.cpp:2372-2393 | For any app: the loop takes it out of every manual folder but the target, puts it at the target's end, and stops, with the later folders untouched and no rebuild, at a target that has it; with no such target nothing is rebuilt or marked |
| LaunchpadGestures.MoveIntoBucketSaid | src/desktop_shell/Overview/overview_host.cpp:2395-2408 | For any app: it is put at the end of the bucket's list unless it is in it, leaves every manual folder, and emptied folders go |
| LaunchpadGestures.OnlyKnownAppsMove | src/desktop_shell/Overview/overview_host.cpp:2339-2371 | Paths that are empty, alike or in no catalog change nothing |
| LaunchpadGestures.DragOutSaid | src/desktop_shell/Overview/overview_host.cpp:2411-2451 | The folder loses the app, keeps the order of the others and goes when it is empty; the open folder is followed by its id or closed |
| LaunchpadGestures.RefreshSaid | src/desktop_shell/Overview/overview_host.cpp:2042-2064 | A refresh changes no override; the open folder stays open only without a query and while its place exists |
| LaunchpadHomes.DragOutFreesExactlyWhen | src/desktop_shell/Overview/overview_host.cpp:2428-2432 | The same on the overrides, and that an added app stays in its bucket |
| LaunchpadListings.EveryRunListsOnce | src/desktop_shell/Overview/overview_host.cpp:2018-2064 | No run ever lists an app in two folders, or in a folder and a bucket |
| LaunchpadListings.EveryFirstRunListsOnce | src/desktop_shell/Overview/overview_host.cpp:2018-2064 | In particular no run from the empty launchpad does, and every one keeps the invariant |
| LaunchpadListings.EveryRunDragsOut | src/desktop_shell/Overview/overview_host.cpp:2411-2432 | So after any run dragging a member out of a folder of the user's own always frees it, and out of a bucket's folder if and only if the app was not dropped there |
| Launchpad.AnAddedAppCannotBeDraggedOut | src/desktop_shell/Overview/overview_host.cpp:2428-2432 | A concrete run from the empty launchpad: an app is dropped on a bucket's tile, dragged out, and still belongs to the bucket |
| Launchpad.RebuildKeepsSavedOrder | src/desktop_shell/Overview/overview_host.cpp:2158-2188 | After any rebuild the items with a saved position come first, in that order, and all others keep their relative order behind them |
| Launchpad.ReorderMovesOneItem | src/desktop_shell/Overview/overview_host.cpp:1890-1913 | After a reorder the rebuilt, stably sorted grid is exactly the previous one with the one item moved next to its anchor, with the same folders and homes |
| LaunchpadGestures.ReorderSaid | src/desktop_shell/Overview/overview_host.cpp:1890-1913 | The moved item stands right before or right behind its anchor, and all others in the order they had |
| LaunchpadHost.Host.ReorderGridItem | src/desktop_shell/Overview/overview_host.cpp:1890-1913 | The method does that reorder, guards included |
| LaunchpadHost.Host.DropGridItem | src/desktop_shell/Overview/overview_host.cpp:2018-2041 | All branches of a drop |
| LaunchpadHost.Host.MoveAppIntoFolder | src/desktop_shell/Overview/overview_host.cpp:2367-2409 | Both kinds of target, with the loop that stops half way, without a rebuild, at a folder that has the app |
| LaunchpadHost.Host.RemoveAppFromOpenFolder | src/desktop_shell/Overview/overview_host.cpp:2411-2451 | The edit, the rebuild, and the open folder found again by id |
| LaunchpadStore.ReloadKeepsIdExactlyWhen | src/desktop_shell/Overview/overview_host.cpp:2242-2260 | After a restart every app is in the same slot, but under the same manual folder id if and only if the folder's number was its place in the list |
| LaunchpadStore.ARestartRenumbers | src/desktop_shell/Overview/overview_host.cpp:2242-2260 | A concrete run from the empty launchpad that makes two folders and empties the first: a restart gives the second another id |
| LaunchpadStore.RestartKeepsInv | src/desktop_shell/Overview/overview_host.cpp:2242-2300 | A restart in any state of a run keeps what every run keeps, so runs go on over restarts |
| LaunchpadRestart.RestartKeepsFolders | src/desktop_shell/Overview/overview_host.cpp:2242-2260 | After a restart the rebuilt grid has the same folders with the same members, each manual one under its place in the list |
| LaunchpadRestart.TitleSurvivesExactlyWhen | src/desktop_shell/Overview/overview_host.cpp:2116-2136 | A folder keeps its title over a restart if and only if the number it gets has the same title as the number it had |
| LaunchpadRestart.OrderSurvivesExactlyWhen | src/desktop_shell/Overview/overview_host.cpp:2158-2188 | The displayed order survives a restart if and only if, for each pair of items, the saved order still decides alike under the new ids whether the later one moves in front |
| LaunchpadRestart.ARestartReshuffles | src/desktop_shell/Overview/overview_host.cpp:2242-2260 | A concrete run from the empty launchpad after which a restart changes the displayed order and loses a title |
| LaunchpadStore.ReloadIsStable | src/desktop_shell/Overview/overview_host.cpp:2242-2300 | A second restart changes nothing more |
| LaunchpadStore.LoadCustoms | src/desktop_shell/Overview/overview_host.cpp:2242-2260 | The loading loop numbers folders by place and drops empty ones |
| NiriWindows.Mirror.NoteWindowsChanged | src/backends/niri/niri_workspace_manager.cpp:479-490 | The new table (first object of an id wins) and the change flag exactly when membership differs; occupancy equals the tally from scratch if and only if it did before or the flag is set |
| NiriWindows.Mirror.HandleWindowOpened | src/backends/niri/niri_workspace_manager.cpp:511-530 | The merged window, its title on one line; occupancy equals the tally from scratch if and only if it did before or the recompute is not skipped |
| NiriWindows.OpenedSaid | src/backends/niri/niri_workspace_manager.cpp:511-530 | Field by field: what the object gives is put over what is known of the window, or over an empty record, and no other window changes |
| NiriWindows.DecodedSaid | src/backends/niri/niri_workspace_manager.cpp:112-130 | The table of a list holds every id in it once, as its first object says |
| NiriWindows.ToldSaid | src/backends/niri/niri_workspace_manager.cpp:479-573 | The listener is told exactly when a window comes with a workspace or application, a known one changes either, a list differs in windows or in either of these, or a known window closes |
| NiriWindows.Mirror.ApplyLayoutItem | src/backends/niri/niri_workspace_manager.cpp:531-550 | Only a known window's position moves; occupancy equals the tally if and only if it did before |
| NiriWindows.Mirror.NoteWindowClosed | src/backends/niri/niri_workspace_manager.cpp:561-573 | The window is gone; occupancy equals the tally of the rest if and only if it did before or the window was known |
| NiriWindows.Mirror.ResetState | src/backends/niri/niri_workspace_manager.cpp:352-359 | The reset forgets windows but not occupancy: from agreement they still agree if and only if no window was on any workspace |
| NiriWindows.AgreesExactlyWhen | src/backends/niri/niri_workspace_manager.cpp:352-359 | Over every run of events and resets occupancy is wrong if and only if some reset came while a window was on a workspace and no event since has changed membership or closed a window; then no window is on any workspace |
| NiriWindows.ResetLeavesACount | src/backends/niri/niri_workspace_manager.cpp:479-490 | One window, a reset, and the news that there are no windows: the table is empty and workspace 1 still counts a window |
| NiriTitles.TitleKeepsItsWords | src/backends/niri/niri_workspace_manager.cpp:133-160 | A title on one line holds every character of the original that is no white space, in order, with single spaces between words and none at the ends |
| NiriTitles.TitleOneLine | src/backends/niri/niri_workspace_manager.cpp:133-160 | The nested loops compute that title |
| NiriWindows.Mirror.RefreshOccupancy | src/backends/niri/niri_workspace_manager.cpp:675-680 | The counting loop computes the tally |
| NiriWindows.SameShownSameTally | src/backends/niri/niri_workspace_manager.cpp:635-648 | Occupancy depends only on which app sits where, which is why events that keep this may skip the recompute |
| NiriWindows.TallyIsPositive | src/backends/niri/niri_workspace_manager.cpp:675-680 | A workspace is listed exactly when some window is on it, with a positive count |
| NiriWindows.CompareMembership | src/backends/niri/niri_workspace_manager.cpp:635-648 | The size check and one-way loop decide equality of membership |
| NiriSync.MatchedIsInjective | src/backends/niri/niri_workspace_manager.cpp:231-268 | No two rows get the same workspace, through all three claim tiers and the fill cursor |
| NiriSync.MatchedIsComplete | src/backends/niri/niri_workspace_manager.cpp:231-268 | With a named output exactly min(rows, candidates) rows are matched |
| NiriSync.IdWins | src/backends/niri/niri_workspace_manager.cpp:204-229 | A row whose key is the id of a candidate gets it whenever no earlier row took it |
| NiriClaims.NameWins | src/backends/niri/niri_workspace_manager.cpp:204-229 | With no free workspace of the key's id, the first free one of the row's label is matched, whatever the indices say |
| NiriClaims.IndexWins | src/backends/niri/niri_workspace_manager.cpp:204-229 | With none of the id or label, the first free one whose index is the number the key, or else the label, begins with |
| NiriClaims.NothingClaimed | src/backends/niri/niri_workspace_manager.cpp:204-229 | A row for which none of the three is free claims nothing |
| NiriClaims.LeftoversInOrder | src/backends/niri/niri_workspace_manager.cpp:247-256 | For a named output a row without a claim gets the first workspace that no row claimed and no earlier row got, if there is one |
| NiriClaims.KeysSpellIds | src/backends/niri/niri_workspace_manager.cpp:650-657 | A key is an id exactly when it is all digits and fits 64 bits, and then the one they spell |
| NiriClaims.LeadingDigitsAreRead | src/backends/niri/niri_workspace_manager.cpp:659-669 | Leading digits are read up to the first other character; zero is no number |
| NiriClaims.RowsSaid | src/backends/niri/niri_workspace_manager.cpp:258-267 | Only number and flag of a row are written: the index unless it is zero, and occupied when some window is counted; an unmatched row gets zero and is not occupied |
| NiriSync.CandidateListIsUnique | src/backends/niri/niri_workspace_manager.cpp:271-286 | The candidates of an output, in order, are determined by the table |
| NiriSync.SortedCandidates | src/backends/niri/niri_workspace_manager.cpp:271-286 | The method returns that list |
| NiriClaims.CandidatesSaid | src/backends/niri/niri_workspace_manager.cpp:271-286 | The candidates are the workspaces of the named output, or all if none is named, by index and then by id |
| NiriSync.Sync | src/backends/niri/niri_workspace_manager.cpp:231-268 | The rows are rewritten from the specified matching and the occupancy, and stay as they were when disconnected or without workspaces |
| NiriSync.StopWhenExhausted | src/backends/niri/niri_workspace_manager.cpp:247-256 | Breaking out of the fill loop when the cursor runs off the end loses nothing |
| NiriSync.OccupiedMeansSomeWindow | src/backends/niri/niri_workspace_manager.cpp:257-268 | A matched row is occupied exactly when some window is on its workspace |
| WindowTracker.EveryRunKeepsInv | src/backends/hyprland/hyprland_window_tracker.cpp:46-213 | In every run at most one request is pending per kind and handle, none for a handle with an id, and each request is pending or destroyed exactly once |
| WindowTracker.PairedExactlyWhenDistinct | src/backends/hyprland/hyprland_window_tracker.cpp:85-98 | The two maps of a family stay inverse throughout a run if and only if no address is assigned while another handle holds it |
| WindowTracker.OneAddressTwiceLosesAHandle | src/backends/hyprland/hyprland_window_tracker.cpp:85-98 | A concrete run that answers two handles with one address: both keep the id, which leads to the second only |
| WindowTracker.TeardownLeavesExactlyThePending | src/backends/hyprland/hyprland_window_tracker.cpp:100-105 | After any run and the destructor a request has been destroyed once if it was made and is not still pending, and never otherwise; what is left belongs to handles without an id |
| WindowTracker.AnUnansweredRequestIsLeft | src/backends/hyprland/hyprland_window_tracker.cpp:100-105 | A concrete run with one of two requests answered: the other is never destroyed |
| WindowTracker.Tracker.TearDown | src/backends/hyprland/hyprland_window_tracker.cpp:100-105 | The destructor gives back the manager and changes nothing else |
| WindowTracker.SettledKeepsPairing | src/backends/hyprland/hyprland_window_tracker.cpp:85-98 | One answer keeps the maps inverse if and only if no other live handle has that id |
| WindowTracker.SupersedeIsNeverTaken | src/backends/hyprland/hyprland_window_tracker.cpp:85-98 | When an address arrives its handle has no id, so the branch that replaces one is dead |
| WindowTracker.SyncForgetsTheDead | src/backends/hyprland/hyprland_window_tracker.cpp:46-83 | After a sync exactly the listed handles keep their ids and no request for an unlisted handle is pending |
| TrackerLaws.SyncSaid | src/backends/hyprland/hyprland_window_tracker.cpp:46-83 | A sync asks for every listed handle without an id, keeps the ids and requests of the listed ones, drops those of the others, and leaves the other kind alone; without a manager it does nothing |
| TrackerLaws.AnswerSaid | src/backends/hyprland/hyprland_window_tracker.cpp:196-211 | An answer gives the handle the address in both maps of its family, tells the listener once and ends the request; to any other request it does nothing |
| WindowTracker.LookupRoundTrip | src/backends/hyprland/hyprland_window_tracker.cpp:125-141 | Looking up a resolved handle's id, in any spelling, returns that handle |
| WindowTracker.Tracker.SyncHandles | src/backends/hyprland/hyprland_window_tracker.cpp:46-83 | The loops of a sync compute the specified step |
| WindowTracker.Tracker.AssignId | src/backends/hyprland/hyprland_window_tracker.cpp:85-98 | Both maps and the replaced id |
| WindowTracker.Tracker.OnAddress | src/backends/hyprland/hyprland_window_tracker.cpp:196-211 | An answer takes its request, assigns the id and destroys the request |
| WindowIds.ParseFmt | src/backends/hyprland/hyprland_win_id.cpp:8-29 | Parsing a printed address gives it back, for all 64-bit values |
| TrackerLaws.SpelledSo | src/backends/hyprland/hyprland_win_id.cpp:8-10 | Ids are spelled in lower-case hexadecimal without a prefix |
| TrackerLaws.UnderstoodSo | src/backends/hyprland/hyprland_win_id.cpp:12-29 | A prefix and upper case are understood; an empty string, a bare prefix and other characters are no id |
| WindowIds.FmtIsInjective | src/backends/hyprland/hyprland_win_id.cpp:8-10 | Two addresses print alike only if equal |
| WindowIds.MatchIsSameAddress | src/backends/hyprland/hyprland_win_id.cpp:39-43 | Two ids match exactly when both parse, to the same address |
| WindowIds.CanonicalIsStable | src/backends/hyprland/hyprland_win_id.cpp:31-37 | A canonical id is its own canonical form |
| LineReaders.SplitDoesNotMatter | src/backends/niri/niri_workspace_manager.cpp:420-430 | However the stream is cut into reads, each of the three readers dispatches the lines of the uncut stream in order and keeps the bytes after the last newline |
| LineReaders.Socket.Receive | src/backends/niri/niri_workspace_manager.cpp:402-430 | One look at the socket of any of the three readers is one chunk of such a run, unless a message is rejected or niri's buffer grows too large |
| LineReaders.Socket.ReceiveAll | src/backends/mango/mango_workspace_manager.cpp:135-150 | Look after look gives the messages of the run over all chunks, hence of the uncut stream, exactly when every chunk fits and no message is rejected |
| LineReaders.FaithfulCutIsUnique | src/backends/hyprland/hyprland_run_ctx.cpp:268-277 | Lines and rest are the only newline-free pieces that rebuild the stream |
| LineReaders.Socket.ParseLines | src/backends/niri/niri_workspace_manager.cpp:420-430 | Niri's reader strips a trailing carriage return and stops at a rejected message |
| LineReaders.MessageSaid | src/backends/niri/niri_workspace_manager.cpp:420-430 | Which lines each reader hands over, and that only niri's takes a carriage return off |
| LineReaders.Socket.ProcessLines | src/backends/hyprland/hyprland_run_ctx.cpp:268-277 | Hyprland's reader |
| LineReaders.Socket.ConsumeLines | src/backends/mango/mango_workspace_manager.cpp:124-133 | Mango's reader |
| SwayStream.DecodeAll | src/backends/sway/sway_workspace_manager.cpp:331-354 | A stream of encoded frames and a proper prefix of the next decodes to those frames and leaves the prefix |
| SwayStream.EveryFrameArrivesOnce | src/backends/sway/sway_workspace_manager.cpp:305-354 | The same for every split of the stream into reads |
| SwayStream.Stream.ProcessMessages | src/backends/sway/sway_workspace_manager.cpp:331-354 | The loop handles exactly the complete frames, and tells the listener if and only if something changed and less than a header is left |
| SwayStream.Stream.DrainEvents | src/backends/sway/sway_workspace_manager.cpp:305-329 | Reads up to the cap, each followed by the loop; a frame that is not sway's closes the stream |
| SwayStream.WithinCapSaid | src/backends/sway/sway_workspace_manager.cpp:305-317 | A drain is within the cap exactly when the buffer and all it reads are no more than a mebibyte together |
| SwayStream.Stream.DrainAll | src/backends/sway/sway_workspace_manager.cpp:305-354 | Drain after drain on an open connection hands over the frames of the run over all deliveries and tells the listener as often as the reports say |
| SwayStream.BehindExactlyWhen | src/backends/sway/sway_workspace_manager.cpp:331-354 | After any run the tables hold a change the listener was not told of if and only if the last drain that changed anything ended with a header or more in the buffer |
| SwayStream.BehindUntilTold | src/backends/sway/sway_workspace_manager.cpp:331-354 | A listener that misses a change goes on missing it until a drain with a change of its own is told |
| SwayStream.AChangeStaysUntold | src/backends/sway/sway_workspace_manager.cpp:331-354 | A concrete run in which every frame is handled, nothing is left in the buffer, and the listener has not been told |
| SwayStream.ToldExactlyWhen | src/backends/sway/sway_workspace_manager.cpp:331-354 | On a well-formed stream the listener is told of a change if and only if the leftover is shorter than a header |
| SwayStream.AChangeCanGoUntold | src/backends/sway/sway_workspace_manager.cpp:343 | A concrete buffer whose change is not announced: the loop returns at an incomplete payload |
| SwayStream.Le32RoundTrip | src/backends/sway/sway_workspace_manager.cpp:39-49 | The little-endian length and type round-trip |
| SwayStream.OnTheWire | src/backends/sway/sway_workspace_manager.cpp:503-517 | A frame on the wire, byte by byte, low bytes first |
| SwayTree.TreeTally | src/backends/sway/sway_workspace_manager.cpp:408-490 | Each workspace name is counted once per window leaf whose nearest enclosing workspace has that name; its app list is free of repeats, exact, and no longer than the count |
| SwayTree.VisitSeesEveryWindow | src/backends/sway/sway_workspace_manager.cpp:408-463 | The recursive visit reports each window leaf with its nearest enclosing workspace, found independently along its chain of ancestors |
| SwayTree.CountsAreExact | src/backends/sway/sway_workspace_manager.cpp:408-463 | Counts after the tally are numbers of visits |
| SwayTree.AppsAreExact | src/backends/sway/sway_workspace_manager.cpp:408-463 | An app is listed exactly when a window of it was seen there |
| SwayTree.TallyOccupancy | src/backends/sway/sway_workspace_manager.cpp:408-463 | The method updates the two tables as the visit says |
| SwayTree.Tables.LoadWorkspaceList | src/backends/sway/sway_workspace_manager.cpp:373-404 | The sorted records with every flag in agreement with the counts, or nothing when the reply is not an array or reading a field throws |
| SwayTree.ReplyIsLostExactlyWhen | src/backends/sway/sway_workspace_manager.cpp:380-403 | A list reply is dropped as a whole if and only if some workspace object has a field of the wrong type |
| SwayTree.Tables.LoadTree | src/backends/sway/sway_workspace_manager.cpp:465-490 | New counts and apps, every record's flag in agreement with them, and the change flag |
| SwayRecords.OccupiedMeansSomeWindow | src/backends/sway/sway_workspace_manager.cpp:373-490 | After any run of list and tree replies, in any order, a record is marked occupied if and only if some window leaf of the last tree has a workspace of that name nearest above it |
| SwayRecords.TreeReplySaid | src/backends/sway/sway_workspace_manager.cpp:465-490 | A tree reply alone settles every flag and changes nothing else in a record |
| SwayRecords.ListReplySaid | src/backends/sway/sway_workspace_manager.cpp:373-404 | A readable list leaves a record for every named workspace with what it says of it, numbered ones first by number, the others and equals as listed |
| SwayRecords.OneLeaf | src/backends/sway/sway_workspace_manager.cpp:408-463 | A leaf is a window by its application id, else its window class, else its window id, and counts for a workspace with a name |
| SwayRecords.ItemSaid | src/backends/sway/sway_workspace_manager.cpp:384-389 | The defaults of missing fields |
| SwayTree.SwayOrderIsTotal | src/backends/sway/sway_workspace_manager.cpp:55-61 | The order is a strict weak one that decides whenever ordinals differ |
| ExtWorkspace.Manager.AllRegions | src/backends/ext_workspace/ext_workspace_manager.cpp:239-260 | Each live labelled workspace once, sorted by coordinates, numbered from 1 |
| ExtWorkspace.Manager.RegionsOnOutput | src/backends/ext_workspace/ext_workspace_manager.cpp:262-274 | The labelled workspaces of the serving groups as often as listed, sorted and numbered |
| ExtWorkspace.TableHoldsTheLive | src/backends/ext_workspace/ext_workspace_manager.cpp:278-357 | After any events the table holds exactly the workspaces announced and neither removed nor swept away since |
| ExtWorkspace.PickIsBest | src/backends/ext_workspace/ext_workspace_manager.cpp:184-215 | A jump by desk picks a live workspace of the first serving group that has any match, of the lowest rank there and first in it; it picks none only if no serving group has a match |
| ExtWorkspace.ExactDeskExactlyWhen | src/backends/ext_workspace/ext_workspace_manager.cpp:181-215 | The jump lands on the very desk asked for if and only if that first group holds it |
| ExtLaws.RankSaid | src/backends/ext_workspace/ext_workspace_manager.cpp:181-191 | The rank of a match, with paths compared coordinate by coordinate and zero behind their end |
| ExtLaws.PathLessSaid | src/backends/ext_workspace/ext_workspace_manager.cpp:232-237 | Paths compare at the first coordinate where they differ |
| ExtWorkspace.AWeakMatchWins | src/backends/ext_workspace/ext_workspace_manager.cpp:184-215 | A concrete run after which the jump takes a weak match of the first group though the second holds the very desk |
| ExtWorkspace.Manager.JumpToDeskOnOutput | src/backends/ext_workspace/ext_workspace_manager.cpp:205-217 | At most one activation: the pick, else any workspace with the key, else none |
| ExtWorkspace.Manager.JumpToKeyOnOutput | src/backends/ext_workspace/ext_workspace_manager.cpp:163-179 | The same for a jump by key |
| ExtWorkspace.TeardownDestroysExactlyWhen | src/backends/ext_workspace/ext_workspace_manager.cpp:219-230 | After any events and teardown a workspace or group has been destroyed once if and only if it was announced and the finished event did not find it live; otherwise it has not been destroyed |
| ExtWorkspace.TheFinishedEventLeaks | src/backends/ext_workspace/ext_workspace_manager.cpp:363-367 | A workspace is announced, the manager finishes, and teardown does not destroy the workspace |
| ExtWorkspace.Manager.Teardown | src/backends/ext_workspace/ext_workspace_manager.cpp:219-230 | The loops retire every live workspace and every group |
| Resampler.WindowIsInside | src/color/horizon_colors.cpp:351-356 | Every window is non-empty and inside the source |
| Resampler.RawTotalIsPositive | src/color/horizon_colors.cpp:359-367 | Every window has positive total weight |
| Resampler.WeightsAverage | src/color/horizon_colors.cpp:359-367 | The scaled weights are non-negative and sum to one |
| Resampler.PixelIsOneAverage | src/color/horizon_colors.cpp:369-431 | Each output channel is one weighted average over a rectangle of the source: the two passes equal a single sum with the products of the weights |
| Resampler.PixelIsBetween | src/color/horizon_colors.cpp:416-424 | Each output byte lies between the least and greatest byte of its channel in the source |
| ResamplerMean.WeightsAreTriangle | src/color/horizon_colors.cpp:351-367 | Each weight is one minus the distance from the target sample's middle over the wider of one source and one target sample, as a share of the sum of these over the whole axis; outside the window it is zero |
| ResamplerMean.WideIsMean | src/color/horizon_colors.cpp:343-431 | The two windowed passes give, for each channel, the mean over the whole source with those weights across and down |
| ResamplerMean.PixelIsNearestMean | src/color/horizon_colors.cpp:416-424 | Each output byte is the one nearest to that mean |
| ResamplerMean.FourToTwo | src/color/horizon_colors.cpp:343-431 | Four samples 0, 0, 224, 0 become 32, 96 |
| Resampler.SameSizeIsIdentity | src/color/horizon_colors.cpp:343-431 | A resize to the same size returns the source |
| Resampler.TwoPassesAreOne | src/color/horizon_colors.cpp:369-415 | Averages of column averages are one sum over the rectangle, for any weights |
| Resampler.ResizeTriangleToGrid | src/color/horizon_colors.cpp:343-431 | The nested loops over the buffers compute those pixels at every place |
| Resampler.Vertical | src/color/horizon_colors.cpp:346-388 | The first pass fills the intermediate buffer |
| Resampler.PackedPixel | src/color/horizon_colors.cpp:372-376 | Splitting a 32-bit pixel into bytes and packing it again is the identity |
| DashboardLayout.PackSplits | src/desktop_shell/dashboard/dashboard_layout.cpp:317-349 | The rows contain every known card in order, none is empty and none uses more columns than there are |
| DashboardLayout.PackUsesFewestRows | src/desktop_shell/dashboard/dashboard_layout.cpp:317-349 | No order-preserving split that fits has fewer rows |
| DashboardLaws.PackIsGreedy | src/desktop_shell/dashboard/dashboard_layout.cpp:317-330 | A row is broken only where the next card does not fit |
| DashboardLaws.CardsFromTheFront | src/desktop_shell/dashboard/dashboard_layout.cpp:323-326 | Unknown cards are passed over, and a known one gets its configured span, within one and the columns |
| DashboardLayout.RowsAreDisjoint | src/desktop_shell/dashboard/dashboard_layout.cpp:330-338 | No two cards overlap, and all lie between the grid's edges |
| DashboardLayout.CardsFitExactlyWhen | src/desktop_shell/dashboard/dashboard_layout.cpp:292-361 | Every card placed lies inside the panel's padding, and no two overlap, if and only if the columns used by each row are no wider than the panel inside its padding |
| DashboardLayout.CardsLeaveThePanel | src/desktop_shell/dashboard/dashboard_layout.cpp:292-361 | Two configurations with a 40-pixel floor in force: the cards of the one leave the panel, those of the other do not |
| DashboardLaws.RowStandsAt | src/desktop_shell/dashboard/dashboard_layout.cpp:317-360 | Each row stands from the grid's left edge, its cards a gap apart and as wide as their columns with the gaps between, all as high as the highest; the next row begins a gap below |
| DashboardLaws.GridSaid | src/desktop_shell/dashboard/dashboard_layout.cpp:292-306 | Cells and gaps fill the panel inside its padding unless a cell would be narrower than 40 |
| DashboardLaws.PanelWidthSaid | src/desktop_shell/dashboard/dashboard_layout.cpp:297-298 | The panel is as wide as the surface but for the margins, no less than 80, and no more than the limit if there is one |
| DashboardLaws.PanelIsCentred | src/desktop_shell/dashboard/dashboard_layout.cpp:297-299 | The panel leaves as much space on the left as on the right |
| DashboardLaws.PanelInsideExactlyWhen | src/desktop_shell/dashboard/dashboard_layout.cpp:297-299 | The panel lies on the surface if and only if that is at least 80 wide or the width limit fits it |
| DashboardLaws.ANarrowSurface | src/desktop_shell/dashboard/dashboard_layout.cpp:297-299 | A surface 60 wide with no limit: the panel is 80 wide and begins ten left of it |
| DashboardLayout.CardsInsidePanel | src/desktop_shell/dashboard/dashboard_layout.cpp:297-306 | The corollary for callers: with no floor in force the rows always fit |
| DashboardLayout.FlowCards | src/desktop_shell/dashboard/dashboard_layout.cpp:317-360 | The loop with its held-back row places exactly the packed rows |
| DashboardLayout.ComputeLayout | src/desktop_shell/dashboard/dashboard_layout.cpp:292-361 | The whole layout: validity, panel, cards and heights |
| ThreadPool.EveryRunKeepsInv | src/bootstrap/thread/thread_pool.cpp:25-71 | Over every interleaving: order, at most one run per task, finish callbacks only after their task, and conservation of tasks and callbacks |
| ThreadPool.FirstInFirstOut | src/bootstrap/thread/thread_pool.cpp:32-50 | What was taken and what is queued is what was submitted, in order |
| ThreadPool.TurnSaid | src/bootstrap/thread/thread_pool.cpp:32-50 | A worker takes the first task while there is one, leaves when there is none and it was told to stop, and else waits |
| ThreadPool.LastWorkerLeavesNothing | src/bootstrap/thread/thread_pool.cpp:32-50 | When the last worker has left, every task submitted by then has run and its callback was queued |
| ThreadPool.OnePlacePerCallback | src/bootstrap/thread/thread_dispatch.cpp:14-31 | A callback is in the queue, in one drain's hands or run: in one place exactly, and nowhere before its task returned |
| ThreadPool.DrainedCallbacksRanOnce | src/bootstrap/thread/thread_dispatch.cpp:21-31 | With queue and drains empty each callback of a finished task has run once |
| ThreadPool.DeferredCalls.Drain | src/bootstrap/thread/thread_dispatch.cpp:21-31 | The swap and the loop run the calls present at the swap, in order, and keep those queued meanwhile |
| ThreadPool.DrainIsARun | src/bootstrap/thread/thread_dispatch.cpp:21-31 | That drain is the run of the pool's steps in which no other thread comes between: the swap, then each call with what it defers |
| Sorting.SortedIsUnique | src/desktop_shell/Overview/overview_host.cpp:2170-2188 | Where no two elements tie the sorted arrangement is unique |
| Sorting.SameSortExactlyWhen | src/desktop_shell/Overview/overview_host.cpp:2170-2188 | Two stable sorts of one sequence agree if and only if they agree, for each pair, on whether the later element moves in front of the earlier one |

## Left out

- Sockets, polling, reconnects, Wayland and drawing: foreign calls. Reads are arbitrary chunks of bytes.
- JSON and TOML text: messages and files are trees and tables. A tree node's or window's field of the wrong JSON type is modelled as missing, which is how the code treats it there; in sway's workspace list it loses the reply, as in the code, and a number too large for 32 bits is kept as it is.
- The field-by-field reading and writing of settings: a configuration has the fields the protocol looks at, and one field for all the others.
- The generation counter's 64-bit wrap-around: generations are natural numbers.
- The palette generator, template files written by jobs, and the applied hook's own actions: a hook's calls are ordinary steps of a mutator.
- Bit-exact 32-bit floating point in the resampler and the layout: both use real numbers. The four channel sums of a pixel are one record, not four neighbouring floats.
- Natural heights of dashboard cards and the parts inside a card: heights are any non-negative function.
- The typing of a folder's new name, scroll positions, animation and the modal's cell list of the launchpad. String ids such as `bucket-2`, `custom-3`, `f:` and `a:` are constructors, so an id that only looks like one cannot occur; overflow while parsing a folder number is not modelled.
- Launchpad.EveryRunPlacesEveryApp: assumes each catalog a refresh brings names a path once, as the menu query promises.
- `std::sort` may arrange ties in any order; the model uses one stable arrangement and claims nothing about ties except after `std::stable_sort`.
- Iteration order of hash maps: loops over them take elements in an arbitrary order.
- Reuse of a protocol handle's address by the compositor: handles are names that are not announced twice.
- Callbacks that reenter the window tracker while it handles an answer.
- Liveness of the worker pool: `stop` is set without the mutex, so only safety is stated.
- Exceptions thrown by tasks and callbacks.
- Screenshots, dialogs, the file browser, media, power and the rest of the shell.
