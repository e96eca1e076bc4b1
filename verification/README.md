# Fleetboot, modelled and proved in Dafny

Fleetboot network-boots a fleet of machines. This project models the parts of it whose
correctness spans several functions or whole runs, and proves what they promise. Check it
with `dafny verify dfyconfig.toml` (Dafny 4.11).

- **Profiles** (`ProfileTree`, `ResolveProfile`, `ImageLayers`, `Ordering`, `BuildCascade`).
  A profile inherits from the profiles its `parent` file names and, implicitly, from `base`.
  The resolver walks up with a stateful depth-first search; the build cascade walks down with
  a work list and sorts the result in rounds. Both are imperative here, both are related to
  one notion of reachability, and they are proved to agree.
- **Builds** (`Architectures`, `BuildRunner`, `FleetReboot`, `BuildManager`,
  `CascadeReboots`). The job manager as a class whose methods perform single assignments,
  refining a step machine in which submissions, pollers, the worker, the success callback
  and the clock interleave. A successful cascade arms a reboot on exactly the machines whose
  image went stale, and ends at most one boot of each.
- **Reservations** (`Calendar`, `Reservations`, `ReservationRuns`, `LeaseSweeps`,
  `MachineRegistry`, `ReservationReaper`). Permanent holds and timed leases in one table. Connections are
  autocommit, so every registry method is a run of separate SQL statements with the clock
  moving between them; the invariants are proved after each statement, and the whole-run
  theorems speak about the run each registry object records. Once a method has dropped the
  lock, other threads run whole operations before it reads what it returns.
- **Printers and parsers** (`Text`, `BugReportFormat`, `BugReportRoundTrip`, `BugReportStore`,
  `WakeFrames`, `GrubTemplate`, `ReporterCmdline`). Bug reports whose free text may imitate
  the format, BLE frames cut anywhere, and the kernel command line printed by the boot loader
  config and read by the booted image.
- **Soft reboot and boot log** (`SoftReboot`, `StatusServer`, `StatusReporter`, `BootLog`).
  The signal in the status reply that makes a machine reboot itself without looping, and the
  event log that folds repeated heartbeats. The server records the run of every machine, to
  which its own operations, the reporters of the booted image and the machine itself add
  their steps; the protocol's theorems hold of those runs.

Several promises of the code or its comments hold only under a condition. Each is stated as
an exact condition:

- The cascade starts with its root if and only if the root does not inherit from itself or is
  the least name downstream of it (`BuildCascade.RootFirst`); the comment at
  `fleetboot/server/build_jobs.py:424` says always. The first job decides whether the others
  are skipped, so on such a cycle that may not be the root's (`FleetReboot.CascadeJobs`).
  Two profiles that inherit from each other fail it (`BuildCascade.CycleStartsElsewhere`).
- A report reads back unchanged if and only if its free text has no carriage return and its
  resolution note does not contain the resolution heading (`BugReportRoundTrip.RoundTripIff`;
  `BugReportRoundTrip.SomeReportsDoNotReadBack` has one report of each kind that does not).
- Frames are handed over once if and only if no notification but the last leaves a whole
  frame in the buffer, which it does only behind a stray byte: one at which no frame starts
  (`WakeFrames.DeliveredOnceIff`, `WakeFrames.LeftStartsWithStray`,
  `WakeFrames.StrayByteDeliversTwice`).
- A trailing slash on the base URL renders the same config if and only if the URL does not
  end in a path segment with `;` parameters (`GrubTemplate.TrailingSlash`;
  `http://h/a;v=1` does, `GrubTemplate.SlashChangesConfig`).
- A machine the reaper powers off is leased again by then if and only if a `reserve` that ran
  since the reap wrote it a lease that is still live (`ReservationReaper.Reaper.ReapOnce`,
  `ReservationRuns.LeasedAgainIff`; `ReservationRuns.LeasedAfterReap` has such a run).
- A lease ever expires, and so is ever reaped, if and only if its end is no later than the
  year 9999, past which SQLite stores no expiry (`Reservations.ExpiresIff`).
- The view of one machine's events is in insertion order; the view of the fleet's is if and
  only if no row is older than one inserted before it (`BootLog.FleetViewIff`). A report
  keeps it so if and only if it inserts a row or bumps one with no earlier time behind it
  (`BootLog.Log.LogBootEvent`); `BootLog.HeartbeatBreaksOrder` has the log that is not.

One more holds only thanks to an invariant of the others: the reaper's update does not name
the lease kind, and ends nothing but the expired lease because of the unique index
(`Reservations.ReapEndsOnlyExpired`, `Reservations.ReaperNeedsIndex`).

## Model

| member | source | states |
|---|---|---|
| ProfileTree.ParentIff | fleetboot/server/build_jobs.py:348-366 | a parent is a declared name, or `base` of every other profile that does not declare it, where there is a `base` |
| ProfileTree.ParentsInOrder | scripts/resolve-profile.py:54-76 | the implicit `base` comes before the declared parents, which keep their order |
| ProfileTree.BaseIsReached | fleetboot/server/build_jobs.py:342-345 | every profile inherits from `base` |
| ProfileTree.NothingElseReached | fleetboot/server/build_jobs.py:348-366 | what a set of names declares, with `base`, is all that is ever inherited from |
| ResolveProfile.ResolveChain | scripts/resolve-profile.py:79-111 | succeeds exactly when everything reachable from the target exists and nothing of it lies on a cycle; then yields the keep-first deduplication of the parents' chains followed by the target; otherwise names a profile above the target that is missing or inherits from itself |
| ResolveProfile.Resolver.Visit | scripts/resolve-profile.py:89-108 | with the finished names ancestor-closed, a visit emits exactly the profile's chain without what was emitted before and finishes exactly its ancestors, leaving `visiting` as it was |
| ResolveProfile.ChainIsLinearisation | scripts/resolve-profile.py:79-111 | a chain has no duplicates, holds exactly what the target reaches, puts everything after all it inherits from and ends with the target |
| ResolveProfile.ChainMember | scripts/resolve-profile.py:85-111 | the recursively built chain contains a name exactly when it is an existing ancestor |
| ResolveProfile.ChainStartsAtBase | scripts/resolve-profile.py:70-75 | the chain of every profile starts with `base`, if that inherits from nothing |
| ResolveProfile.DeclaredOrderKept | scripts/resolve-profile.py:103-108 | declared parents stand in the chain in the order they are declared, unless the later one is inherited through an earlier one |
| ImageLayers.MergeExtraPackages | scripts/resolve-profile.py:114-129 | the merged list is the keep-first deduplication of all entries in chain order |
| ImageLayers.MergedPackagesAre | scripts/resolve-profile.py:114-129 | the merged list holds exactly the entries of the profile and of everything it inherits from |
| ImageLayers.EntriesInOrder | scripts/resolve-profile.py:117-128 | the entries of a chain are those of its members, in chain order and each as listed |
| ImageLayers.MergedPackagesInherit | scripts/resolve-profile.py:114-129 | no duplicates, first-occurrence order, and every entry of every ancestor's merged list |
| ImageLayers.MergeOverlays | scripts/resolve-profile.py:132-138 | each staged path holds the content of the last chain member whose overlay has it, and a path no overlay has is left as it was |
| ImageLayers.NoAncestorShadows | scripts/resolve-profile.py:132-138 | the profile whose file wins is never an ancestor of another profile shipping that path |
| BuildCascade.ComputeBuildCascade | fleetboot/server/build_jobs.py:369-425 | terminates on every tree; the root alone without a profiles directory, else the order the other rows describe |
| BuildCascade.ReadChildren | fleetboot/server/build_jobs.py:389-393 | the adjacency is exactly the reversed parent edges, in whatever order the directory is listed |
| BuildCascade.CollectDownstream | fleetboot/server/build_jobs.py:394-401 | the work list ends with exactly the names that reach the root |
| BuildCascade.SortTopologically | fleetboot/server/build_jobs.py:402-425 | the loop that empties the parent sets emits the rounds of names ready at once, each sorted, and what a cycle holds up sorted at the end |
| BuildCascade.EmitRound | fleetboot/server/build_jobs.py:419-423 | emitting the ready names one by one, striking each from all parent sets, leaves exactly the other names with their remaining parents |
| BuildCascade.CascadeMembers | fleetboot/server/build_jobs.py:369-425 | the list has no duplicates and holds exactly the root and what inherits from it |
| BuildCascade.RoundsParentsFirst | fleetboot/server/build_jobs.py:402-425 | every name with no cycle between it and the root follows all its parents that are in the set |
| BuildCascade.RoundsInGenerations | fleetboot/server/build_jobs.py:402-425 | names with fewer generations of parents above them come first, and names of the same generation in alphabetical order, cycles included |
| BuildCascade.BaseRebuildsAll | fleetboot/server/build_jobs.py:342-345 | rebuilding `base` rebuilds every profile |
| Ordering.LexLeIff | fleetboot/server/build_jobs.py:409-411 | the order of names: a beginning before the whole, else by the first difference |
| BuildCascade.StuckBehindCycle | fleetboot/server/build_jobs.py:414-418 | a round with nothing ready leaves only names held up by a cycle |
| BuildCascade.CascadeOrdersAncestors | fleetboot/server/build_jobs.py:402-425 | a profile is built after everything it inherits from, at any distance, that is rebuilt too |
| BuildCascade.RootFirst | fleetboot/server/build_jobs.py:414-425 | the root comes first exactly when it is on no cycle or is the least name downstream |
| BuildCascade.CycleStartsElsewhere | fleetboot/server/build_jobs.py:414-425 | of two profiles that inherit from each other, rebuilding the larger starts with the smaller |
| BuildCascade.WalksAgree | fleetboot/server/build_jobs.py:369-425 | a resolvable profile is in the cascade of a root exactly when the root is in its resolved chain, and every other rebuilt member of its chain is built before it |
| Architectures.AliasesAre | fleetboot/server/registry.py:1406-1422 | two names match exactly when they are equal or both spell amd64 or both spell arm64 |
| Architectures.SameIsEquivalence | fleetboot/server/registry.py:1400-1422 | so it does not matter which side uses which spelling |
| BuildRunner.InvNext | fleetboot/server/build_jobs.py:157-334 | every step of submitter, worker, callback and clock keeps the runner's invariant |
| BuildRunner.RunnerIsSafe | fleetboot/server/build_jobs.py:157-334 | at every moment of every run: at most one job running, jobs started in order, skipped exactly those whose first job failed, the callback run once and ended for each succeeded job and no other, the end stamped before success or failure is published, and all jobs over when the lock is free |
| BuildRunner.FinishedForGood | fleetboot/server/build_jobs.py:330-334 | a job read as succeeded or failed never changes again |
| BuildManager.BuildJobManager.Start | fleetboot/server/build_jobs.py:157-224 | refused exactly while the lock is held, changing nothing; else one queued job per planned build, with its profile, the architecture and flag asked for and the root of a cascade of several; existing jobs untouched |
| BuildManager.BuildJobManager.RunCascade | fleetboot/server/build_jobs.py:228-257 | ends with the lock free, earlier jobs untouched, every job finished and skipped exactly when the first of its submission did not succeed |
| BuildManager.BuildJobManager.ExecuteJob | fleetboot/server/build_jobs.py:259-334 | moves past one job whatever the build and the callback do, changing no other |
| BuildManager.BuildJobManager.OnSuccess | fleetboot/server/app.py:916-938 | arms only machines of the job's profile whose architecture is the same by whatever spelling, and no other column changes; unless it raises, all of them if auto-reboot was asked for, with their number recorded on the job |
| BuildManager.BuildJobManager.StaleMachinesArmed | fleetboot/server/app.py:916-938 | after one fully successful cascade with auto-reboot the manager's armed machines are those armed before and exactly those of the same architecture, by whatever spelling, whose chain contains the root |
| FleetReboot.RunArmsWanted | fleetboot/server/app.py:916-938 | after a run in which everything was built and swept, the armed machines are those armed before and those some submission meant to reboot |
| FleetReboot.CascadeArmsStaleMachines | fleetboot/server/app.py:916-938 | after a fully successful cascade with auto-reboot the armed machines are those armed before and exactly those of the same architecture, by whatever spelling, whose profile's resolved chain contains the root |
| FleetReboot.CascadeJobs | fleetboot/server/build_jobs.py:185-257 | the jobs of a cascade are its profiles in cascade order; the one deciding about skipping is the root's exactly when the root comes first |
| CascadeReboots.RunArmsOncePerSubmission | fleetboot/server/app.py:916-938 | over any run the sweeps arm a machine at most once for each submission that means to reboot it |
| CascadeReboots.SweptRebootsBounded | fleetboot/server/app.py:916-938 | when nothing but a build run's sweeps raises a machine's signal, no more of its boots are ended by it than there are submissions meaning to reboot it, plus one already under way |
| CascadeReboots.OneBootPerCascade | fleetboot/server/app.py:916-938 | one cascade ends at most one boot of a machine whose image went stale and none of any other machine |
| Reservations.SoundNext | fleetboot/server/registry.py:488-865 | after every single statement: one unreleased reservation per machine, every reservation names an enrolled machine, every ending fits its cause, every machine held or released to the pool |
| Reservations.ReapEndsOnlyExpired | fleetboot/server/registry.py:844-865 | the reaper's update, which names only the machine, ends its expired lease and nothing else |
| Reservations.ExpiresIff | fleetboot/server/registry.py:718-749 | a lease given out or renewed ever expires exactly when its end can still be told, and is active for good otherwise |
| Reservations.RunsOut | fleetboot/server/registry.py:718-749 | a lease given out or renewed is active at every instant before its end and expired from then on, or never expires where the end cannot be told |
| Reservations.LastInstantIs | fleetboot/server/registry.py:718-726 | the last instant that can be told is the last second of the year 9999 in the Gregorian calendar |
| Reservations.ReaperNeedsIndex | fleetboot/server/registry.py:133-137 | without the index that update can end a permanent hold |
| ReservationRuns.RunRespectsIndex | fleetboot/server/registry.py:133-137 | in no run does an INSERT, the migration's included, meet an unreleased reservation of its machine or another row for it |
| ReservationRuns.RunSound | fleetboot/server/registry.py:488-865 | every reachable state, between any two statements, satisfies the invariant |
| ReservationRuns.FateOnlyAdvances | fleetboot/server/registry.py:670-865 | over any run a reservation goes from unwritten to live to ended once to removed, never back and never to a second ending |
| ReservationRuns.EndedByStatement | fleetboot/server/registry.py:627-865 | every ending is due to one statement of that cause for that machine at that time, which found it live |
| ReservationRuns.RunComplete | fleetboot/server/registry.py:670-865 | every id ever given out is live, ended or removed: none is lost |
| ReservationRuns.LeaseIsExclusive | fleetboot/server/registry.py:627-749 | until its current expiry a lease keeps its holder and nobody is given another lease of the machine, unless that machine is released, pinned or removed |
| ReservationRuns.HoldIsUntouchable | fleetboot/server/registry.py:670-865 | no run of reserve, release, renew, reap and ticks changes a permanent hold or its machine's row |
| ReservationRuns.LeasedOnlyFromPool | fleetboot/server/registry.py:828-842 | a machine is leased only if its hold was released to the pool after it was last enrolled, pinned, migrated or removed |
| ReservationRuns.LeasedAgainIff | fleetboot/server/registry.py:670-732 | a machine without a lease at one moment is leased at a later one exactly when a `reserve` in between wrote it a lease that is still live |
| ReservationRuns.MayBeLeased | fleetboot/server/registry.py:670-732 | whenever the lock is free, an enrolled machine without an active hold can be leased next |
| ReservationRuns.LeasedAfterReap | fleetboot/server/reservation_reaper.py:42-58 | a run in which a reaped machine is leased again before it is powered off |
| ReservationRuns.HoldLasts | fleetboot/server/registry.py:789-842 | a permanent hold lasts until its machine is pinned again, released to the pool or removed |
| ReservationRuns.RemovedBetween | fleetboot/server/registry.py:1294-1323 | only its removal takes an enrolled machine out of the table |
| LeaseSweeps.ReapedCoincide | fleetboot/server/registry.py:844-865 | right after a reap, unreleased and active coincide at the reap's instant |
| LeaseSweeps.ReapStep | fleetboot/server/registry.py:855-864 | each update of the sweep finds its lease still expired and ends that one only |
| LeaseSweeps.FreedStep | fleetboot/server/registry.py:774-786 | a MAC is reported freed exactly when its update ended a lease, and at most once |
| LeaseSweeps.ClaimStep | fleetboot/server/registry.py:716-730 | claiming a machine ends only its expired lease and adds one lease with the expiry asked for |
| LeaseSweeps.StillAvailable | fleetboot/server/registry.py:706-731 | a candidate is still available when its turn comes, however long the others took |
| MachineRegistry.Registry.constructor | fleetboot/server/registry.py:445-478 | a database that predates reservations, about to be migrated |
| MachineRegistry.Registry.PinExistingMachinesOnce | fleetboot/server/registry.py:264-299 | the first time, every machine without an unreleased reservation gets a permanent hold as it stands and nothing else is written; afterwards nothing happens; a crash may come before the flag is set |
| MachineRegistry.MigratesOnce | fleetboot/server/registry.py:280-299 | migrating again, as after a crash before the flag was set, writes nothing |
| MachineRegistry.Registry.Enroll | fleetboot/server/registry.py:488-560 | when the lock is dropped a new machine has one permanent hold, or a re-enrolled one a new row but for the carried columns and its reservations as they were; returns the row looked up after that, and fails to only if the machine was removed meanwhile; a bad scratch mode changes nothing |
| MachineRegistry.Registry.SetProfile | fleetboot/server/registry.py:596-619 | an empty profile is refused; true exactly for an enrolled machine, of which only the profile changes |
| MachineRegistry.Registry.ActiveReservation | fleetboot/server/registry.py:645-655 | the machine's active reservation, which is the only one, or None exactly when there is none |
| MachineRegistry.Registry.AllActiveReservations | fleetboot/server/registry.py:657-664 | exactly the machines with an active hold, each with that hold |
| MachineRegistry.Registry.Reserve | fleetboot/server/registry.py:670-732 | when the lock is dropped the first `count` by MAC of the machines without an active hold and of the architecture asked for, by whatever spelling, or all of them if there are fewer, are leased for the time given and switched, and only expired leases have ended; returns the rows found by looking each of them up after that, with other threads in between: all of them, in order, unless one was removed; the errors in their order |
| MachineRegistry.Registry.Renew | fleetboot/server/registry.py:734-749 | true exactly when there was an active lease, which then runs for the time given from now and is otherwise as before; nothing else changes, and nothing at all otherwise |
| MachineRegistry.Registry.ReleaseLeases | fleetboot/server/registry.py:751-787 | the MACs returned are those whose lease ended, once each; no target keeps an active lease; by holder, only leases that holder had active are ended and only their machines returned; permanent holds unchanged |
| MachineRegistry.Registry.Pin | fleetboot/server/registry.py:789-826 | when the lock is dropped whatever hold there was has ended and one permanent hold is written; returns the hold read after that, with other threads in between: the one written unless the machine was pinned again, released to the pool or removed meanwhile; None for an unknown machine |
| MachineRegistry.Registry.SetPendingReboot | fleetboot/server/registry.py:867-885 | sets the signal of an existing machine's row and changes nothing else |
| MachineRegistry.Registry.ReleaseHold | fleetboot/server/registry.py:828-842 | true exactly when there was a permanent hold, which is ended |
| MachineRegistry.Registry.ReapExpired | fleetboot/server/registry.py:844-865 | returns each machine whose lease had expired once; ends exactly those leases |
| MachineRegistry.Registry.Remove | fleetboot/server/registry.py:1294-1323 | true exactly for an enrolled machine; its row and its reservations are gone, all others stay |
| ReservationReaper.Reaper.ReapOnce | fleetboot/server/reservation_reaper.py:42-58 | with other threads running before each attempt: one power-off attempt per reaped MAC, in order; those that raise are warned about and stop nothing; by then the machine is leased exactly if a `reserve` since the reap wrote it a lease that is still live |
| BugReportFormat.RenderReport | fleetboot/server/bug_reports.py:249-259 | the loop over the fields renders the text the round trip is proved of |
| BugReportFormat.ParseReport | fleetboot/server/bug_reports.py:262-288 | the loop over the head lines reads what the round trip is proved of |
| BugReportFormat.RenderedText | fleetboot/server/bug_reports.py:249-259 | the file part by part: title, warning, one line for each field that is not empty, description and note |
| BugReportRoundTrip.PartitionAt | fleetboot/server/bug_reports.py:264 | a head none of whose later lines starts with `#` is cut at our description heading, whatever follows |
| BugReportRoundTrip.LastHeading | fleetboot/server/bug_reports.py:271-275 | the last resolution heading of a resolved report is ours exactly when the note does not contain one, and never overlaps ours |
| BugReportRoundTrip.ParseIs | fleetboot/server/bug_reports.py:249-288 | every field of the head reads back whatever the free text says |
| BugReportRoundTrip.ReadBack | fleetboot/server/bug_reports.py:249-288 | a stored report reads back with its newlines normalised exactly when its note, so normalised, does not contain the heading |
| BugReportRoundTrip.RoundTripIff | fleetboot/server/bug_reports.py:249-288 | the exact condition for parsing a rendered report to give it back |
| BugReportRoundTrip.SomeReportsDoNotReadBack | fleetboot/server/bug_reports.py:249-288 | a report whose note contains the heading and one whose description has a carriage return, neither of which reads back |
| BugReportStore.RefusedFor | fleetboot/server/bug_reports.py:125-144 | which submissions are refused for what, and that all others are accepted |
| BugReportStore.Store.File | fleetboot/server/bug_reports.py:114-164 | the refusals in their order; else one new open file, holding the title and the labels with exactly the words given, one space apart, and the description without the spaces around it |
| BugReportStore.Store.Get | fleetboot/server/bug_reports.py:175-214 | reads what was filed: in full while open; once resolved, the head always and the rest exactly when the note does not imitate the heading; no such report exactly for an unknown id |
| BugReportStore.Store.ResolveReport | fleetboot/server/bug_reports.py:178-203 | moves an open report to the resolved ones with its stamped note added; otherwise changes nothing and says why: no text, too much, already resolved or no such report |
| BugReportStore.StampedNoteImitates | fleetboot/server/bug_reports.py:193-199 | the stamp put before the note does not matter: the caller's text alone decides |
| BugReportStore.ResolvedReads | fleetboot/server/bug_reports.py:178-203 | title, severity, labels and token read back after file-then-resolve for every note |
| Text.StripIs | fleetboot/server/bug_reports.py:132 | stripping takes off the spaces at either end and nothing else |
| Text.WordsSplitAt | fleetboot/server/bug_reports.py:291-292 | a space of any kind ends a word wherever it stands |
| Text.SingleLineKeepsWords | fleetboot/server/bug_reports.py:291-292 | a single-lined text has the words it had, in their order |
| Text.SingleLineIff | fleetboot/server/bug_reports.py:291-292 | it stays as it is exactly when it is one line of words one space apart |
| Text.SingleLineIsOneLine | fleetboot/server/bug_reports.py:291-292 | a single-lined text has no line break, no surrounding space and only plain spaces inside |
| WakeFrames.HasFrameIff | image/profiles/trailcam-test/overlay/opt/tcam/wake.py:36-48 | a frame is recognised exactly when the buffer starts with the encoding of one |
| WakeFrames.LittleEndian | image/profiles/trailcam-test/overlay/opt/tcam/wake.py:42-43 | ids and lengths are read least byte first |
| WakeFrames.WakeCommand | image/profiles/trailcam-test/overlay/opt/tcam/wake.py:28 | the wake command is one frame of id 1 without a payload |
| WakeFrames.ParseFrames | image/profiles/trailcam-test/overlay/opt/tcam/wake.py:33-50 | the loop yields the frames of the recursive reading and the count consumed |
| WakeFrames.Receiver.Retrim | image/profiles/trailcam-test/overlay/opt/tcam/wake.py:123-131 | leaves the buffer without its complete leading frames |
| WakeFrames.Receiver.OnNotify | image/profiles/trailcam-test/overlay/opt/tcam/wake.py:84-93 | hands over the frames of the extended buffer, in order, and trims it |
| WakeFrames.Receiver.OnNotifications | image/profiles/trailcam-test/overlay/opt/tcam/wake.py:84-93 | a run of notifications hands over and leaves what the theorems below speak of |
| WakeFrames.ParseSplits | image/profiles/trailcam-test/overlay/opt/tcam/wake.py:33-50 | for any buffer, parsing gives the frames trimming drops and then the frames of the rest |
| WakeFrames.EncodedFrame | image/profiles/trailcam-test/overlay/opt/tcam/wake.py:33-50 | an encoded frame followed by anything parses to that frame and leaves the rest |
| WakeFrames.CleanStreamDelivered | image/profiles/trailcam-test/overlay/opt/tcam/wake.py:84-131 | a stream of frames cut anywhere is handed over once each, in order, as one parse of all bytes would; what stays is a strict prefix of the next frame |
| WakeFrames.ParsesIff | image/profiles/trailcam-test/overlay/opt/tcam/wake.py:33-50 | the parser finds a frame exactly when a whole frame stands somewhere before which no frame starts |
| WakeFrames.LeftStartsWithStray | image/profiles/trailcam-test/overlay/opt/tcam/wake.py:123-131 | a whole frame left in the trimmed buffer stands behind a byte at which no frame starts |
| WakeFrames.DeliveredOnceIff | image/profiles/trailcam-test/overlay/opt/tcam/wake.py:84-131 | on any bytes every frame of one parse is handed over, in that order, and nothing else is exactly when no notification but the last leaves a whole frame standing in the trimmed buffer |
| WakeFrames.StrayByteDeliversTwice | image/profiles/trailcam-test/overlay/opt/tcam/wake.py:123-131 | one stray byte before a frame, and the next notification hands the frame over a second time |
| WakeFrames.ConsumedIsRight | image/profiles/trailcam-test/overlay/opt/tcam/wake.py:36-50 | parsing on after dropping the count the parser reports gives the frames one parse of all the bytes would |
| WakeFrames.CountDeliversOnce | image/profiles/trailcam-test/overlay/opt/tcam/wake.py:33-50 | a handler trimming by that count would hand every frame over once on any bytes and any run of notifications |
| GrubTemplate.TrailingSlash | fleetboot/tftp_glue/grub_template.py:77-189 | the config is the same with a slash added to the base URL exactly when rendering fails or the URL does not end in a segment with parameters |
| GrubTemplate.SlashOnBase | fleetboot/tftp_glue/grub_template.py:102-107 | the same of the server base the URL is reduced to |
| GrubTemplate.HttpUrl | fleetboot/tftp_glue/grub_template.py:77-103 | how an ordinary base URL, its scheme in any case, is taken apart into scheme, host and the rest |
| GrubTemplate.BaseOfUrl | fleetboot/tftp_glue/grub_template.py:77-107 | of an ordinary base URL scheme, host and path are kept; slashes at its end, a query and a fragment are not |
| GrubTemplate.CleanIs | fleetboot/tftp_glue/grub_template.py:77 | what the URL parser strips off in front and takes out anywhere |
| GrubTemplate.ImageMatches | fleetboot/tftp_glue/grub_template.py:27-45 | the architectures there are images for, and that the image is for the same architecture |
| GrubTemplate.RendersIff | fleetboot/tftp_glue/grub_template.py:34-91 | rendering fails exactly for a URL that is not http(s), an architecture without images or a profile name no image can have, in that order |
| GrubTemplate.RendersImage | fleetboot/tftp_glue/grub_template.py:85-189 | a rendered config names the machine, sets the serial console up where asked, loads the kernel with the command line that fetches the image of the machine's architecture, then the initrd, and boots, with the events between |
| GrubTemplate.SlashChangesConfig | fleetboot/tftp_glue/grub_template.py:77-189 | the config for http://h/a;v=1 differs from the one with a slash added |
| ReporterCmdline.ParseCmdline | fleetboot/reporter/cmdline.py:42-59 | the loop finds the last value of each key, and reports exactly the keys that are missing |
| ReporterCmdline.ReadingMeans | fleetboot/reporter/cmdline.py:42-59 | each value is that of the last word that sets its key; the keys reported missing are those no word sets |
| ReporterCmdline.RoundTrip | fleetboot/tftp_glue/grub_template.py:102-134 | for a token and a cleaned base URL without whitespace the reporter reads back the normalised server URL and the token, with any words put in front of ours |
| ReporterCmdline.ConfigRoundTrip | fleetboot/tftp_glue/grub_template.py:102-189 | the kernel line is a whole line of the rendered config and gives the reporter its settings, for every machine, profile, scratch mode and console |
| SoftReboot.DebtNext | fleetboot/server/app.py:455-501 | only arming allows one more boot to be ended by the signal |
| SoftReboot.NoRebootLoop | fleetboot/server/app.py:455-501 | between any two moments of any run no more boots are ended by the signal than it was raised, plus one already under way |
| SoftReboot.EndingIsTriggered | fleetboot/reporter/report.py:443-459 | a machine is only ever ending its boot because a reporter of that boot started a reboot |
| SoftReboot.ArmedEveryBoot | fleetboot/server/app.py:455-501 | the bound is met for every number of boots: a machine armed in each of them ends each by the signal |
| SoftReboot.MintEndsIt | fleetboot/server/app.py:493-501 | after a mint has lowered the signal no boot is ended by it until it is raised again |
| SoftReboot.ArmedIsTold | fleetboot/server/app.py:455-468 | until something lowers it, every report of an armed machine is answered with the signal |
| StatusServer.Server.MintSession | fleetboot/server/app.py:475-501 | stores the session and lowers the signal; the machine's run goes on by these steps and no other run does |
| StatusServer.Server.PostStatus | fleetboot/server/app.py:386-468 | unknown tokens are refused and nothing logged; else the report is logged and answered with the signal as the machine's run has it |
| StatusServer.Server.SetPendingReboot | fleetboot/server/registry.py:867-885 | raises or lowers the signal of an existing row and of no other, as a step of that machine's run |
| StatusServer.Server.EnrollMachine | fleetboot/server/registry.py:520-556 | a new or replaced row has its signal lowered |
| StatusServer.Server.RemoveMachine | fleetboot/server/registry.py:1303-1322 | the machine's events, sessions and row are gone; other machines' runs stay as they are |
| StatusServer.Server.NeverLoops | fleetboot/server/app.py:455-501 | in every machine's run as the server has recorded it, no more boots are ended by the signal than the server raised it |
| StatusServer.Server.QuietUntilArmed | fleetboot/server/app.py:493-501 | in that run no boot ends by the signal between a mint and the next time it is raised |
| StatusServer.OneSoftReboot | fleetboot/server/app.py:455-501 | a server and a machine that do come to one reboot for one arming |
| StatusReporter.Reporter.ReportState | fleetboot/reporter/report.py:344-459 | against the server itself, with losses and everything else interleaved: fails exactly when its own post is not accepted; the signal it acts on is the one the machine's run had when the server answered it; what it posts, remembers and starts, in order; told to reboot and able to, the machine is rebooting |
| StatusReporter.Reporter.Report | fleetboot/reporter/report.py:344-459 | the same of a whole top-level report, from the new report to its end |
| StatusReporter.Reporter.Post | fleetboot/reporter/report.py:390-406 | one POST, answered by the server, refused or lost in either direction, moves the report on accordingly |
| StatusReporter.EventsAre | fleetboot/reporter/report.py:390-459 | everything a report does, one by one, by the two replies and what becomes of the commands |
| StatusReporter.AtMostTwoPosts | fleetboot/reporter/report.py:344-459 | one or two posts, two exactly when an accepted reply raised the signal |
| StatusReporter.RebootsIff | fleetboot/reporter/report.py:422-459 | a reboot is started exactly then, whatever becomes of the acknowledgement and only after it was posted |
| StatusReporter.HeartbeatState | fleetboot/reporter/report.py:403-442 | the state left for the heartbeat is that of the last accepted post |
| BootLog.Log.LogBootEvent | fleetboot/server/registry.py:1068-1106 | bumps the machine's latest row exactly when that has the state and the detail reported, a missing detail being an empty one, and adds a row otherwise; every machine's rows still are its report stream with equal neighbours folded; a log in time order stays so exactly when the report inserts or bumps a row with no earlier time behind it |
| BootLog.Log.RemoveEvents | fleetboot/server/registry.py:1304-1306 | forgets one machine's events and leaves the others' part of the log faithful |
| BootLog.Log.RecentBootEvents | fleetboot/server/registry.py:1108-1139 | at most the limit of the machine's or the fleet's rows, newest first, a row being left out only where that many newer ones are shown; the view of one machine is its rows in reverse insertion order, that of the fleet is exactly when the log is in time order |
| BootLog.RunsAre | fleetboot/server/registry.py:1086-1106 | each row carries the text of the first report of its run and the time of the last |
| BootLog.StartsAreChanges | fleetboot/server/registry.py:1091-1095 | a run starts exactly where a report differs from the one before it in state or detail, a missing detail being an empty one |
| BootLog.RunIsConstant | fleetboot/server/registry.py:1091-1095 | within a run every report has the state and the detail of the first |
| BootLog.RepeatsIff | fleetboot/server/registry.py:1086-1095 | a report repeats the log exactly when the machine's latest row has its state and its detail |
| BootLog.NewestFirstSorts | fleetboot/server/registry.py:1115-1129 | the view holds every row once, newest first |
| BootLog.AscendingReverses | fleetboot/server/registry.py:1116-1122 | sorting rows whose times follow their ids is reversing them |
| BootLog.FleetViewIff | fleetboot/server/registry.py:1123-1129 | the fleet's view is in reverse insertion order exactly when no row is older than one inserted before it |
| BootLog.BumpInTimeOrder | fleetboot/server/registry.py:1096-1100 | bumping a row keeps a log in time order exactly when no row after it is earlier than now |
| BootLog.HeartbeatBreaksOrder | fleetboot/server/registry.py:1123-1129 | for any two machines: one reports, then the other, then the first again, and the fleet's view is not in insertion order |

## Left out

- Files: the text of `parent` and `extra-packages.list` files (stripping, comments), names that are paths, symbolic links and file-directory clashes in overlays, the concatenation of setup scripts; a profile tree is a map.
- Python's recursion limit on very deep profile trees.
- BuildRunner.RunnerIsSafe: SKIPPED is published before its end time is stamped, so for skipped jobs the theorem says exactly that.
- The lock that stays held when computing the cascade raises; build logs and the `suite` file; the threads themselves, whose interleavings are the steps of the machine.
- A crash of the server between two autocommit statements, but for the two of the migration: the statement runs always finish the method they belong to.
- Text that cannot be encoded: JSON admits lone surrogates, on which writing a bug report raises and leaves an empty file that does not parse.
- Purposes, MAC normalisation and the machine columns that reservations do not read.
- MachineRegistry.Registry.Renew: sets the expiry to now plus the time given, so it can shorten a lease, as the source does.
- MachineRegistry.Registry.ReleaseLeases: with machines named it does not look at the holder, as the source does not.
- ReservationReaper.Reaper.ReapOnce: an attempt is one moment of the run; the power layer's own commands and their duration are not modelled.
- ImageLayers.MergedPackagesInherit: keeps membership, not relative order: an entry may move forward in a descendant's list.
- Bug reports: file names and slugs, the listing, colliding ids, files edited by hand; the id, the time and the token are given.
- The Unicode tables: `\w` outside ASCII in field names, which no field has; the characters beyond ASCII that count as alphanumeric in profile names are a parameter.
- GrubTemplate.TrailingSlash: bracketed hosts and hosts in Unicode, which the URL parser checks and may refuse, are not modelled.
- An exception raised inside the notification handler by a reply that is not a JSON object.
- The session store's ranking of states, addresses, hostnames, diagnostics and hardware of a status report.
- StatusReporter.Reporter.ReportState: replies whose JSON body is not an object, and exceptions other than a failed or refused post, are not modelled; neither is a boot that ends while the report runs, which ends the reporter with it.
- StatusServer.Server.PostStatus: the 409 reply, for which `fleetboot/server/boot_sessions.py` no longer has a cause.
- SoftReboot.NoRebootLoop: assumes a machine boots only with a config whose mint was answered, as the renderer does.
- Renamed boot states of an older database.
