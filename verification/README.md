# SolarOS, modelled and proved in Dafny

SolarOS is an operating environment for ESP32 boards. This project models the five parts of it whose behaviour is decided by
logic rather than by hardware, and proves what they are for. `dafny verify dfyconfig.toml` checks everything.

**Jobs** (`Job*.dfy`, `Scheduler.dfy`). `src/solar_os_jobs.c` starts, stops, ticks, completes, registers and unregisters jobs
from several tasks at once. Each region between `portENTER_CRITICAL` and `portEXIT_CRITICAL` is one atomic step; callbacks,
waits and memory calls lie between steps. `JobTable` says what each region does to a slot, `JobSections` what it does to the
table, `JobRegistry` writes the regions as methods of a class that updates the slot array in place, and `JobProtocol`
interleaves any number of calls with the one ticker. `JobReplay` ties the two: every step of the protocol changes the table as
one section does, so a registry that performs the sections of a run holds the tables of the run. The invariants are in
`JobInvariant` (who holds a job's lifecycle), `JobMemory` (who owns each queued-start block) and `JobCounts` (what the waiting
counter counts); `JobRuns`, `JobAccounts` and `JobWaits` draw the conclusions for all runs. `JobTicks` says when a job is
dispatched, `JobDecisions` why a job comes to run, wait, fail or stop, and `JobNames` that a job is found under its name. Fields
named `track`, `owner` and `lost` are history that no step reads.

**Display Link** (`CellCodec`, `Receive`, `Rle`, `Frames`, `Diff`, `FramePlan`, `Screen`, `FrameSender`, `Window`, `WindowLink`,
`UploadLink`, `FrameLink`). The sender of `scripts/dlp_image.py`: cells, the resynchronising reader, run lengths, changed
rectangles, banding, the credit window, and their composition: at every moment of an upload the display shows the new frame, or
still the one before, never a mixture. The checksum is a parameter. The receiver is what the client relies on: it applies only
the next expected push and never acknowledges more than it has applied (`Window`), and it takes rectangles complete and in order
(`Screen`).

**Packages** (`DepGraph`, `CycleCheck`, `FlavorBuild`, `Selection`). The worklists and loops of
`scripts/generate_flavor_config.py` and `scripts/flavor_config.py` compute least closed supersets and greatest closed subsets of
a dependency graph, and the two pipelines agree, with the exact exceptions below. A dictionary of flags is modelled as the set
of the names that are True.

**Images** (`Scaling`, `Pixels`, `JpegTiles`, `JpegDecode`, `JpegStream`, `GifThinning`). The scaling arithmetic of
`components/stb_image`: fits, tilings, running quotients, raster writes byte by byte, when two of the three decoding paths do
the same job, and the thinning of animations. The decoders themselves are not modelled: rasters are compared for one decoded
picture. `Arith` holds the product and quotient facts that these and `Frames` need.

**Keymaps** (`Overlays`, `Keymap`). The sparse writer and the merging reader of `scripts/solaros_keymap.py`.

Findings about the code itself:

- The waiting counter of `src/solar_os_task.c` is exact only while calls do not overlap. The count is taken after a queued start
  is published, so a stop on another task can finish that start before it is counted, and the decrement that finds zero is
  dropped. `JobWaits.CrossedCallsMiscount` gives the run; `JobWaits.WaitingAtRest` says exactly how far the count is off.
- The dispatch counter of a job wraps. A job that has been dispatched a whole multiple of 2^32 times since it was started counts
  as never dispatched, and the next tick dispatches it whether or not its interval is over. `JobTicks.EveryDispatchIsDue` has
  this as its only exception.
- A flavor file writes single packages into a table whose keys are tried as group names first, so a package that shares its name
  with a group is lost and the group of that name is switched on instead. `Selection.NamesCanClash` gives a catalogue and a
  request where the build leaves out what was asked for and builds something else. `Selection.BuilderAgreesExactly` says when
  the two pipelines agree, on every board: exactly when what the board can have of the lost packages' needs is wanted for
  another reason, and likewise what it can have of the members of the groups switched on; `Selection.RenderedStart` and
  `Selection.RequestedRoundTrip` give the exact conditions for what the file asks for and for opening it again. The repository's
  own catalogue has 24 shared names; each of those groups has just the package of its name, which is harmless
  (`Selection.OwnNamesAreHarmless`).
- The portable JPEG path and the fast ones do not always compute the same size: 1000 by 667 pixels in a box of 320 by 213 give
  320 by 213 on the one and 319 by 213 on the others (`Scaling.FitsDifferHere`). `Scaling.FitsCompared` gives all the cases, and
  `JpegStream.SameJobs` says exactly when two paths scale the same picture to the same size.

## Model

| member | source | states |
|---|---|---|
| JobRuns.EveryRunHasOneHolder | src/solar_os_jobs.c:598-617 | in every interleaving each job's lifecycle has at most one holder, and the busy flag is up exactly while there is one |
| JobRuns.EveryRunKeepsCallbacksApart | src/solar_os_jobs.c:618-627 | while a start or stop callback of a job runs, its reference count is zero, no event callback of it runs, and no other start or stop callback of it |
| JobRuns.TickerNeverWaitsForItself | src/solar_os_jobs.c:787-796 | a call on the ticker's own task never finds a reference to wait for |
| JobInvariant.StepKeepsLifecycles | src/solar_os_jobs.c:539-1033 | every step of every call, of the ticker, of completion, registration and shutdown keeps the ownership of lifecycles |
| JobInvariant.HolderRechecks | src/solar_os_jobs.c:676-696 | the holder's own re-check of generation and busy flag before it publishes always succeeds |
| JobInvariant.GenStep | src/solar_os_jobs.c:177-184 | the generation after one more bump, skipping zero at the wrap |
| JobMemory.StepKeepsOwnership | src/solar_os_jobs.c:186-213 | every step keeps the agreement between held blocks and their one owner, and never frees or reads a block it does not own |
| JobMemory.EveryAccessIsLive | src/solar_os_jobs.c:205-213 | a block that a step uses or frees is allocated, and one that it is given was free |
| JobWaits.EveryRunOwnsItsBlocks | src/solar_os_jobs.c:205-213 | in every run each allocated queued-start block has exactly one owner and nothing unallocated is held |
| JobCounts.StepTally | src/solar_os_task.c:366-385 | every step moves the number of queued jobs and outstanding notes by what the counters are told |
| JobCounts.StepKeepsCounted | src/solar_os_task.c:373-385 | a decrement finds zero only while some queued start has been published and not yet counted |
| JobWaits.WaitingAtRest | src/solar_os_task.c:366-385 | between calls, the waiting count is the number of queued jobs plus the dropped decrements, and queued, launched and cancelled starts balance |
| JobWaits.SequentialWaitingIsExact | src/solar_os_jobs.c:631-656 | when calls do not overlap the waiting count is the number of jobs with a pending start |
| JobWaits.CrossedCallsMiscount | src/solar_os_jobs.c:631-656 | overlapping calls can leave the count wrong for good: a run after which nothing is queued and one start still counts as waiting |
| JobAccounts.HistoryIsHonest | src/solar_os_jobs.c:609-617 | the history counts exactly the runs begun, the stop callbacks entered and the completions taken |
| JobAccounts.EveryRunBalances | src/solar_os_jobs.c:770-799 | over every run, runs begun equal stop callbacks plus completions plus one if the job runs or its holder still owes the stop |
| JobAccounts.OwnStopIsDeferred | src/solar_os_jobs.c:770-784 | a stop from inside the job's own callback returns at once and leaves the job marked |
| JobAccounts.DeferralAwaitsCallback | src/solar_os_jobs.c:1001-1012 | a deferred stop is undisturbed until the callback returns, and then it is the ticker's to carry out |
| JobAccounts.InheritedStopCompletes | src/solar_os_jobs.c:1001-1023 | however many other events come before and between, only the ticker's own two steps end an inherited stop, and they leave the job stopped and free |
| JobAccounts.InheritedStopWaits | src/solar_os_jobs.c:1001-1023 | while the ticker carries out an inherited stop, no other event touches the job or moves the ticker |
| JobAccounts.GenerationsRepeat | src/solar_os_jobs.c:177-184 | two bump counts give the same generation only a whole cycle of 2^32 - 1 apart |
| JobAccounts.StaleCompletion | src/solar_os_jobs.c:837-861 | a completion with the generation of some bumps ago is taken exactly when the job may be completed and the generations coincide |
| JobAccounts.LateCompletionIgnored | src/solar_os_jobs.c:851-855 | within fewer than 2^32 - 1 bumps a late completion changes nothing |
| JobTicks.EveryDispatchIsDue | src/solar_os_jobs.c:967-985 | in every run, when the ticker comes to a job it dispatches it exactly if it runs, is free, has an event callback, and either has not been dispatched since it was last started or its interval has passed since the last dispatch |
| JobTicks.BeatsAreTracked | src/solar_os_jobs.c:1013-1019 | the counter and time of a slot agree with the dispatches that the run has seen since the last restart, modulo 2^32 |
| JobTicks.OnlyTheTickerDispatches | src/solar_os_jobs.c:967-991 | no other event ever enters an event callback |
| JobTicks.WaitsForDispatches | src/solar_os_jobs.c:1060-1074 | the runtime loop wakes for exactly the jobs that the ticker then dispatches |
| JobTicks.EveryPassComesToEveryJob | src/solar_os_jobs.c:957-979 | between the beginning and the end of a pass the ticker comes to every slot in range, whatever else happens meanwhile, and passes over one only while no job is in it |
| JobTicks.PassBegins | src/solar_os_jobs.c:957-958 | a pass is over the slots in use at its beginning |
| JobDecisions.EveryStateHasItsReason | src/solar_os_jobs.c:675-696 | whatever the event: a job comes to run only and always from a start that succeeded, to wait from one that was queued, to fail from one that was answered with an error |
| JobDecisions.EveryStopHasItsReason | src/solar_os_jobs.c:744-799 | a job is stopped only and always by a start or a stop that is not refused, or by a completion of its generation |
| JobDecisions.QueuesWhenShort | src/solar_os_jobs.c:574-585 | a start is queued exactly when memory is short at its preflight, or its callback finds it short although the job has a worker |
| JobDecisions.AdmissionReads | src/solar_os_jobs.c:559-573 | the preflight reads the worker stack of the job of that name, and an unknown name is turned away |
| JobDecisions.CallbackEntered | src/solar_os_jobs.c:633-662 | a start callback is entered exactly by a start that queues nothing, of a job that has one |
| JobDecisions.RetriedWhenPossible | src/solar_os_jobs.c:863-931 | a queued start is retried only while it is still the one that was seen, with memory for it |
| JobDecisions.ShutdownStartsNothing | src/solar_os_jobs.c:541-541 | after a shutdown no start begins and no queued start is picked up |
| JobNames.EveryRunFindsJobs | src/solar_os_jobs.c:305-350 | in every run no two jobs share a name, each is found under its own, and a dynamic job is registered under its descriptor's name with a start callback |
| JobTable.IndexByName | src/solar_os_jobs.c:50-65 | the first slot that carries the name |
| JobTable.FirstFree | src/solar_os_jobs.c:331-347 | the first free dynamic slot |
| JobTable.Trimmed | src/solar_os_jobs.c:394-401 | the scanned range without its trailing free slots |
| JobReplay.StepActs | src/solar_os_jobs.c:539-1033 | every step of the protocol changes the table exactly as one critical section of the registry does |
| JobReplay.RunActs | src/solar_os_jobs.c:539-1033 | the table at the end of any run is what its sections make of the table at the start |
| JobReplay.Replay | src/solar_os_jobs.c:276-1033 | the registry that performs the sections of any run holds the table that the run reaches |
| JobRegistry.InitJobs | src/solar_os_jobs.c:276-303 | initialisation fails exactly when the generated registry has another size than expected, and otherwise gives its static jobs |
| JobRegistry.Registry.constructor | src/solar_os_jobs.c:276-303 | the registry with its static jobs, once the size is right (InitJobs) |
| JobRegistry.Registry.ClaimStart | src/solar_os_jobs.c:589-617 | the claim of a start: refused, or the lifecycle taken and the run begun |
| JobRegistry.Registry.PublishStart | src/solar_os_jobs.c:634-696 | the start is queued or concluded if the claim still holds |
| JobRegistry.Registry.ClaimStop | src/solar_os_jobs.c:744-784 | the claim of a stop, with the cancelled queued start and the deferral |
| JobRegistry.Registry.CompleteStop | src/solar_os_jobs.c:215-228 | the lifecycle is given back if the generation is still the one of the stop |
| JobRegistry.Registry.MarkStopped | src/solar_os_jobs.c:837-861 | an asynchronous completion, without a new generation |
| JobRegistry.Registry.ClaimRetry | src/solar_os_jobs.c:896-907 | a queued start is claimed only if it is still the one that was seen |
| JobRegistry.Registry.PublishRetry | src/solar_os_jobs.c:914-931 | the outcome of a retried start; only a shortage of memory keeps it queued |
| JobRegistry.Registry.BeginEvent | src/solar_os_jobs.c:967-985 | a reference is taken exactly for a running, free job with an event callback whose interval, 25 ms if it names none, is over or that was not dispatched since its start |
| JobRegistry.Registry.EndEvent | src/solar_os_jobs.c:997-1020 | the reference is returned, a deferred stop is inherited with the last one, and the dispatch counts if the job still runs under its generation |
| JobRegistry.Registry.RegisterDynamic | src/solar_os_jobs.c:305-350 | the registration of a dynamic job; refused without a name, a summary or a start callback, under another name than the descriptor's, when the name is taken, or without a free slot |
| JobRegistry.Registry.UnregisterDynamic | src/solar_os_jobs.c:352-403 | the slot is cleared, generation included, and trailing free slots are given up |
| Scheduler.WaitIsExact | src/solar_os_scheduler.c:22-55 | on wrapping clocks a tick is due exactly when its wait is zero, not before its wait is over, and at its end |
| Scheduler.TickStats.TickDue | src/solar_os_scheduler.c:22-46 | due exactly at the first dispatch or when the interval, or its default, has passed on the wrapping clock; a due tick restarts the interval |
| Scheduler.TickStats.TickEnd | src/solar_os_scheduler.c:62-88 | the clamped duration, its maximum and the misses |
| Scheduler.NextTickWait | src/solar_os_jobs.c:1060-1074 | no eligible job is due before the returned wait is over, and one is due at its end if it is short |
| CellCodec.DecodeOfEncode | scripts/dlp_image.py:97-127 | decoding what was encoded gives the cell back, for requests and pushes, fixed and compact |
| CellCodec.EncodeOfDecode | scripts/dlp_image.py:112-127 | an accepted request or push packet is the encoding of its cell, byte for byte |
| CellCodec.DecodeMeans | scripts/dlp_image.py:112-127 | a packet decodes to a cell exactly if it is that cell, laid out byte by byte in one of the two framings, and the cell is legal |
| CellCodec.EncodeMeans | scripts/dlp_image.py:97-109 | a request or push is encoded exactly as it is laid out, in the framing asked for |
| CellCodec.EncodeCell | scripts/dlp_image.py:97-109 | the packet written field by field is the encoding, and bad arguments are refused |
| CellCodec.ValueOfLe | scripts/dlp_image.py:31 | reading a little-endian field gives the number back |
| CellCodec.LeOfValue | scripts/dlp_image.py:31 | writing a number that was read gives the bytes back |
| Receive.FoundIffDecodes | scripts/dlp_image.py:208-235 | a cell is found at the front exactly where some run of bytes decodes, and that run is unique |
| Receive.FrontStable | scripts/dlp_image.py:208-235 | more bytes never change a verdict that has been reached |
| Receive.JunkForever | scripts/dlp_image.py:225-231 | a dropped byte starts no cell, whatever follows |
| Receive.ScanTakesLeftmost | scripts/dlp_image.py:208-235 | the first cell is the leftmost run of bytes that decodes, and the scan goes on right behind it; without cells, what is left over is the end of the stream from the first place where too few bytes were there to tell |
| Receive.FirstAnswer | scripts/dlp_image.py:256-259 | the awaited cell is the first response to the opcode with the sequence number and session |
| Receive.ScanSplits | scripts/dlp_image.py:208-235 | scanning in two parts, with the rest carried over, is scanning at once |
| Receive.SplitsDoNotMatter | scripts/dlp_image.py:232-234 | the cells and the rest depend only on the joined bytes, not on how reads split them |
| Receive.StreamOfPackets | scripts/dlp_image.py:208-235 | a stream of valid packets, both framings mixed, yields exactly their cells |
| Receive.Reader.Align | scripts/dlp_image.py:210-216 | dropping what is before the first marker loses no cell |
| Receive.Reader.Look | scripts/dlp_image.py:217-231 | one turn drops junk, returns the first cell of the scan, or needs more bytes |
| Receive.Reader.Receive | scripts/dlp_image.py:208-235 | what is returned and what stays buffered are together the scan of all bytes read, timeout or not; with time enough, nothing means no cell |
| Receive.Reader.Await | scripts/dlp_image.py:256-267 | the wait for an answer returns the first matching cell of the stream, and with time enough finds it if there is one |
| Rle.ExpandConcat | scripts/dlp_image.py:130-151 | encodings concatenate |
| Rle.RunIsLongest | scripts/dlp_image.py:134-136 | the counted run is a run and the longest, up to 130 |
| Rle.TokenIsRight | scripts/dlp_image.py:133-148 | three equal bytes make a run, the longest up to 130; anything else makes literals up to the first run of three, the end, 128 bytes or the room |
| Rle.OneRightToken | scripts/dlp_image.py:133-148 | the data and the room determine the token |
| Rle.EncodedExpands | scripts/dlp_image.py:130-151 | the tokens of the encoder expand to exactly the bytes they consume |
| Rle.EncodedReaches | scripts/dlp_image.py:133-148 | all bytes are consumed unless the room ran out, and some whenever there is room at all |
| Rle.RleEncode | scripts/dlp_image.py:130-151 | the loops write exactly those tokens: within the capacity, expanding to the consumed bytes, and making progress |
| Frames.Copied | scripts/dlp_image.py:474-477 | painting what was cut out of a frame copies exactly that rectangle of it, partial last byte included |
| Frames.PaintTwice | scripts/dlp_image.py:478-500 | consecutive pieces of data paint what the joined data paints |
| Frames.FrameMeans | scripts/dlp_image.py:403-407 | a frame is admissible exactly if no bit beyond the right edge is set in any row |
| Diff.Columns | scripts/dlp_image.py:159-160 | exactly the differing byte columns of a band, in order |
| Diff.ChangedRects | scripts/dlp_image.py:154-164 | tight rectangles in ascending bands that hold every difference |
| Diff.CoverUnique | scripts/dlp_image.py:154-164 | the two frames determine the rectangles |
| Diff.NothingChanged | scripts/dlp_image.py:154-164 | no rectangles exactly when the frames are equal |
| FramePlan.BandsHold | scripts/dlp_image.py:443-448 | the bands hold exactly what the rectangles hold, and each fits the receiver's buffer |
| FramePlan.SlicesAreFull | scripts/dlp_image.py:443-448 | every band fits the receiver's buffer, and all but the last of a rectangle have as many rows as fit |
| FramePlan.CellForCarries | scripts/dlp_image.py:479-489 | a data cell, raw or compressed by the sender's rule, fits its packet and carries the next bytes, as many as a raw cell would or more |
| FramePlan.CellMeans | scripts/dlp_image.py:480-489 | the next 1024 bytes are compressed exactly if that is wanted and covers more than 208 bytes, or as many in fewer |
| FramePlan.BandCellsCarry | scripts/dlp_image.py:478-500 | the cells carry all of a band in order, and are no more than raw cells would be |
| FramePlan.PlanDraws | scripts/dlp_image.py:472-500 | the commands draw all bands, and are at most the computed cost |
| FramePlan.RawPlan | scripts/dlp_image.py:472-500 | without run lengths the plan is exactly the computed cost, and nothing in it is compressed |
| FramePlan.EncodeBand | scripts/dlp_image.py:478-500 | the loop over a band's data writes exactly its cells |
| FramePlan.EncodeBands | scripts/dlp_image.py:472-500 | the loop over the bands writes exactly the planned commands |
| Screen.ReplayBands | scripts/dlp_image.py:472-500 | after the commands of the bands the canvas is the frame where the bands are and untouched elsewhere |
| Screen.UploadShows | scripts/dlp_image.py:427-509 | an upload is accepted command by command and leaves exactly the frame, from any canvas if it is full |
| FrameSender.PaddingClean | scripts/dlp_image.py:404-407 | the test succeeds exactly if no bit beyond the right edge is set |
| FrameSender.Sender.Choose | scripts/dlp_image.py:429-455 | a full frame without a frame to compare with or without the capability to preserve content; otherwise the changed rectangles exactly if they cost less than the whole frame; the display is asked exactly if nothing changed and it can tell, and nothing is sent exactly if it then has the frame |
| FrameSender.Sender.Encode | scripts/dlp_image.py:456-503 | the commands are an upload of the rectangles within its cost |
| FrameSender.Sender.UploadFrame | scripts/dlp_image.py:427-531 | success means that the display shows the frame, at no more cells than a full upload; a receiver that cannot preserve content is sent full frames only, and one without run lengths none of them; a display that lost its content gets a full frame or an error; a frame number beyond 2^32 - 1 or a failing question for the content raises |
| FrameSender.Sender.Reconnect | scripts/dlp_image.py:270-348 | everything kept is forgotten first; a window is in force only if it was negotiated; the descriptor's values are taken over once read |
| FrameSender.Sender.Recover | scripts/dlp_image.py:409-419 | after a rejected window a new session shows the frame, unless connecting fails or the geometry has changed |
| FrameSender.Sender.SendFrame | scripts/dlp_image.py:395-425 | it returns only with this frame shown, whatever faults occur, and remembers a frame only while the display shows it; after an exception it is shut exactly when a window was in force then, so not after a reconnect that failed; a lost display is recovered by reconnecting, and no other failure reconnects |
| Window.PushReceived | scripts/dlp_image.py:389-391 | the receiver reads back the number and the content of a push |
| Window.ForeignIgnored | scripts/dlp_image.py:389-391 | a packet of another session or boot, or of another kind, is no push to the receiver |
| Window.NextKeeps | scripts/dlp_image.py:350-393 | issuing, sending, delivering and acknowledging keep the window and the order |
| Window.EveryRunInOrder | scripts/dlp_image.py:350-393 | over a link that drops, repeats and reorders, applied uploads are a prefix of the issued ones; the kept packets are exactly ack + 1 to sent, within the window; nothing kept means all applied |
| Window.ResendCompletes | scripts/dlp_image.py:378-380 | if the kept packets arrive in order, the receiver has everything, wherever it was |
| WindowLink.Link.Command | scripts/dlp_image.py:353-355 | an exchange only advances the receiver, and completes it if just the kept packets arrive |
| WindowLink.Link.Report | scripts/dlp_image.py:356-377 | which reports are malformed, and the order of the errors, field by field; done means that everything is applied; more acknowledged than kept cannot happen; an error leaves the kept packets alone |
| WindowLink.Link.Turn | scripts/dlp_image.py:352-377 | one exchange with its report: when the flush ends, goes on, or fails |
| WindowLink.Link.Flush | scripts/dlp_image.py:350-380 | a normal return means that everything issued is applied and, for a frame, that the receiver reported its presentation; it goes on after a report that leaves something open, times out only when an answer is missing or no exchange is left, and ends with the first complete one |
| WindowLink.Link.MakeRoom | scripts/dlp_image.py:385-386 | a full window is flushed, any other left alone |
| WindowLink.Link.UploadCommand | scripts/dlp_image.py:382-393 | one more push in order, without any exchange while the window has room; a full window is flushed first; credit is refused only at the last sequence number; behind a PRESENT everything is applied and the frame was reported as presented; it fails only through a flush, and not if that is answered in full |
| UploadLink.UnpackPack | scripts/dlp_image.py:461-503 | the payload of every command that fits reads back as the command |
| UploadLink.PackMeans | scripts/dlp_image.py:461-503 | every command is packed byte by byte as its opcode's layout says |
| UploadLink.UploadSendable | scripts/dlp_image.py:427-503 | every planned command fits its packet and its field widths |
| UploadLink.NeverTorn | scripts/dlp_image.py:427-509 | after any number of an upload's commands the display shows the old frame, after all of them the new one, and it refuses none |
| UploadLink.EndToEnd | scripts/dlp_image.py:350-531 | at every moment of every run of the window, during issuing too, a display past the earlier uploads shows the old frame or the new one, and exactly the new one once all is issued and nothing kept |
| FrameLink.SendCommands | scripts/dlp_image.py:382-393 | the commands are issued in order, a prefix of them when one fails, which needs a full window, a PRESENT or the last sequence number; a normal end behind a PRESENT leaves nothing unacknowledged |
| FrameLink.UploadOverWindow | scripts/dlp_image.py:427-509 | however an upload over the window ends, the display shows the old frame or the new one; a normal end means exactly the new one |
| DepGraph.ClosureIsLeast | scripts/flavor_config.py:58-67 | the closure is the least closed superset |
| DepGraph.ClosureOfUnion | scripts/generate_flavor_config.py:370-385 | the closure of a union is the union of the closures |
| DepGraph.CoreIsGreatest | scripts/generate_flavor_config.py:413-421 | the core is the greatest closed subset |
| DepGraph.CoreByClosure | scripts/generate_flavor_config.py:413-421 | a package stays exactly when all that it needs is there |
| DepGraph.CoreTwice | scripts/generate_flavor_config.py:645-656 | two prunings in either order are one pruning by both conditions |
| DepGraph.DependencyClosure | scripts/flavor_config.py:58-67 | the worklist computes the closure |
| CycleCheck.Search.Visit | scripts/generate_flavor_config.py:191-202 | a visit ends with the package clear of cycles, or reports a real one |
| CycleCheck.Search.Check | scripts/generate_flavor_config.py:188-205 | a cycle is reported exactly when there is one, and the path is one |
| FlavorBuild.Saturate | scripts/generate_flavor_config.py:329-341 | the least closure, refused exactly when it needs an explicitly disabled package |
| FlavorBuild.LoadFlavor | scripts/generate_flavor_config.py:268-350 | the closure of what the flavor asks for, or the first complaint; and the groups that are on or triggered |
| FlavorBuild.LoadHonours | scripts/generate_flavor_config.py:302-341 | what is loaded is the least closed selection with everything that the flavor asks for, group by group and package by package, and has nothing that it turns off |
| FlavorBuild.LoadRefuses | scripts/generate_flavor_config.py:329-341 | a flavor is refused for what it turns off only if every selection that honours it has something of that |
| FlavorBuild.LoadComplains | scripts/generate_flavor_config.py:283-325 | exactly when a group or a package is unknown or an immutable member is turned off, each before the next |
| FlavorBuild.GroupSwitches | scripts/generate_flavor_config.py:279-304 | the packages table has the last word on a group, then the groups table; an immutable group is always on |
| FlavorBuild.GroupsInEffect | scripts/generate_flavor_config.py:343-348 | a group is in effect exactly if it is on or one of its triggers is enabled |
| FlavorBuild.EnableRequired | scripts/generate_flavor_config.py:370-385 | on a closed selection exactly the closure of the required packages is added |
| FlavorBuild.ApplyUpdateLayout | scripts/generate_flavor_config.py:388-396 | the ota layout adds its service with all it needs |
| FlavorBuild.DropUnsupported | scripts/generate_flavor_config.py:413-421 | the loop leaves the greatest closed subset, whatever the order |
| FlavorBuild.ApplyTargetPruning | scripts/generate_flavor_config.py:452-474 | the greatest closed set of enabled packages for the target |
| FlavorBuild.ApplyCapabilityPruning | scripts/generate_flavor_config.py:399-421 | the greatest closed set of enabled packages that the capabilities support: exactly those that are offered all that they and their dependencies need; and the groups that stay with it |
| FlavorBuild.OneAlternativeIsEnough | scripts/generate_flavor_config.py:360-367 | one available alternative is enough whatever the others, and none of several is too few |
| FlavorBuild.CapabilityPruningKeeps | scripts/generate_flavor_config.py:399-421 | a package stays exactly if it and every package it needs has all its required capabilities and, where it names alternatives, one of them |
| FlavorBuild.TargetPruningKeeps | scripts/generate_flavor_config.py:452-474 | a package stays exactly if it and every package it needs is made for the target |
| FlavorBuild.PruneGroups | scripts/generate_flavor_config.py:423-449 | after both loops an immutable group is on, and another exactly when it is supported and was on with a member left, or is triggered |
| FlavorBuild.GroupsThatStay | scripts/generate_flavor_config.py:423-449 | in terms of capabilities, members and triggers: which groups stay |
| FlavorBuild.DefaultTriggers | scripts/generate_flavor_config.py:423-449 | with the default triggers, the flavor's word on a group does not matter in the end: it is on when supported and a member is left |
| FlavorBuild.PrunedOnce | scripts/generate_flavor_config.py:645-656 | target and capability pruning commute and amount to one |
| FlavorBuild.Build | scripts/generate_flavor_config.py:630-668 | the steps in their order select the greatest closed supported part of everything wanted, with its groups, or reject |
| FlavorBuild.BuildKeeps | scripts/generate_flavor_config.py:630-668 | of everything wanted exactly the packages that are made for the target and offered all they need; unavailable exactly when a required package is not |
| Selection.SelectionModel.Selection | scripts/flavor_config.py:154-156 | the selection always contains everything mandatory |
| Selection.NewModel | scripts/flavor_config.py:109-137 | the builder rejects exactly when a required package is not in the pruned mandatory selection |
| Selection.ResolveMonotone | scripts/flavor_config.py:139-152 | a larger request selects no less |
| Selection.SelectedMeans | scripts/flavor_config.py:139-156 | all that is asked for with its dependencies, and on a known board of that exactly what is made for it and offered all it needs |
| Selection.RenderWrites | scripts/flavor_config.py:260-295 | every visible group whose members are all requested is written, and one by one the requested packages in none of these |
| Selection.RenderedStartExactly | scripts/flavor_config.py:260-295 | what the written flavor turns on, for any names |
| Selection.RenderedStart | scripts/flavor_config.py:260-295 | the written flavor asks for exactly the request, if and only if the clashing names are harmless |
| Selection.OwnNamesAreHarmless | scripts/flavor_config.py:260-295 | a group of just the package of its name does no harm |
| Selection.NamesCanClash | scripts/generate_flavor_config.py:290-300 | a catalogue and a request where the build of the written flavor is not the builder's selection |
| Selection.BuilderAgreesExactly | scripts/flavor_config.py:260-295 | on every board the build of the written flavor gives what the builder gives, if and only if both reject the board or the clashes go unnoticed on it |
| Selection.BuilderAgreesWithBuild | scripts/flavor_config.py:260-295 | with harmless clashes, in particular none, the two pipelines agree on every board, rejections included |
| Selection.LoadRequested | scripts/flavor_config.py:80-103 | the explicit choices of a flavor without what is immutable |
| Selection.RequestedMeans | scripts/flavor_config.py:80-103 | which packages a flavor is taken to request, table by table |
| Selection.RequestedRoundTrip | scripts/flavor_config.py:260-295 | opening the written flavor gives the request back, if and only if the groups switched on by mistake have no other members |
| Scaling.TileExact | components/stb_image/jpeg_fast.c:82-97 | output positions between the rounded-up ends are exactly those whose rounded-down source lies in the interval |
| Scaling.SourceIsFloor | components/stb_image/jpeg_fast.c:98-105 | the source position is the rounded-down one |
| Scaling.FitDimensions | components/stb_image/stb_image_port.c:92-129 | inside the source and the box, at least one pixel, filling the box one way and keeping the aspect to a pixel |
| Scaling.FitProducts | components/stb_image/jpeg_fast.c:153-162 | the same for the fit by products |
| Scaling.FitsCompared | components/stb_image/jpeg_fast.c:153-162 | exactly when the two fits give different sizes, and how |
| Scaling.ChooseScale | components/stb_image/jpeg_fast.c:163-167 | the largest reduction that does not go below the requested size |
| Scaling.HalvedAgain | components/stb_image/jpeg_fast.c:163-170 | each further step of the reduction halves once more, rounding down |
| Scaling.NextIsLater | components/stb_image/stb_image_port.c:235-239 | without enlarging, no two output rows want the same source row |
| Scaling.Advance | components/stb_image/jpeg_fast.c:105-121 | the running quotient and remainder are those of the next product |
| Pixels.CopyPixels | components/stb_image/jpeg_fast.c:101-104 | a copied span replaces exactly its pixels |
| Pixels.ConvertShows | components/stb_image/jpeg_fast.c:109-118 | a converted pixel shows its colour: the channels themselves, the fields of a 5-6-5 word read back, or the weighted grey |
| Pixels.ColourFields | components/stb_image/jpeg_fast.c:112-114 | the three fields of the 5-6-5 word are the top bits of the channels |
| Pixels.SameColour | components/stb_image/jpeg_fast.c:112-114 | and the fields determine the two bytes |
| Pixels.GreyIsKept | components/stb_image/jpeg_fast.c:116-117 | a grey pixel keeps its value, and a brighter one is no darker |
| Pixels.GreenCountsMost | components/stb_image/jpeg_fast.c:116-117 | green weighs most and blue least |
| JpegTiles.WriteRow | components/stb_image/jpeg_fast.c:105-122 | a row gets exactly the converted source pixels between its columns |
| JpegTiles.CopyRow | components/stb_image/jpeg_fast.c:101-104 | the copied row is the same as the scaled one |
| JpegTiles.WriteBlock | components/stb_image/jpeg_simd.c:27-56 | exactly the output pixels whose source lies in the block are written, in bounds, with that pixel |
| JpegDecode.JpegWrite | components/stb_image/jpeg_fast.c:87-125 | a block outside the image is refused, any other is written |
| JpegDecode.DecodeBlocks | components/stb_image/jpeg_fast.c:82-125 | blocks that make up the image leave the scaled image |
| JpegDecode.ScaledIsPictured | components/stb_image/jpeg_fast.c:97-122 | in a scaled raster the bytes at row order place v * width + u show the colour of the rounded-down source position |
| JpegDecode.EveryPixelOnce | components/stb_image/jpeg_fast.c:82-125 | blocks that partition the image write every output pixel exactly once |
| JpegDecode.DecodeStrips | components/stb_image/jpeg_simd.c:112-124 | the strip loop succeeds exactly for strips of whole rows that are the rows of the image together, and then leaves the scaled image |
| JpegStream.ScaleRow | components/stb_image/stb_image_port.c:295-303 | a kept row gets the source columns floor(x * sw / ow), and nothing else changes |
| JpegStream.LoadScaled | components/stb_image/stb_image_port.c:157-314 | refused exactly when it would enlarge; otherwise every output row finds its row floor(i * sh / oh), the final check cannot fail, and the raster is the scaled image |
| JpegStream.RowsPictured | components/stb_image/stb_image_port.c:295-302 | each output pixel is the first three of the four bytes of its source pixel |
| JpegStream.ComputeRomJob | components/stb_image/jpeg_fast.c:150-167 | the sizes of the ROM path with the largest reduction that keeps the detail of its own fit |
| JpegStream.SameJobs | components/stb_image/jpeg_fast.c:150-168 | exactly when the ROM path does the same job as the accelerated one, and as the portable one |
| JpegStream.DecodersAgree | components/stb_image/jpeg_fast.c:150-180 | if more than half of the source is wanted and the fits agree, the ROM and the portable path leave the same raster of a picture that both decode alike |
| JpegStream.PackedAgrees | components/stb_image/jpeg_simd.c:30-55 | a decoder that hands over 5-6-5 pixels leaves the raster that converting each colour would leave |
| JpegStream.FallbackAgrees | components/stb_image/stb_image_port.c:903-920 | scaling and then converting in place gives the raster of converting each colour first |
| JpegDecode.ToRgb565InPlace | components/stb_image/stb_image_port.c:913-918 | no byte is overwritten before it is read, and each pixel's two bytes, high byte first, hold the top five, six and five bits of its red, green and blue |
| GifThinning.PlanIsBest | components/stb_image/stb_image_port.c:707-729 | kept frames stay in the budget, stand for all frames, and no smaller step would do |
| GifThinning.PlanAccepted | components/stb_image/stb_image_port.c:721-729 | a plan is accepted exactly when there is a frame, room for one in the budget, and the kept pixels can be addressed |
| GifThinning.BudgetAccepted | components/stb_image/stb_image_port.c:721-729 | with a budget that can be addressed the later checks never refuse |
| GifThinning.Thin | components/stb_image/stb_image_port.c:749-831 | success exactly for good frames within capacity times step, and which error otherwise; slot j holds frame j * step for the saturated sum of the delays it stands for, never a default |
| GifThinning.Conserved | components/stb_image/stb_image_port.c:813-831 | total play time is conserved while no sum reaches 2^32 |
| Overlays.OverlayAt | scripts/solaros_keymap.py:159-167 | distinct changes are all visible and nothing else changes |
| Keymap.ComputeOutput | scripts/solaros_keymap.py:75-95 | the normalised output, or the refusal |
| Keymap.OutputTakes | scripts/solaros_keymap.py:75-95 | which usages, characters and flags go together |
| Keymap.OutputRefuses | scripts/solaros_keymap.py:75-86 | nothing but whole numbers and booleans passes |
| Keymap.OutputMeans | scripts/solaros_keymap.py:75-88 | the output is the entry without its other fields and without those that say nothing |
| Keymap.OutputIdempotent | scripts/solaros_keymap.py:75-95 | normalising twice changes nothing |
| Keymap.PhysicalOf | scripts/solaros_keymap.py:109-120 | only known keys are accepted (what they are: PlacedIs, NumberedIs) |
| Keymap.PlacedIs | scripts/solaros_keymap.py:114-119 | a row and a column inside the profile name the key first + row * stride + col, if it is known |
| Keymap.NumberedIs | scripts/solaros_keymap.py:110-119 | a number names the key of that number, if it is known |
| Keymap.NamedOneWay | scripts/solaros_keymap.py:110-119 | there is no other way to name a key, and no mixture |
| Keymap.PlaceOfKey | scripts/solaros_keymap.py:117-117 | with no more columns than the stride the number of a placed key tells its row and column, so two places never name one key |
| Keymap.MergeByNumber | scripts/solaros_keymap.py:109-169 | a document that gives keys by row and column merges to what it merges to with their numbers |
| Keymap.ValidateLayers | scripts/solaros_keymap.py:134-144 | admissible outputs, at most one selector in the base layer and none in the other |
| Keymap.MergeList | scripts/solaros_keymap.py:151-167 | the loop over a list, with its refusals |
| Keymap.ListTaken | scripts/solaros_keymap.py:157-166 | a list is taken exactly if it has at most 256 entries, each is taken, and no two are about one key |
| Keymap.MergedMeans | scripts/solaros_keymap.py:159-167 | each key that an entry is about gets the entry's output, any other keeps its own |
| Keymap.ComputeMerge | scripts/solaros_keymap.py:147-169 | both lists merged into the profile's layers or into given ones, and validated |
| Keymap.MergeInto | scripts/solaros_keymap.py:147-169 | each list goes into its own layer of the given base, or of the profile without one; a list that is not there leaves its layer |
| Keymap.MergeTakes | scripts/solaros_keymap.py:147-169 | exactly which documents are taken: schema 1, a list, lists that are taken, and then only admissible outputs with at most one selector, in the first layer |
| Keymap.MergeTwice | scripts/solaros_keymap.py:147-169 | merging a document into its own result changes nothing |
| Keymap.MergeOfSparse | scripts/solaros_keymap.py:225-234 | merging what sparse wrote gives the layers back, whatever keys were included |
| Keymap.SparseWrites | scripts/solaros_keymap.py:225-234 | an entry for each known key that reads differently in the two layers or is to be included, and no other; the second list is left out when empty |
| Keymap.SparseIsLeast | scripts/solaros_keymap.py:225-234 | no document that leads to the layers has fewer entries in either list |

## Left out

- Jobs: the nesting of calls is wider than in the code. A call made from inside a callback is an activation with that callback's task, and nothing makes its caller wait for it, so every real run is covered and more.
- Jobs: resource lists, error details, owner names, log lines and the copying of arguments into a queued start.
- Jobs: the job counters of `src/solar_os_task.c` are natural numbers; their width is not modelled.
- Jobs: creating tasks, memory reclaim, the launch lock and the sums of the admission test; the answers of "can create" and of allocation are arbitrary.
- JobProtocol.Init: a start that was queued reads its block whether or not the job has a start callback.
- Scheduler: the rate limit of miss messages and the runtime loop's own statistics.
- JobTable: of a slot's tick statistics only what deadlines depend on, the dispatch count and the time of the last dispatch; durations and misses are in `Scheduler` alone.
- CellCodec.EncodeCell: the four magic bytes are written once, not first as a fixed magic and then replaced.
- Receive.Reader.Receive: a write to the port and the wall clock; the deadline is a number of turns.
- FrameSender.Sender.UploadFrame: the LZ4 choice, the repeated attempts while the receiver is busy, the status polling of a client without a window, and the wall-clock statistics.
- FrameSender.Sender.Reconnect: what the commands of a reconnect carry; it ends in success or failure, before or after the descriptor was read.
- FrameSender.Sender.Reconnect: a descriptor that is refused for its sizes leaves them in the fields in the code; here such a one is not taken over.
- Receive.Reader.Await: what `command` makes of the answer's result code and boot number, and its repeated attempts.
- WindowLink.Link.Command: the 32 bytes of a progress report are taken apart already.
- WindowLink.Link.Flush: the wall clock; the deadline is a number of exchanges.
- WindowLink.Link.UploadCommand: a payload over 220 bytes, for which the code advances the number before it refuses; no caller makes one (UploadLink.UploadSendable).
- Screen: the receiver is not in the repository; the display's own timing and error codes are faults.
- FlavorBuild: parsing of TOML and of option strings, and normalisation of names.
- CycleCheck: the other checks of load_catalog, for unknown names, driver symbols and unreachable packages.
- Selection: screens, group states, explanations of missing support, size estimates.
- Scaling: the overflow of 32-bit intermediates; image sizes fit 16 bits and products are taken in 64 bits.
- JpegTiles: decoding itself; the bitmaps are given. A missing bitmap is not modelled.
- JpegStream.DecodersAgree: whether two decoders make the same picture of the same data; the picture is given. A ROM decode that reduces first is not compared with anything.
- JpegDecode: the bounded reader of compressed data.
- GifThinning.Thin: decoding and the pixels of a frame; a slot records which frame it holds.
- Keymap: JSON text, unknown fields of a document, and the key names of a profile.
