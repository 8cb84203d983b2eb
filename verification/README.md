# A model of containerization-framework's own logic

`containerization-framework` lends Apple's Containerization framework, which is written in async Swift, to Rust.
Most of it forwards calls. This project models the parts that decide something themselves, and proves what they are for.

* **Blocking calls and closures off the pool** (`Scheduler`, `SchedulerLaws`, `SchedulerPeaks`, `SchedulerJams`,
  `SchedulerRuns`, `BlockingCall`).
  `blocking` parks a thread on a semaphore until a detached task has run on Swift's cooperative pool, and `offPool` runs a
  Rust closure on a Dispatch thread while its task is suspended. The model is a transition system over a pool of any
  size, any number of Rust threads, and bodies and closures nested to any depth, with groups of child tasks that run at
  once. What waits for what is a tree, and a step changes one node of it. A program's peak, the most workers it can have
  parked at once, is found from the program alone, and decides whether it can jam. `BlockingCall.Blocking` is one call as
  a class whose methods assign the call's shared variables, each proved to be a step of the system.
* **Errors and panics across the bridge** (`ProgressProtocol`, `Platform`, `ContainerManager`). The cells that keep what
  a Rust closure threw or panicked with are classes. Progress handlers, which any number of threads call at once, are
  interleaved one lock at a time.
* **The build script** (`Files`, `Mirroring`, `BuildScript`, `Staging`, `Shims`). `mirror` runs on a mutable tree that logs
  what changed it. It is proved against a function of the two trees, and then that function's properties are proved.
* **The ext4 timestamp** (`Bits`, `FileTimestamps`). The encoder is proved against the decoder of "Inode Timestamps" in
  the Linux kernel's "ext4 Data Structures and Algorithms".
* **Collections and orders that cross the bridge** (`Crossings`, `Ordering`).

## What the proofs found

* Whether a set of programs can jam is known before anything runs: every schedule of it finishes on a pool of `n` workers
  exactly when its peak is below `n` (`SchedulerRuns.FinishesExactly`). Counting is a safe bound on the peak: programs
  with at most `k` closures left on the pool that call `blocking` finish whenever `k < n`, and on no smaller pool is that
  so of all of them (`SchedulerRuns.CallersFinishExactly`). With every such closure off the pool, as
  `swift/Sources/ContainerizationBridge/Blocking.swift:9-13` has it, the peak is 0. As many configuration closures as
  there are workers can jam any pool (`SchedulerRuns.PoolCanJam`).
* `Thrown` keeps the first panic but the last error (`src/platform/mod.rs:53` and `261`). A caller is sure to get a
  closure's first throw only where Swift stops at it, or where that throw is a panic. `Platform.FirstThrowExactly` gives
  the condition, and `Platform.LaterErrorWins` two errors of which the caller gets the second.
* Where `progressing` resumes no panic when Swift returns, a caller can take it that no handler panicked, or will, exactly
  if there is no handler, or Swift has waited for every call it made (`ProgressProtocol.ResumesExactly`). A handler that Swift hasn't waited for may be
  unwinding by then, or still run and panic later, and its panic is lost (`ProgressProtocol.LostIfNotAwaited`,
  `ProgressProtocol.LostIfRunning`). Where Swift may make new calls after it returns, waiting isn't enough either
  (`ProgressProtocol.ResumesIfCalledLater`).
* "Once the handler panics, it isn't called again" (`src/platform/mod.rs:74-75`) is so of each call that checks exactly
  until the kept panic is resumed. Resuming takes the panic, so a call that checks after that runs the handler
  (`ProgressProtocol.PassesExactly`, `ProgressProtocol.CalledAgain`).
* `create` can return an error of the configuration closure's that reads just as Swift's own failure would
  (`ContainerManager.SameFailure`). A caller can't tell those two apart.
* Staging the same package and glue again leaves the staged tree alone exactly when the package has the directory
  `Sources/ContainerizationBridge` (`Staging.UntouchedExactly`). This crate's package always has it, so for this crate
  that is a precondition met. `Staging.EmptyPackage` is a package that doesn't.
* `Date.distantPast` is the one time that doesn't survive `fs`. It decodes to 1970, so `fs` isn't monotone there.
* IPv6 addresses are unordered exactly where they have one value and zones that differ in Rust but not in Swift. That is
  more than an absent against an empty zone, which is all that
  `src/containerization_extras/address/ipv6_address.rs:124-126` names: Swift compares strings by canonical equivalence, so
  an "é" of one scalar and one of two are such zones too (`Ordering.DocumentedExactly`, `Ordering.AccentedZones`).

## Model

| member | source | states |
|---|---|---|
| SchedulerRuns.FinishesExactly | swift/Sources/ContainerizationBridge/Blocking.swift:9-13 | For every set of programs and every pool size, no schedule gets stuck, and each ends with every thread's own answer, if and only if the programs' peak is below the pool's size |
| SchedulerRuns.CallersFinishExactly | swift/Sources/ContainerizationBridge/Blocking.swift:46-51 | Every set of programs with at most `k` closures left on the pool that call back finishes on `n` workers if and only if `k < n` |
| SchedulerRuns.ParksExactly | swift/Sources/ContainerizationBridge/Blocking.swift:9-33 | For every set of programs, some run parks `q` of the pool's workers if and only if the peak is at least `q` |
| SchedulerRuns.ParkedAtMostPeak | swift/Sources/ContainerizationBridge/Blocking.swift:9-33 | In no reachable state are more workers parked than the peak, on a pool of any size |
| SchedulerRuns.JamAt | swift/Sources/ContainerizationBridge/Blocking.swift:49-51 | Where the peak is at least the pool's size, a run that stops with every worker parked and a thread that never returns |
| SchedulerPeaks.ThreadPeakFalls | swift/Sources/ContainerizationBridge/Blocking.swift:17-58 | No step of a thread, or of anything it waits for, raises how many workers it can still have parked |
| SchedulerPeaks.PeakAtMostCallers | swift/Sources/ContainerizationBridge/Blocking.swift:49-51 | A body never has more workers parked than closures left on the pool that call back |
| SchedulerPeaks.CallersListed | swift/Sources/ContainerizationBridge/Blocking.swift:46-51 | The count of closures that call back is that of a listing of every closure left on the pool, wherever it is written |
| SchedulerPeaks.NoCallersExactly | swift/Sources/ContainerizationBridge/Blocking.swift:9-13 | A body has no such closure exactly where every closure that calls back, at any depth, runs through `offPool` |
| SchedulerJams.FinishClosure | swift/Sources/ContainerizationBridge/Blocking.swift:17-58 | With more workers than its peak, a closure's own steps take it to its answer |
| SchedulerJams.ParkClosure | swift/Sources/ContainerizationBridge/Blocking.swift:49-51 | With `m` workers, a closure's own steps can park any number of them up to its peak, and leave it waiting with nothing running |
| SchedulerRuns.EveryRun | swift/Sources/ContainerizationBridge/Blocking.swift:17-58 | In every interleaving, the pool is never over its size, each thread is on its way to the answer its closure has when run alone, and a run is no longer than the work it starts with |
| SchedulerRuns.OffPoolFinishes | swift/Sources/ContainerizationBridge/Blocking.swift:9-13 | Deadlock freedom and termination: where closures that call back are off the pool, for every pool size of at least one, every run is bounded, and where nothing can move every thread has its own answer and every worker is back |
| SchedulerRuns.OffPoolNeverParks | swift/Sources/ContainerizationBridge/Blocking.swift:46-58 | Where closures that call back are off the pool, no reachable state has a worker parked on a semaphore |
| SchedulerRuns.Progress | swift/Sources/ContainerizationBridge/Blocking.swift:17-58 | While fewer workers are parked than there are and anything is unfinished, a step is enabled |
| SchedulerRuns.StopsFinishedOrJammed | swift/Sources/ContainerizationBridge/Blocking.swift:9-13 | The exact jam condition: a run that stops has returned every call, with each thread's own answer, if and only if some worker isn't parked |
| SchedulerRuns.JamIsForever | swift/Sources/ContainerizationBridge/Blocking.swift:49-51 | Once every worker is parked all of them stay parked, and not every thread returns |
| SchedulerRuns.PoolCanJam | src/containerization/container/container_manager.rs:251-255 | For every pool size, that many configuration closures that make a blocking call have a run that parks any number of the workers, up to all of them |
| SchedulerRuns.RunToStop | swift/Sources/ContainerizationBridge/Blocking.swift:17-58 | Every run extends to one where nothing can move |
| SchedulerRuns.StepKeeps | swift/Sources/ContainerizationBridge/Blocking.swift:17-58 | Each step of any thread, task or closure keeps the invariant and every thread's answer, and uses up work |
| SchedulerRuns.WaitReturnsOwnOutcome | swift/Sources/ContainerizationBridge/Blocking.swift:15-39 | In every interleaving, at any depth, a call has a signal, and then just one, only when `outcome` is what its own body returned or threw, and neither `pending` nor the task's own variable has that body. Until it is released one of them has it |
| SchedulerLaws.ThreadStepKeepsMeaning | swift/Sources/ContainerizationBridge/Blocking.swift:22-39 | No step below a thread changes what the thread's closure will answer, or breaks what a call's variables hold |
| SchedulerLaws.ThreadStepLoad | swift/Sources/ContainerizationBridge/Blocking.swift:9-13 | A step uses up work, takes a worker only where one is free, and moves no parked worker where all that are in use are parked |
| SchedulerLaws.ReturnKeepsWorkers | swift/Sources/ContainerizationBridge/Blocking.swift:22-33 | A call may return before its task has given its worker back, and the worker stays taken until then |
| SchedulerLaws.ThreadProgress | swift/Sources/ContainerizationBridge/Blocking.swift:17-58 | A thread that hasn't returned can move, or something it waits for can, given a free worker or one that isn't parked |
| Scheduler.MeaningFollows | swift/Sources/ContainerizationBridge/Blocking.swift:24-39 | An answer goes on with the continuation it chooses, one child's throw is its group's, and a call that throws goes on apart from one that returns |
| BlockingCall.Run | swift/Sources/ContainerizationBridge/Blocking.swift:17-40 | A whole call, through any steps of its body and whether or not the task exits before the caller goes on, returns the body's own value or throws its own error |
| BlockingCall.Blocking.constructor | swift/Sources/ContainerizationBridge/Blocking.swift:18-22 | A call starts with its body pending, no outcome and no signal, as the scheduler's first step of a call does |
| BlockingCall.Blocking.TakeBody | swift/Sources/ContainerizationBridge/Blocking.swift:23 | The task takes its own call's body, and leaves nothing pending, as one step that keeps the invariant |
| BlockingCall.Blocking.Await | swift/Sources/ContainerizationBridge/Blocking.swift:25 | Whatever the body does keeps the call's invariant, and so what the body comes to |
| BlockingCall.Blocking.Assign | swift/Sources/ContainerizationBridge/Blocking.swift:24-28 | The outcome assigned is what the call's body means, whatever ran beside it |
| BlockingCall.Blocking.Release | swift/Sources/ContainerizationBridge/Blocking.swift:15-29 | The task's own variable gives up the body before the signal |
| BlockingCall.Blocking.Signal | swift/Sources/ContainerizationBridge/Blocking.swift:30 | The one signal, when the outcome is the body's own and no variable has the body |
| BlockingCall.Blocking.Wait | swift/Sources/ContainerizationBridge/Blocking.swift:33-39 | The caller gets its own body's value, or its own body's error, and so never `noOutcome`, as the scheduler's step past the wait |
| ProgressProtocol.NeverReplaced | src/platform/mod.rs:46-71 | In every interleaving, a kept panic stays the one kept until it is the one that `progressing` resumes |
| ProgressProtocol.KeptIsFirst | src/platform/mod.rs:46-71 | The panic kept is that of the first call to keep one since any was resumed, raised by that call's own handler |
| ProgressProtocol.PhaseReached | src/platform/mod.rs:89-103 | In every interleaving, a call past its check had checked when no panic was kept, and one that panicked has kept its panic by the time it leaves |
| ProgressProtocol.CallTrace | src/platform/mod.rs:89-103 | In every interleaving, the events of one call are a check, then at most one run of the handler, then, if it panicked, the keeping of the panic, and the call is wherever these have got to |
| ProgressProtocol.BeginsOnce | src/platform/mod.rs:89-103 | No call runs the handler twice |
| ProgressProtocol.LeavesForGood | src/platform/mod.rs:89-103 | A call whose handler returned, or whose panic was kept, has left, and stays so |
| ProgressProtocol.CanGoOn | src/platform/mod.rs:89-103 | What one call can do next in each of its phases, and no more, and that a returned handler's call can do nothing |
| ProgressProtocol.PassesExactly | src/platform/mod.rs:66-95 | A call that checks goes on to the handler if and only if there is one and every panic kept before has been resumed |
| ProgressProtocol.StartsOnlyIfPassed | src/platform/mod.rs:90-102 | A handler that starts after a panic is kept belongs to a call that passed its check before that, or checked after a resume |
| ProgressProtocol.CalledAgain | src/platform/mod.rs:66-95 | A handler that panicked runs again, for a call that checks once its panic has been resumed |
| ProgressProtocol.KeptExactly | src/platform/mod.rs:46-71 | A panic is kept exactly when some call got as far as keeping one, and nothing has been resumed since |
| ProgressProtocol.ResumesExactly | src/platform/mod.rs:108-120 | `progressing` resumes the panic of the first call to keep one. Whatever the calls that Swift has made do after it returns, that none is resumed means that none ever panics, and the reverse, if and only if one is kept by then, there is no handler, or every call has left |
| ProgressProtocol.ResumesIfCalledLater | src/platform/mod.rs:108-120 | Where Swift may also make new calls after it returns, that is so if and only if one is kept by then or there is no handler |
| ProgressProtocol.ResumesIfAwaited | src/platform/mod.rs:106-120 | Where Swift waits for its handlers, it resumes none exactly when none panicked |
| ProgressProtocol.LostIfNotAwaited | src/platform/mod.rs:112-119 | A handler that is unwinding when Swift returns, whose panic is lost |
| ProgressProtocol.LostIfRunning | src/platform/mod.rs:112-119 | A handler that runs on when Swift returns, and whose panic is kept when nothing is left to resume it |
| Platform.KeepsFirstPanic | src/platform/mod.rs:45-56 | Over any sequence of calls, the panic kept is the first |
| Platform.KeepsLastError | src/platform/mod.rs:257-266 | Over any sequence of calls, the error kept is the last |
| Platform.NoThrowIsSwifts | src/platform/mod.rs:271-283 | Where no call threw, the caller gets what Swift returned, or what it threw as a failure of the action |
| Platform.StopsAtFirstThrow | src/platform/mod.rs:268-283 | Where Swift stops at a throw, the caller gets exactly that error or panic |
| Platform.FirstThrowExactly | src/platform/mod.rs:257-283 | Where Swift goes on, exactly when the caller still gets the first throw |
| Platform.LaterErrorWins | src/platform/mod.rs:260-263 | Two errors, of which the caller gets the second |
| Platform.Panic.Catch | src/platform/mod.rs:46-56 | Says whether the body panicked, and keeps its payload if none was kept |
| Platform.Panic.Resume | src/platform/mod.rs:67-71 | Takes the kept panic, and leaves none |
| Platform.Thrown.Threw | src/platform/mod.rs:257-266 | Says whether the body threw or panicked, and keeps which |
| Platform.Thrown.Ends | src/platform/mod.rs:271-283 | A kept panic comes before a kept error, which comes before Swift's outcome |
| Platform.Configure.Call | src/platform/mod.rs:143-151 | The first call runs the closure on Swift's value. Later ones change nothing, and report no throw |
| Platform.WithDescriptor.Call | src/platform/mod.rs:306-319 | The same for a descriptor's closure |
| Platform.Enumerate.Call | src/platform/mod.rs:344-353 | Every call runs the body on what it has captured so far |
| Platform.Configured | src/platform/mod.rs:169-179 | Over any sequence of Swift calls the closure runs at most once, and the caller gets its throw or else Swift's outcome |
| Platform.WithDescriptors | swift/Sources/ContainerizationBridge/FileDescriptorOps.swift:114-136 | The same for `mkdir`'s completion, with the answer that each call gives Swift |
| Platform.Enumerating | swift/Sources/ContainerizationBridge/FileDescriptorOps.swift:99-107 | The body keeps what it captured from one entry to the next, Swift learns of each entry's throw, and the caller gets Swift's outcome where none threw, the throw where Swift stops at it, and in general what the kept throws come to |
| Platform.Filled | src/platform/mod.rs:222-233 | Over any sequence of Swift calls, the first value handed over is the one kept, with a default left in its place, and later values are left alone |
| Platform.Ingest | src/containerization_oci/content/local_content_store.rs:63-73 | The caller gets the body's own error or panic if it threw, whatever Swift made of it, and else Swift's outcome |
| ContainerManager.Progress.Step | src/platform/mod.rs:66-119 | One lock's worth of `Progress::call`, or of `progressing`'s resume, on the shared cell is one step of the protocol |
| ContainerManager.Create | src/containerization/container/container_manager.rs:256-282 | For every interleaving of configuration and progress: the closure's panic whatever is kept, or else the handler's kept panic, or else the closure's error, or else Swift's value or its failure of the action |
| ContainerManager.CreateNests | src/platform/mod.rs:113-118 | That is what `configured` ends as, taken through what `progressing` then does |
| ContainerManager.RanFirst | src/platform/mod.rs:143-151 | The closure ended as it does on the first value that Swift seeded, or wasn't called |
| ContainerManager.PartsOf | src/containerization/container/container_manager.rs:263-278 | The handler's events and the closure's values are all that Swift did, each in order |
| ContainerManager.EndsAsSwiftExactly | src/containerization/container/container_manager.rs:263-278 | Whatever the handlers do after Swift returns, `create` ends as Swift does exactly when the closure returned, or failed with an error that reads as Swift's, and no handler ever panics, if and only if the closure threw something else, a panic is kept by then, there is no handler, or every call has left |
| ContainerManager.ReturnsSwiftsExactly | src/containerization/container/container_manager.rs:263-278 | Where Swift waits for its handlers, `create` ends as Swift does exactly when neither closure threw or panicked, but for such an error |
| Files.Volume.CreateDirAll | build.rs:121 | It fails exactly where a file is in the way, and changes nothing where the directory is there |
| Files.CanBeDirExactly | build.rs:121 | A directory can be made exactly where no file is at the path or on the way to it |
| Files.Volume.Remove | build.rs:131-138 | The entry goes, and its siblings stay |
| Files.Volume.Write | build.rs:162 | It fails exactly on a directory, and changes nothing then |
| Mirroring.MirroredErased | build.rs:115-119 | Once what `skip` names is erased at every depth, the result is `from` |
| Mirroring.MirroredFixed | build.rs:117-119 | Nothing changes exactly when the two trees differ only in what `skip` names |
| Mirroring.CompatibleExactly | build.rs:151-162 | No conflict exactly when no kept path is a file on one side and a directory on the other |
| Mirroring.MirroredCompatible | build.rs:151-162 | A mirrored tree never conflicts with what it was mirrored from |
| Mirroring.ProtectedUntouched | build.rs:118-129 | A skipped entry whose directories are all kept directories of `from` keeps everything in it |
| Mirroring.ProtectedExactly | build.rs:118-129 | What is protected is what lies at or below a skipped name, whose directories are all kept directories of `from` |
| Mirroring.MirroredHasFiles | build.rs:141-163 | Every kept file of `from` is in the result |
| Mirroring.MirroredWhole | build.rs:307 | With nothing to skip the result is `from` |
| Mirroring.NothingDue | build.rs:117-162 | Once mirrored, no path in either tree has anything due to it |
| BuildScript.Prune | build.rs:123-139 | The first loop removes, once each, exactly the entries that neither `skip` nor `from` has |
| BuildScript.Copy | build.rs:141-163 | The second loop has each kept entry mirrored, or stops at the first conflict with only some of what was due done |
| BuildScript.CopyEntry | build.rs:149-162 | One entry is mirrored, and a file with the same bytes isn't written |
| BuildScript.Mirror | build.rs:120-164 | It succeeds exactly where nothing conflicts. The new tree is the mirrored one, and the log gains exactly what was due, once each. Even where it fails, `from`, everything outside `to` and what is protected stay as they were, and the log gains nothing that wasn't due |
| BuildScript.MirrorTwice | build.rs:117-119 | A second run succeeds wherever the first does, and writes, makes and removes nothing |
| BuildScript.MirrorConverges | build.rs:115-119 | After a success `from` is unchanged, and `to` is `from` but for what `skip` names |
| Staging.Stage | build.rs:296-307 | The two mirrors succeed exactly where neither conflicts, and leave the package with the glue in it, and only what was due done to it |
| Staging.StageTwice | build.rs:296-307 | Staging twice is staging once, down to the log of what was written below the staged package |
| Staging.BuildDirUntouched | build.rs:296-298 | Below the first `.build` in kept directories of the package, what is staged is what was there before |
| Staging.PackageStaged | build.rs:296-298 | Every file of the package with neither `.build` nor `generated` on its path is staged as it is |
| Staging.GlueStaged | build.rs:307 | `Sources/ContainerizationBridge/generated` is the glue, whole and with nothing else |
| Staging.StagingAgain | build.rs:296-307 | With the glue's directories in the package, neither mirror of a second run has anything to change |
| Staging.UntouchedExactly | build.rs:296-307 | The first mirror of a second run has nothing to do exactly when the package has those directories |
| Staging.GlueIsStale | build.rs:123-139 | Without them it has one of the glue's own directories to remove |
| Staging.EmptyPackage | build.rs:296-307 | A package without them that can be staged |
| Shims.ReplaceCounts | build.rs:102 | Every match of a line's start is replaced, no match is made, and each adds one of the other |
| Shims.ReplaceUndone | build.rs:102 | The reverse replacement undoes it exactly where there was none of the other before |
| Shims.ReplaceLines | build.rs:102 | The replacement changes no line but those that start with what is replaced, and no line but in its start |
| Shims.PublishesExactly | build.rs:99-112 | It panics exactly where there is no shim. Otherwise none is left internal, each became public, and the text is the source's lines, with `public ` before exactly those that are shims |
| Shims.UnpublishedExactly | build.rs:102 | Making the shims internal again gives the source back exactly where none was public |
| Shims.Glue.PublishBridgeShims | build.rs:99-113 | The file is replaced exactly where it had a shim, and untouched where it panics |
| FileTimestamps.RoundTrip | src/containerization_ext4/file_timestamps.rs:84-115 | Decoding gives the time, rounded down to a nanosecond and clamped to 34 bits of seconds, exactly when it isn't `distantPast` |
| FileTimestamps.ZeroExactly | src/containerization_ext4/file_timestamps.rs:92-99 | Zero is the encoding of -62,135,769,600 seconds, which is `distantPast`, and of the first nanosecond of 1970, and of no other time |
| FileTimestamps.Packed | src/containerization_ext4/file_timestamps.rs:109-114 | The three fields share no bit, so the word is their sum |
| Bits.OrAndSum | src/containerization_ext4/file_timestamps.rs:114 | What two words have either of and both of come to their sum, so words that share no bit are the ones that `or` adds |
| FileTimestamps.PackedDecodes | src/containerization_ext4/file_timestamps.rs:109-123 | The kernel reads the seconds and nanoseconds that were packed |
| FileTimestamps.OrderExactly | src/containerization_ext4/file_timestamps.rs:96-114 | Earlier times decode to no later ones, exactly but for `distantPast` before a time below 1970 |
| FileTimestamps.ImageExactly | src/containerization_ext4/file_timestamps.rs:96-114 | `fs` reaches exactly the words with nanoseconds below a second, and none in the last second |
| FileTimestamps.EncodeDecoded | src/containerization_ext4/file_timestamps.rs:91-115 | Encoding what such a word decodes to gives it back |
| FileTimestamps.EncodeTwice | src/containerization_ext4/file_timestamps.rs:91-115 | Encoding, decoding and encoding again is encoding once, for every time |
| Ordering.LawfulExactly | src/containerization_extras/address/mod.rs:39-54 | `PartialOrd`'s laws hold if and only if Swift's `<` is asymmetric and transitive |
| Ordering.ReversesExactly | src/containerization_extras/address/mod.rs:42-54 | Asked in the other order the answer is the other way round exactly where Swift doesn't have each less than the other, and it turns into a panic only where the first question was answered and the other fails |
| Ordering.IPv6Lawful | src/containerization_extras/address/ipv6_address.rs:123-135 | Value and then zone obeys the laws wherever the zones' order does, and a lower value is `Less` |
| Ordering.ZonesOrder | src/containerization_extras/address/ipv6_address.rs:123-126 | Addresses with one value are `Less` exactly as their zones' texts are, an absent one as an empty one, and those two are unordered |
| Ordering.UnorderedExactly | src/containerization_extras/address/ipv6_address.rs:123-135 | Two addresses are unordered exactly where they have one value and zones that differ in Rust but not in Swift |
| Ordering.DocumentedExactly | src/containerization_extras/address/ipv6_address.rs:124-126 | For a pair of addresses, the documented condition holds exactly unless their zones are different text that Swift takes as equal |
| Ordering.AccentedZones | src/containerization_extras/address/ipv6_address.rs:124-126 | A pair that the documented condition leaves out |
| Crossings.DataMap | swift/Sources/ContainerizationBridge/Archive.swift:264-274 | It traps exactly when the lengths run past the values. Otherwise each name has its own slice, the last one winning, and the offset ends at the lengths' total |
| Crossings.CrossXattrs | src/platform/mod.rs:454-460 | No slice is out of bounds, every byte is used, and where Swift tells the names apart its entries are the attributes, names as they are spelled and each with its own bytes |
| Crossings.JoinedPiece | src/platform/mod.rs:452-460 | The slices that the lengths cut from the joined values are the values |
| Crossings.LastWins | swift/Sources/ContainerizationBridge/Conversions.swift:29-34 | Of keys that Swift takes as equal, the last one's value is kept |
| Crossings.DictionaryKeys | swift/Sources/ContainerizationBridge/Conversions.swift:29-39 | A dictionary has a key exactly when some pair sent has an equal one |
| Crossings.DistinctCrossWhole | swift/Sources/ContainerizationBridge/Conversions.swift:32-39 | A map whose keys Swift tells apart arrives whole: each key as it is spelled, with its own value, and nothing else |
| Crossings.SentCrosses | swift/Sources/ContainerizationBridge/Conversions.swift:36-39 | Keys and values sent apart come together as they were, and no entry is lost exactly when Swift tells the keys apart |
| Crossings.LentExactly | src/bridge/accessors/mod.rs:107-221 | A getter of a list or map, optional or not, reaches an `unreachable!` or an index panic exactly from the length up, which is 0 for an absent field |
| Crossings.ListOf | swift/Sources/ContainerizationBridge/Conversions.swift:15-17 | The list has each index's element, and it stops exactly where some element below the count isn't there |
| Crossings.DictionaryOf | swift/Sources/ContainerizationBridge/Conversions.swift:29-34 | It asks for each key and each value below the count, pairs them, and stops exactly where one isn't there |
| Crossings.LendList | src/bridge/accessors/mod.rs:107-137 | A lent list is rebuilt as it is, or absent where it was, and no getter panics |
| Crossings.LendMap | src/bridge/accessors/mod.rs:138-176 | A lent map is rebuilt, entry by entry where Swift tells its keys apart, or absent where it was, and no getter panics |
| Crossings.SortsAlike | swift/Sources/ContainerizationBridge/Bridged.swift:126-138 | The two sorts that `entryKeys` and `entryValues` make come out in the same order |
| Crossings.SortedCrosses | src/bridge/accessors/mod.rs:256-263 | A dictionary read as sorted keys and values is collected whole |
| Crossings.Collected | src/bridge/accessors/mod.rs:251-254 | A dictionary read as its keys and its values in one order, whatever that is, is collected whole |

## Left out

- Cancellation of a group's child tasks, task priorities, and fairness: every interleaving is covered, but none is preferred. A child's throw is thrown once all children are done.
- Bodies that don't return: a body and a closure are finite trees, so what they do beside waiting for each other is assumed to end. What a call's value is used for is no more than whether it was thrown.
- A thread's step from its semaphore's signal on is one step: the wait, the guard and the reading of the outcome touch nothing that another thread still uses.
- Dispatch's own limit on the threads of a concurrent queue: `offPool` always gets one, as its source assumes.
- Mutex poisoning: each lock recovers a poisoned value, which is what the cells hold anyway.
- Which kind of error Swift's failure becomes (`fd_ops`, `volume_subpath`, a `Code`): an error is its action and message.
- `filled_process`, `owned_fd` and the functions of `src/platform/mod.rs` that convert paths, dates and plain bytes: each is one call around something modelled here, or a declaration.
- `ProgressEvent`'s kinds and the batching of events in `Extras.swift`: each batch crosses as two vectors of one length, and no step of the protocol depends on them.
- ContainerManager.Create: `create_with_reference` nests the same two wrappers in the same order, and isn't stated again. The container that a value is wrapped in is Swift's.
- Platform.Ingest: that Swift's `ingest` calls its closure at most once is the framework's, and its code isn't part of this model.
- Symlinks, permissions, other I/O errors and concurrent writers in the filesystem: a call fails only on a file where a directory is needed, the reverse, or nothing. `from` and `to` are neither the same nor inside each other.
- The order in which directories are read and entries logged: any order is allowed, and the log is a multiset. Directories made on the way to `to` are logged as one.
- Staging.Stage: the glue is a parameter, the one that is left once its shims are published; generating it isn't part of this model.
- Running `swift build`, linking, and the version and architecture checks of `build.rs`.
- FileTimestamps.RoundTrip: exact reals, so the rounding of `f64`, by which adding the years before 2001 back can change a fraction's low bits, isn't modelled. Nor is `SystemTime`'s range.
- Crossings.SortedCrosses: Swift's order of strings is any asymmetric order that has the keys sorted. Its canonical equivalence is any function to a class, and which of two equal keys' spellings a dictionary keeps is any choice of the two.
- Crossings.LendList: what each side makes of an element once it has it (`toString`, a model's constructor) isn't modelled.
- Ordering.IPv6Lawful: that Swift's `<` goes by value and then by zone, an absent one as an empty one, is taken from the documentation at `src/containerization_extras/address/ipv6_address.rs:124-126`. The framework's code isn't part of this model.
- Everything that only forwards to Swift, and what the framework computes: address parsing, CIDR arithmetic, references, xattr compression and directory walks.
