# SpeakEasy Mini: capture pipeline, formats, state machines, installer

SpeakEasy Mini is a dictation program. A real-time callback receives native audio and
hands it, through a lock-free ring of fixed slots, to a worker that downmixes it,
resamples it, keeps a short circular pre-roll and records bounded utterances. Around that
core sit a session reducer, an activation reducer, a voice-activity detector, a framed
protocol to the recognition worker, an installer that carries its payload as an archive
appended to its own executable, and the install, staging and uninstall steps.

This project models those parts and proves what they promise.

**Capture.** `Callback` is what one callback does to the producer's state, as three steps
(enter, publish a block, overflow) over a record of everything enqueued, raised and
received; `CallbackLaws` has the invariants every step keeps. `CaptureRing` is the ring,
the callback and the consumer as classes over arrays. `RingProtocol` runs both ends
against each other one atomic load or store at a time; a loaded counter may be stale but
never older than the one loaded before. `Interleaving` adds the worker's own steps to it, with stale loads of the overflow counter. `Format`, `Resampler` and `Buffers` are the
downmix, the resampler with its exact phase, the circular pre-roll and the utterance
buffer. `WorkerSpec` is the worker as functions and `AudioWorker` the class proved
against them. `Pipeline`, `ChunkInvariance` and `Sessions` prove what holds over whole
runs; `Interleaving` carries that to every interleaving of the two threads, and `Assembly`
to the two objects the program builds. `CleanSession` follows one concrete session from end to end, so
those theorems are known to apply to something.

Samples are values of an arbitrary type, and the interpolation and averaging expressions
are arbitrary functions, so the claims hold for 32-bit floats with all their rounding.
Real arithmetic appears only in `Resampler.NoOvershoot` and `Resampler.LinesStayLines`.

**Formats.** `Bytes`, `Records` and `Splitting` are what the readers and writers share;
`Payload`, `Frames` and `Vocabulary` are the payload archive, the worker frames and the
protected-words list.

**State machines.** `Vad` is the voice-activity detector against a declarative function of its frame
history; `Phases` and `Coordinator` are the session reducer, `Activation` the activation
reducer, each a class and a run of inputs.

**Installer.** `Disk` is a machine whose system answers each request as an input says:
done, refused, or a copy broken off half way. A run keeps every world it went through, so a
claim about all of them is a claim about being stopped anywhere. `InstallSteps` and
`StagingSteps` are the steps as functions of those answers, `Install` and `Staging` the
methods proved against them, `Versions` the decision whether setup may write. `Histories`
is about any sequence of attempts and uninstalls, each stopped anywhere, every attempt on a
decision that may have been made earlier, and `Setup` about the install and the staging one
after the other, as the wizard runs them on the decision it made when it started.

Where the code does less than its comments or design say, the code is what is modelled,
and a lemma says exactly when the promise holds:

- A callback that is rejected takes its device flags with it (`crates/speakeasy-audio/src/callback.rs:192-213`): they reach the next block if and only if the callback is well formed or they were owed already (`CallbackLaws.FlagsKeptWhenWellFormed`, and `CallbackLaws.MalformedLosesItsFlag` for one input).
- "The same set goes back" (`apps/bootstrapper/src/seed.rs:228-233`) holds for the offered words if and only if the list is in normal form (`Vocabulary.OfferKeepsWords`, `Vocabulary.OfferCanChangeWords`).
- The archive reader does not ask that the entries fill the declared region (`apps/bootstrapper/src/payload.rs:236-241`): an accepted file is what the packer would have written if and only if nothing is left of the region once they are read (`Payload.ReadMeansEncoded`, and `Payload.LeftoverIsAccepted` for a file that is not).
- A truncated download is not always refused (`apps/bootstrapper/src/payload.rs:42-48`): cut at its end it reads as carrying no payload unless the bytes before the cut are the magic, and only then is it refused or accepted by the trailer found there (`Payload.CutFile`); a cut of up to eleven bytes always reads as no payload (`Payload.ShortCutIsAbsent`), and an older payload underneath can come back (`Payload.OldPayloadResurfaces`).
- "A failure then leaves the processor worker the payload placed" (`apps/bootstrapper/src/download.rs:441-450`) does not hold once that worker has been renamed aside (line 440). With every request granted it holds if and only if staging is not reached or every artifact verifies (`StagingSteps.FailsExactly`); whatever is granted, if and only if staging is not reached or the directory or the renaming is refused (`StagingSteps.FailureKeepsWorkerIff`). `StagingSteps.FailureLosesTheName` is one such failure.
- "The installation works, on the processor" after a failed staging (`apps/bootstrapper/src/wizard.rs:1186-1190`) fails for the same reason, and by then the version is recorded and refused (`Setup.UnplacedIsRecorded`, `Setup.NoWorkerExactly`, `Setup.RecordedWithoutWorker`).
- The stamp is written last so that a failed install does not look complete (`apps/bootstrapper/src/install.rs:231-235`). That holds of a first install. A stopped upgrade leaves the older version recorded and refused while its files may be cut short: its files stay whole if and only if each event since it finished was harmless to them, by the steps it made (`Histories.RecordVouches`), and stopping an upgrade anywhere is harmless if and only if the two versions share no file (`Histories.StoppingIsHarmlessIffApart`). `Histories.StoppedUpgradeBlocksRepair` and `Histories.ExampleBreaks` are the failure.
- A recorded version is refused (`apps/bootstrapper/src/install.rs:105-132`) by every decision made from then on, but the wizard decides once, when it starts (`apps/bootstrapper/src/wizard.rs:476`), and Next, Back, Next installs again on that decision. So attempts only go upwards if each is decided after the ones before it finished (`Histories.OnlyUpwards`); on an older decision a version may be written over itself and left broken, recorded and refused (`Histories.SecondAttemptBlocksRepair`, `Setup.SecondNextBreaks`), or over a newer one (`Histories.OldDecisionDowngrades`). A stopped attempt can be made again by a new run of setup if and only if the record still allowed it when it was made (`Histories.Recovery`).
- An uninstall that reports no failure has emptied the directories if and only if every entry it could not read was gone already or among the user data it removed too (`apps/bootstrapper/src/uninstall.rs:463`; `InstallSteps.HonestIffReadable`, and `InstallSteps.UnreadableStays` for one that was not).
- An utterance sealed without issues may have lost frames if the relaxed load of the overflow counter was stale: it is lossless if and only if no overflow was counted meanwhile (`Interleaving.InterleavedLossless`, and `StaleLoads.StaleLoadHidesLoss` for one that was not).
- "A run interrupted halfway leaves a machine that reads as not installed" (`apps/bootstrapper/src/uninstall.rs:183-187`) holds if and only if the first request, deleting the version record, is granted or nothing readable was recorded (`Histories.Recovery`, and `Histories.RefusedDeletionBlocksReinstall` for the failure).
- A live phase does not imply an active session: an event naming no session can arm an idle reducer (`crates/speakeasy-domain/src/coordinator.rs:74`, 92). A live phase lacks a session if and only if an event armed it (`Coordinator.RunConsistent`, `Coordinator.LiveWithoutSession`).
- An unflagged block is adjacent to the one before it if and only if the frame index between them fits 64 bits (`CallbackLaws.UnflaggedMeansAdjacent`, and `CallbackLaws.LastIndexRepeats` for two that are not).

## Model

| member | source | states |
|---|---|---|
| Callback.NextBlock | crates/speakeasy-audio/src/callback.rs:273-302 | a block is never empty, never above the configured frames per block, and a whole number of interleaved frames |
| CallbackLaws.EnterKeeps | crates/speakeasy-audio/src/callback.rs:189-243 | entering a callback keeps all producer invariants: exact flags, gap soundness, frame conservation, block shape, one expected next frame |
| CallbackLaws.PublishKeeps | crates/speakeasy-audio/src/callback.rs:273-327 | publishing a block keeps them; the block carries exactly what was raised since the block before it |
| CallbackLaws.OverflowKeeps | crates/speakeasy-audio/src/callback.rs:248-271 | dropping the rest keeps them; flags of a callback none of which was accepted stay owed together with the overflow flag |
| CallbackLaws.WriteKeeps | crates/speakeasy-audio/src/callback.rs:189-335 | a whole callback keeps them for any number of free slots, and nothing is left in flight |
| CallbackLaws.WriteExactly | crates/speakeasy-audio/src/callback.rs:189-335 | a whole callback in closed form, from its samples and stamp alone: what each refusal counts and leaves, which blocks it publishes for any room, what it answers, what stays pending, and every counter |
| CallbackLaws.BlocksFromAt | crates/speakeasy-audio/src/callback.rs:273-302 | the i-th published block starts i times the block size into the callback, holds those samples, is stamped with the time of its first frame, and carries flags only if it is the first |
| CallbackLaws.UnflaggedMeansAdjacent | crates/speakeasy-audio/src/callback.rs:221-302 | between consecutively enqueued blocks, no flag on the later one means it starts at the frame where the earlier one ended, exactly when that index fits 64 bits |
| CallbackLaws.LastIndexRepeats | crates/speakeasy-audio/src/callback.rs:223-234 | at the last index 64 bits can say, two frames in a row carry the same index and the second is not flagged |
| CallbackLaws.FlagsKeptWhenWellFormed | crates/speakeasy-audio/src/callback.rs:192-222 | the device's flags are owed to the next block exactly when the callback is well formed or they were pending already |
| CallbackLaws.MalformedLosesItsFlag | crates/speakeasy-audio/src/callback.rs:203-213 | a concrete stereo callback of one sample whose reported discontinuity is lost |
| CaptureRing.Ring.PublishBlock | crates/speakeasy-audio/src/callback.rs:276-325 | filling a free slot and publishing appends exactly that block to the queue and leaves every unread block as it was |
| CaptureRing.Ring.StoreSamples | crates/speakeasy-audio/src/callback.rs:279-285 | the slot's samples become the block's and no other slot changes |
| CaptureRing.CaptureCallback.constructor | crates/speakeasy-audio/src/callback.rs:161-169 | a fresh callback has sequence 0, expects no frame and owes no flag |
| CaptureRing.CaptureCallback.Write | crates/speakeasy-audio/src/callback.rs:189-335 | new state and returned counts are those of the specification with the ring's free slots; the queue grows by exactly the blocks enqueued |
| CaptureRing.CaptureCallback.Receive | crates/speakeasy-audio/src/callback.rs:190-243 | the two rejections, the gap test, the pending flags and the empty callback, field for field |
| CaptureRing.CaptureCallback.WriteBlocks | crates/speakeasy-audio/src/callback.rs:245-335 | the loop splits the callback into blocks until it is used up or the ring is full |
| CaptureRing.CaptureCallback.WriteOne | crates/speakeasy-audio/src/callback.rs:246-328 | one pass of the loop: the rest dropped exactly when no slot is free, and otherwise one block published, the remaining passes' result unchanged |
| CaptureRing.CaptureCallback.DropRest | crates/speakeasy-audio/src/callback.rs:248-271 | the rest is counted as dropped; the flags go back to pending only if no frame was accepted |
| CaptureRing.CaptureCallback.PublishNext | crates/speakeasy-audio/src/callback.rs:273-327 | one iteration publishes the specified block, takes one free slot and uses the flags up |
| CaptureRing.CapturedNativeBlock.LoadSamples | crates/speakeasy-audio/src/callback.rs:434-441 | the copy holds the slot's samples in order |
| CaptureRing.RingConsumer.TryPop | crates/speakeasy-audio/src/callback.rs:428-462 | fails exactly on an empty queue and then changes nothing; otherwise delivers the oldest block whole and removes it alone |
| RingProtocol.SlotExclusive | crates/speakeasy-audio/src/callback.rs:246-302 | while the callback fills a slot, no block the worker may still read is in it |
| RingProtocol.NeverOutOfBounds | crates/speakeasy-audio/src/callback.rs:276-456 | no store or load in a reachable state indexes outside the slots, the samples or the copy |
| RingProtocol.StepKeeps | crates/speakeasy-audio/src/callback.rs:246-462 | every atomic action of either side, with any stale but monotone counter, keeps the protocol invariant |
| RingProtocol.CopyIsWhole | crates/speakeasy-audio/src/callback.rs:433-456 | the words a finished copy loaded decode to the block that was published, all of it |
| RingProtocol.RunKeeps | crates/speakeasy-audio/src/callback.rs:245-462 | the invariant holds in every state of every interleaving |
| RingProtocol.RingIsAQueue | crates/speakeasy-audio/src/callback.rs:245-462 | in every interleaving the popped blocks are the published ones in order, those not yet popped lie whole in their slots, and the open slot is none of theirs |
| RingProtocol.RunNeverPanics | crates/speakeasy-audio/src/callback.rs:276-456 | whatever action comes next after any run, its indices are in bounds |
| RingProtocol.CountersGrow | crates/speakeasy-audio/src/callback.rs:321-460 | over any stretch of any run neither counter goes back |
| RingProtocol.SnapshotNeverUnderflows | crates/speakeasy-audio/src/callback.rs:124-143 | a consumed count loaded before a published count never exceeds it, at any two moments of any run, however stale either load |
| RingProtocol.StepOfCallback | crates/speakeasy-audio/src/callback.rs:246-328 | inside a callback an action publishes the next block, drops the rest because its load of consumed showed a full ring, or leaves the producer alone |
| RingProtocol.CallbackIsAtomic | crates/speakeasy-audio/src/callback.rs:245-335 | a callback interleaved with the worker has the effect of an uninterrupted one that finds as much room as it published blocks, and drops frames only if its last load of consumed showed a full ring |
| Interleaving.StepAgrees | crates/speakeasy-audio/src/callback.rs:245-462 | each step of either thread is one pipeline operation or none |
| Interleaving.NothingPanics | crates/speakeasy-audio/src/processing.rs:286-410 | in no interleaving can the next step meet a bad index or an overfull buffer |
| Interleaving.StretchIsARun | crates/speakeasy-audio/src/processing.rs:286-410 | every stretch of an interleaving, with the worker's begin, seal, end and clear in it, is a pipeline run |
| Interleaving.InterleavingIsARun | crates/speakeasy-audio/src/callback.rs:245-462 | every interleaving is a pipeline run from the start, and what was popped is what was enqueued, in order |
| Interleaving.InterleavedUtterance | crates/speakeasy-audio/src/processing.rs:363-410 | under every interleaving a sealed utterance is the first L of the pre-roll and what the blocks released since begin produced; discontinuity and limits are reported exactly when they happened; an overflow exactly when the second load exceeds the first, surely when counted before a block the worker has seen published; drained counts the blocks released since finishing was asked for |
| Interleaving.InterleavedLossless | crates/speakeasy-audio/src/processing.rs:388-410 | under every interleaving, if the load that found the ring empty was up to date and no callback was under way, an utterance sealed without issues lost nothing exactly when no overflow was counted meanwhile, as when the seal's own load was up to date |
| Interleaving.InterleavedFlags | crates/speakeasy-audio/src/processing.rs:294-301 | at any moment of any interleaving whatever was raised is owed, queued on its block, or on the first output sample of that block |
| Interleaving.InterleavedNumbering | crates/speakeasy-audio/src/processing.rs:363-375 | under every interleaving the samples offered to an utterance are numbered consecutively |
| Interleaving.InterleavingDoesNotMatter | crates/speakeasy-audio/src/processing.rs:286-355 | two systems that differ in block size, ring, buffers and interleaving, fed the same frames in different pieces, produce the same samples |
| StaleLoads.PublishNext | crates/speakeasy-audio/src/callback.rs:246-328 | from any reachable state with room, actions of the callback alone publish the next block |
| StaleLoads.PopNext | crates/speakeasy-audio/src/callback.rs:428-462 | from any reachable state with a block queued, actions of the worker alone release it |
| StaleLoads.StaleLoadHidesLoss | crates/speakeasy-audio/src/processing.rs:399-402 | a run in which a stale load of the overflow counter lets a seal report no issue over lost frames |
| Format.Validate | crates/speakeasy-audio/src/format.rs:150-160 | a policy is refused exactly when it selects a channel that does not exist |
| Format.MonoAt | crates/speakeasy-audio/src/format.rs:185-204 | mono frame f is made of the f-th interleaved frame and of nothing else |
| Format.MonoIs | crates/speakeasy-audio/src/format.rs:185-204 | under a selection mono frame f is the chosen channel of interleaved frame f; under averaging it is the average of all of that frame |
| Format.MonoConcat | crates/speakeasy-audio/src/format.rs:185-204 | downmixing does not depend on where the stream is cut between frames |
| Format.DownmixInto | crates/speakeasy-audio/src/format.rs:163-206 | succeeds exactly when policy, interleaving and output length fit, and then every output is the selected channel of its frame, or the average of all of it; each error is named for its own cause and writes nothing |
| Format.MixFrames | crates/speakeasy-audio/src/format.rs:185-204 | the loops fill exactly the frames of the specification |
| Resampler.SamplePosition | crates/speakeasy-audio/src/processing.rs:469-479 | output k > 0 lies between frames ceil(kS/T)-1 and ceil(kS/T), which exist, at a fraction in (0, 1]: the subtraction cannot underflow |
| Resampler.OnAFrame | crates/speakeasy-audio/src/processing.rs:469-482 | for any interpolation that ends on its second frame, an output whose source position is a frame is that frame |
| Resampler.AddedOnAFrame | crates/speakeasy-audio/src/processing.rs:469-495 | the same of every output a chunk adds, whatever came before it |
| Resampler.LinesStayLines | crates/speakeasy-audio/src/processing.rs:477-479 | in exact arithmetic a straight line comes out as the same line at every source position kS/T |
| Resampler.DueAt | crates/speakeasy-audio/src/processing.rs:470-482 | a frame makes due exactly the outputs between the two closed-form counts, so the inner loop ends there |
| Resampler.ResampledPrefix | crates/speakeasy-audio/src/processing.rs:465-495 | later frames never change an output already produced |
| Resampler.AddedSplits | crates/speakeasy-audio/src/processing.rs:465-495 | feeding a chunk in two pieces gives the same output as feeding it whole |
| Resampler.ScratchSuffices | crates/speakeasy-audio/src/processing.rs:249-258 | ceil(n*T/S)+2 slots hold what any chunk of at most n frames adds, whatever came before |
| Resampler.StreamingLinearResampler.constructor | crates/speakeasy-audio/src/processing.rs:448-456 | a fresh resampler has heard nothing |
| Resampler.StreamingLinearResampler.Reset | crates/speakeasy-audio/src/processing.rs:458-462 | after a reset it has heard nothing |
| Resampler.StreamingLinearResampler.EmitDue | crates/speakeasy-audio/src/processing.rs:470-482 | the inner loop writes exactly the samples one frame makes due and fails exactly when they do not fit |
| Resampler.StreamingLinearResampler.ProcessInto | crates/speakeasy-audio/src/processing.rs:465-495 | the output is the part of the closed-form resampling the input adds; fails exactly when it is longer than the output buffer |
| Resampler.NoOvershoot | crates/speakeasy-audio/src/processing.rs:477-479 | in exact arithmetic no output leaves the range of the frames it is made from |
| Buffers.LastOfAppend | crates/speakeasy-audio/src/processing.rs:523-536 | keeping the last C after every block is keeping the last C of everything |
| Buffers.TimedRingBuffer.Append | crates/speakeasy-audio/src/processing.rs:525-529 | the circular store into a free place appends |
| Buffers.TimedRingBuffer.Replace | crates/speakeasy-audio/src/processing.rs:530-534 | the store over a full ring drops the oldest and appends |
| Buffers.TimedRingBuffer.PushBlock | crates/speakeasy-audio/src/processing.rs:515-538 | contents become the last C of old contents and block, with their metadata; the overwritten count is exact |
| Buffers.TimedRingBuffer.CopyInto | crates/speakeasy-audio/src/processing.rs:540-547 | the utterance becomes the pre-roll, oldest first, and every push is accepted |
| Buffers.TimedUtteranceBuffer.Push | crates/speakeasy-audio/src/processing.rs:565-573 | refused exactly when full; otherwise appends |
| Buffers.TimedUtteranceBuffer.AppendBlock | crates/speakeasy-audio/src/processing.rs:575-590 | contents become the first L of old contents and block; accepted and rejected add up to the block |
| Buffers.TimedUtteranceBuffer.Clear | crates/speakeasy-audio/src/processing.rs:592-596 | empty, and every sample and metadata it held is wiped |
| WorkerSpec.AcceptedExactly | crates/speakeasy-audio/src/processing.rs:156-207 | a configuration builds exactly when the channel exists, the pre-roll is 250 to 500 ms, every product fits and every limit has room for the pre-roll |
| WorkerSpec.RefusedFor | crates/speakeasy-audio/src/processing.rs:156-207 | each error is named for its own cause: the policy first, then the pre-roll length; a capacity only if a product does not fit, and want of room only if a limit, which is named, holds less than the pre-roll |
| WorkerSpec.PreRollIsLeast | crates/speakeasy-audio/src/processing.rs:170-175 | the pre-roll is the fewest frames that last as long as was asked |
| WorkerSpec.LimitsAreHonest | crates/speakeasy-audio/src/processing.rs:187-217 | the utterance limit is the least of the three, and the blamed limits are exactly those equal to it, never none |
| WorkerSpec.PlanSuffices | crates/speakeasy-audio/src/processing.rs:165-207 | for an accepted configuration the policy fits, the pre-roll is non-empty and fits the utterance, and the scratch holds every block's output: no `expect` can fail |
| AudioWorker.AudioWorker.constructor | crates/speakeasy-audio/src/processing.rs:226-245 | a fresh worker for an accepted plan is in the specification's initial state |
| AudioWorker.BuildAudioPipeline | crates/speakeasy-audio/src/processing.rs:153-247 | fails with the planned error or returns both ends of one fresh ring in their initial states |
| AudioWorker.AudioWorker.Convert | crates/speakeasy-audio/src/processing.rs:302-315 | downmix and resampling of a popped block cannot fail, and the scratch holds exactly what it adds |
| AudioWorker.AudioWorker.KeepRecent | crates/speakeasy-audio/src/processing.rs:319-325 | the pre-roll becomes the last C of itself and the output; the overwritten count grows by what fell out |
| AudioWorker.AudioWorker.KeepUtterance | crates/speakeasy-audio/src/processing.rs:326-341 | the utterance becomes the first L of itself and the output; limits are reported exactly on rejection and counted only if nothing was reported yet |
| AudioWorker.AudioWorker.ProcessNext | crates/speakeasy-audio/src/processing.rs:286-355 | takes the oldest queued block alone and moves the state as specified; nothing queued, nothing changes |
| AudioWorker.AudioWorker.BeginUtterance | crates/speakeasy-audio/src/processing.rs:363-375 | refused exactly when active; otherwise opens on a copy of the pre-roll and notes the overflow count |
| AudioWorker.AudioWorker.DrainQueue | crates/speakeasy-audio/src/processing.rs:392-394 | with a quiet producer the loop ends with the queue empty and every block processed once |
| AudioWorker.AudioWorker.FinishUtterance | crates/speakeasy-audio/src/processing.rs:388-410 | refused exactly when idle; otherwise drains, closes and reports as specified |
| AudioWorker.AudioWorker.EndUtterance | crates/speakeasy-audio/src/processing.rs:377-379 | only the activity ends |
| AudioWorker.AudioWorker.ClearUtterance | crates/speakeasy-audio/src/processing.rs:412-416 | inactive, empty and without issues; pre-roll, resampler and queue untouched |
| Assembly.Assemble | crates/speakeasy-audio/src/processing.rs:219-246 | the two objects built are linked: ends of one ring whose joint state is a fresh pipeline |
| Assembly.Serve | crates/speakeasy-audio/src/processing.rs:286-416 | any of the six calls from outside keeps the two objects linked and moves their joint state as specified |
| Assembly.ServeAll | crates/speakeasy-audio/src/processing.rs:286-416 | so does any sequence of calls |
| Assembly.ServedIsARun | crates/speakeasy-audio/src/processing.rs:286-416 | each call is a pipeline run, so what holds over runs holds of the two objects |
| Pipeline.StepKeeps | crates/speakeasy-audio/src/processing.rs:286-416 | every operation of callback or worker keeps the pipeline invariant |
| Pipeline.WholeRun | crates/speakeasy-audio/src/processing.rs:286-410 | over every run the pre-roll is the last C outputs ever produced, the overwritten count is exact, outputs are numbered consecutively, enqueued equals processed plus queued in blocks and in frames, and the flagged blocks and resampler resets are counted exactly |
| Pipeline.IndicesConsecutive | crates/speakeasy-audio/src/processing.rs:607-615 | output k of everything produced is stored under index k |
| Pipeline.OpenExactly | crates/speakeasy-audio/src/processing.rs:363-416 | over every run the worker is recording exactly when it was told to begin and not since to finish, end or clear |
| Pipeline.CallsCounted | crates/speakeasy-audio/src/processing.rs:363-398 | over every run the worker has counted the utterances it opened and, saturating, the blocks it drained in finishing them |
| Pipeline.FlagsReachTheOutput | crates/speakeasy-audio/src/processing.rs:294-301 | a flagged block always yields a first sample, which is its first mono frame and carries its flags, no other does, and an active utterance reports a discontinuity |
| Pipeline.NoFlagLost | crates/speakeasy-audio/src/callback.rs:221-327 | whatever was raised is owed by the producer or is on the very next block enqueued |
| Pipeline.NeverAcrossAGap | crates/speakeasy-audio/src/processing.rs:294-315 | the resampler's run is exactly the mono signal of the latest processed blocks, each starting where the ones before it end |
| ChunkInvariance.StretchDelivers | crates/speakeasy-audio/src/callback.rs:245-335 | over a stretch without an overflow every received frame is enqueued or in flight, in order, and none is dropped |
| ChunkInvariance.EmittedTail | crates/speakeasy-audio/src/processing.rs:302-315 | after any blocks, unflagged blocks add what resampling their frames in one go adds |
| ChunkInvariance.OutputDependsOnFramesOnly | crates/speakeasy-audio/src/processing.rs:286-355 | for a clean run processed to the end the output is the resampled downmix of the frames received |
| ChunkInvariance.ChunksDoNotMatter | crates/speakeasy-audio/src/processing.rs:286-355 | two pipelines with different block sizes, rings and buffers, fed the same frames in different pieces, produce the same samples |
| Sessions.EveryFlagIsSomewhere | crates/speakeasy-audio/src/processing.rs:294-301 | in every reachable state whatever was raised is owed, on the queued block it was due on, or on the first output sample of that very block |
| Sessions.SessionRun | crates/speakeasy-audio/src/processing.rs:326-375 | from begin on, over any run, the utterance and its issues are functions of the pre-roll held at begin and the blocks processed since |
| Sessions.UtteranceReport | crates/speakeasy-audio/src/processing.rs:388-410 | the utterance is the first L of pre-roll and outputs since; overflow, discontinuity and each limit are reported exactly when they happened; buffered plus rejected is pre-roll plus outputs; a limit event is counted exactly when some block was the first to find no room and no block up to it was flagged |
| Sessions.SealedAnywhere | crates/speakeasy-audio/src/processing.rs:399-409 | sealed at any moment, whatever is still queued, the report covers exactly the blocks processed since begin |
| Sessions.CoveredIsHeard | crates/speakeasy-audio/src/callback.rs:245-335 | with nothing dropped, the blocks an utterance covers hold exactly the frames queued at begin or received since |
| Sessions.LosslessWhenClean | crates/speakeasy-audio/src/processing.rs:388-410 | an utterance finished without issues is the pre-roll followed by the resampling of every native frame queued at begin or received since, with nothing dropped and no gap |
| Sessions.UtteranceNumbering | crates/speakeasy-audio/src/processing.rs:363-375 | the samples offered to an utterance are numbered consecutively from its first pre-roll sample |
| Sessions.SampleStamp | crates/speakeasy-audio/src/processing.rs:607-626 | every output is stored with its number, the source frame at which its block begins, the time of that frame plus the samples before it, and on the first sample of a block alone its flags |
| CleanSession.CleanSessionExists | crates/speakeasy-audio/src/processing.rs:286-410 | for any sample, interpolation and averaging an accepted configuration has a session that hears that sample, reports no issue and records exactly it |
| Bytes.LeRoundTrip | apps/bootstrapper/src/payload.rs:334-344 | a number that fits its width reads back from its little-endian bytes |
| Bytes.LeBytes | apps/bootstrapper/src/payload.rs:334-344 | the bytes of a number are its base-256 digits, least significant first, written out for four and eight bytes |
| Bytes.FieldReadsBack | apps/bootstrapper/src/payload.rs:330-337 | a length-prefixed field reads back and leaves what follows |
| Bytes.FieldWasPut | apps/bootstrapper/src/payload.rs:254-275 | whatever reads as a length-prefixed field was one |
| Bytes.FieldNeedsAll | apps/bootstrapper/src/payload.rs:255-275 | cut short anywhere, a field does not read |
| Records.ReadsBack | apps/bootstrapper/src/payload.rs:238-240 | a list of self-delimiting records reads back and leaves what follows |
| Records.WasWritten | apps/bootstrapper/src/payload.rs:238-240 | whatever reads as a list of records was written as one |
| Payload.EncodeAll | apps/bootstrapper/src/payload.rs:324-339 | the first entry that cannot be packed decides the error; otherwise the encoding of all |
| Payload.EntryLayout | apps/bootstrapper/src/payload.rs:330-338 | an entry is four bytes of path length, the path, eight of data length, the data and the digest |
| Payload.TrailerLayout | apps/bootstrapper/src/payload.rs:341-345 | the trailer is eight bytes of archive length, four of entry count, four of version and the magic |
| Payload.AppendArchive | apps/bootstrapper/src/payload.rs:323-354 | appends archive and trailer; changes nothing if an entry cannot be packed; if the disk fails, leaves exactly as long a prefix as it took |
| Payload.ReadArchive | apps/bootstrapper/src/payload.rs:205-242 | none, the error or the entries, as the trailer and the region say |
| Payload.ReadOneEntry | apps/bootstrapper/src/payload.rs:254-285 | reads an entry and stops right behind it, or gives its error |
| Payload.ReadAllEntries | apps/bootstrapper/src/payload.rs:236-241 | reads the declared number of entries in order, or stops at the first error |
| Payload.ReadCarried | apps/bootstrapper/src/payload.rs:207-241 | what a file reads as depends on its archive region and count alone, not on the image before them |
| Payload.ReadUndoesAppend | apps/bootstrapper/src/payload.rs:323-354 | appending succeeds exactly when every path is made of proper components and fits, and the count fits; the first improper path is the one named; reading then returns exactly the entries, whatever the host already held |
| Payload.EntryWasEncoded | apps/bootstrapper/src/payload.rs:254-285 | an entry that reads was encoded: its digest matches, its path is safe |
| Payload.ReadMeansEncoded | apps/bootstrapper/src/payload.rs:205-242 | a file that reads is image, region and trailer; the region starts with the encoding of the entries, whose paths are safe; it is the packer's own output exactly when nothing is left of the region |
| Payload.LeftoverIsAccepted | apps/bootstrapper/src/payload.rs:236-241 | a file with a stray byte in its region is accepted, and the packer writes it over no image |
| Payload.EntryReadsExactly | apps/bootstrapper/src/payload.rs:254-285 | bytes read as an entry and a tail exactly when they are its encoding and that tail, and its path is made of proper components and is a string |
| Payload.EntryRefusedExactly | apps/bootstrapper/src/payload.rs:254-285 | a path is refused as unsafe exactly when it is there whole, is a string and is not made of proper components; all else that does not read is damaged |
| Payload.FileReadsExactly | apps/bootstrapper/src/payload.rs:208-242 | by the bytes of its trailer any file is of another version, damaged, or reads as a list exactly when that list is as long as declared, may be read, and its encoding starts the region |
| Payload.FirstBadEntryDecides | apps/bootstrapper/src/payload.rs:236-241 | the first entry of the region that does not read decides the error |
| Payload.AbsentExactly | apps/bootstrapper/src/payload.rs:208-220 | a file reads as carrying nothing exactly when it is shorter than a trailer or does not end in the magic |
| Payload.CutFile | apps/bootstrapper/src/payload.rs:208-241 | what any file cut short reads as, by the bytes before the cut: absent, refused, or accepted as what a trailer there describes |
| Payload.ShortCutIsAbsent | apps/bootstrapper/src/payload.rs:218-220 | a packed file that lost its last one to eleven bytes reads as carrying nothing |
| Payload.OldPayloadResurfaces | apps/bootstrapper/src/payload.rs:205-242 | a setup packed onto a packed host, cut where the new part begins, reads as the old payload |
| Payload.MissingBytesAreRefused | apps/bootstrapper/src/payload.rs:227-233 | a file that kept its trailer but not the whole declared region is refused as damaged |
| Payload.SafePathStaysInside | apps/bootstrapper/src/payload.rs:295-307 | an accepted path never replaces the root and never climbs above the directory it is joined to |
| Payload.AcceptedExactly | apps/bootstrapper/src/payload.rs:295-307 | joining components free of slashes gives an accepted path exactly when there is one and none is empty, "..", or holds a backslash or colon |
| Payload.ProperExactly | apps/bootstrapper/src/payload.rs:295-307 | a path is accepted exactly when it is made of such components |
| Frames.EncodeFrame | crates/speakeasy-domain/src/worker_protocol.rs:347-363 | four length bytes and the payload, or the error |
| Frames.FrameLayout | crates/speakeasy-domain/src/worker_protocol.rs:347-363 | a value has a frame exactly when it serializes to at most a mebibyte, and otherwise the error is its own; the frame is its length in four bytes, least significant first, and then it |
| Frames.DecodeFrame | crates/speakeasy-domain/src/worker_protocol.rs:371-386 | reads one frame and stops right behind it; an oversized length is refused before any payload byte is read |
| Frames.FrameReadsExactly | crates/speakeasy-domain/src/worker_protocol.rs:371-386 | what any bytes read as: oversized exactly when four bytes say more than a mebibyte, end of file exactly when less is there than they say, malformed exactly when the payload does not decode, and otherwise its value |
| Frames.StreamReadsBack | crates/speakeasy-domain/src/worker_protocol.rs:347-386 | a stream of frames followed by anything reads back exactly and leaves what follows |
| Frames.StreamsAreUnambiguous | crates/speakeasy-domain/src/worker_protocol.rs:347-386 | equal bytes carry equal values and equal tails |
| Frames.CutFrame | crates/speakeasy-domain/src/worker_protocol.rs:371-384 | every proper prefix of a frame is an end-of-file error |
| Frames.CutStream | crates/speakeasy-domain/src/worker_protocol.rs:371-384 | a stream cut short anywhere never reads as the whole |
| Splitting.SplitAt | apps/bootstrapper/src/seed.rs:317 | a separator divides the splitting in two |
| Vocabulary.ParseVocabulary | apps/bootstrapper/src/seed.rs:315-335 | the loop with its early exit yields the first 128 fold-distinct acceptable candidates in order of first occurrence |
| Vocabulary.FullList | apps/bootstrapper/src/seed.rs:330-332 | once the list is full, later candidates change nothing |
| Vocabulary.ParseIsNormal | apps/bootstrapper/src/seed.rs:315-335 | every parse is in normal form: at most 128 words, each trimmed, non-empty, at most 64 characters, free of separators and fold-distinct |
| Vocabulary.NormalExactly | apps/bootstrapper/src/seed.rs:315-335 | normal form in numbers: at most 128 words of 1 to 64 characters, no white space at either end, no comma or line break, no two equal up to case |
| Vocabulary.TrimExactly | apps/bootstrapper/src/seed.rs:318 | trimming takes white space off both ends and nothing else |
| Vocabulary.DistinctExactly | apps/bootstrapper/src/seed.rs:325-329 | dropping what equals a word kept is dropping what equals any word before it |
| Vocabulary.NothingElseIsLost | apps/bootstrapper/src/seed.rs:319-332 | an acceptable word is missing only if the list is full or a case variant came first |
| Vocabulary.ParseUndoesJoin | apps/bootstrapper/src/seed.rs:179 | parsing the comma-joined list returns it exactly when it is in normal form |
| Vocabulary.SeedRoundTrip | apps/bootstrapper/src/seed.rs:175-179 | what setup writes from a parse reads back as that parse, whatever was typed |
| Vocabulary.OfferKeepsWords | apps/bootstrapper/src/seed.rs:243-249 | offering a profile its own words gives the same words back exactly when they are in normal form |
| Vocabulary.OfferCanChangeWords | apps/bootstrapper/src/seed.rs:243-249 | a word holding a comma comes back as something else |
| Vad.ActiveStep | crates/speakeasy-audio/src/vad.rs:166-209 | how one frame moves the declarative speech state, from the history alone |
| Vad.KindExactly | crates/speakeasy-audio/src/vad.rs:160-173 | a frame is strong from the speech threshold up, soft from the soft threshold up to it, and silent below |
| Vad.SpeechEventsExactly | crates/speakeasy-audio/src/vad.rs:166-186 | the event after a frame with speech, by the length of its run: speech while active, otherwise a start once the run is as long as the strong or soft minimum asks, and a candidate before |
| Vad.SilentEventsExactly | crates/speakeasy-audio/src/vad.rs:188-209 | the event after a silent frame, by the length of its silence: while active an end once it lasts silence + hangover and hangover before; otherwise a false start right after speech and silence else |
| Vad.ActiveExactly | crates/speakeasy-audio/src/vad.rs:166-209 | speech is on exactly when some frame completed a run long enough for a start and none since completed a silence long enough for an end |
| Vad.NewAdapter | crates/speakeasy-audio/src/vad.rs:107-121 | refused exactly unless 0 <= soft <= speech <= 1 and 1 <= minimum speech <= minimum soft speech and silence is at least 1 frame; otherwise inactive with an empty history |
| Vad.SileroVadAdapter.Reset | crates/speakeasy-audio/src/vad.rs:130-137 | clears the history, or changes nothing when the runtime cannot be reset |
| Vad.SileroVadAdapter.AcceptFrame | crates/speakeasy-audio/src/vad.rs:143-164 | each refusal leaves the history alone; otherwise the event is the declared function of the frame history |
| Vad.SileroVadAdapter.AcceptSpeechProbability | crates/speakeasy-audio/src/vad.rs:166-186 | the event after a speech frame is the declared one, saturation included |
| Vad.SileroVadAdapter.AcceptSilence | crates/speakeasy-audio/src/vad.rs:188-209 | the event after a silent frame is the declared one, saturation included |
| Vad.StartsAndEndsAlternate | crates/speakeasy-audio/src/vad.rs:166-209 | starts and ends alternate beginning with a start, and the last is a start exactly when speech is on |
| Vad.EndsExactly | crates/speakeasy-audio/src/vad.rs:197-205 | an end fires exactly when speech was on and the last min(65535, silence + hangover) frames are silent and the one before them is not |
| Vad.StartsAtTheFirst | crates/speakeasy-audio/src/vad.rs:171-182 | a start fires on the first frame of its speech run that meets the strong or soft minimum |
| Coordinator.Reducer.Begin | crates/speakeasy-domain/src/coordinator.rs:57-66 | new state and disposition of beginning a session |
| Coordinator.Reducer.ApplyEvent | crates/speakeasy-domain/src/coordinator.rs:68-118 | new state, disposition and event of an ingress event, refusals in the program's order |
| Coordinator.RunConsistent | crates/speakeasy-domain/src/coordinator.rs:57-118 | over every run the active session is the one begun and not ended and implies a live phase, at most 64 producers are tracked, and a live phase lacks a session exactly when an event armed it |
| Coordinator.RunInOrder | crates/speakeasy-domain/src/coordinator.rs:57-118 | over every run sessions never overlap, phases follow the graph, an event naming a session came while it was active, and each producer's sequence strictly increases |
| Coordinator.DeliveredExactly | crates/speakeasy-domain/src/coordinator.rs:68-118 | over every run, from the past alone: an event is applied exactly when it names no session or the owner, its sequence exceeds everything accepted from its producer, that producer was accepted before or fewer than 64 were, and the graph allows the phase; otherwise the first of these that fails is named; an applied one emits the next event |
| Coordinator.BeginsExactly | crates/speakeasy-domain/src/coordinator.rs:57-66 | over every run a session is begun exactly when none is open and the reducer is idle, and the event emitted is the next one |
| Phases.GraphShape | crates/speakeasy-domain/src/state.rs:68-83 | a phase may move one further towards delivery, any live phase may fail, any live phase before delivering may be cancelled, an ended one goes back to idle, and nothing else |
| Coordinator.NoPhaseSkipped | crates/speakeasy-domain/src/coordinator.rs:57-118 | over every run a reducer at one phase went through every earlier phase since it was last idle, in order and with nothing in between |
| Coordinator.EventsNumbered | crates/speakeasy-domain/src/coordinator.rs:96-118 | emitted events are numbered 1, 2, 3, ..., saturating at 64 bits |
| Coordinator.RefusedChangesNothing | crates/speakeasy-domain/src/coordinator.rs:57-94 | a refused call changes nothing and emits nothing; an applied one emits exactly one event |
| Coordinator.LiveWithoutSession | crates/speakeasy-domain/src/coordinator.rs:74-92 | one event naming no session arms an idle reducer |
| Activation.ActivationReducer.ApplyInput | crates/speakeasy-domain/src/activation.rs:65-135 | new state and effect of each of the seven inputs |
| Activation.RunTracksEffects | crates/speakeasy-domain/src/activation.rs:65-147 | over every run the activation held is the one its effects left open, and push-to-talk is held exactly while that mode is active |
| Activation.RunAlternates | crates/speakeasy-domain/src/activation.rs:65-147 | over every run starts and stops alternate on matching sessions, and each automatic stop reason matches the mode it ends |
| Activation.AnswersExactly | crates/speakeasy-domain/src/activation.rs:65-147 | over every run, from the effects so far alone: exactly when an input starts or stops, with which mode and reason, and when it is stale or refused |
| Activation.OtherEffectsChangeNothing | crates/speakeasy-domain/src/activation.rs:65-147 | the active session changes exactly on a start or a stop |
| InstallSteps.CopyingIsSteps | apps/bootstrapper/src/install.rs:265-279 | whatever the system answers, a copy goes through the first so many of its steps and no others, all of them if it succeeds |
| InstallSteps.InstallIsSteps | apps/bootstrapper/src/install.rs:236-248 | whatever the system answers, an install goes through the first so many of its steps, the record last, all of them exactly if it succeeds |
| InstallSteps.AllCopied | apps/bootstrapper/src/install.rs:267-277 | copied to the end, every file of the payload is whole |
| InstallSteps.WholeIfSpared | apps/bootstrapper/src/install.rs:265-279 | after any number of copying steps a tree that was whole is whole exactly if those steps spared it |
| InstallSteps.UninstallIsSteps | apps/bootstrapper/src/uninstall.rs:188-196 | an uninstall makes every request in order whatever the answers, the version record first; the world after each is given in closed form |
| InstallSteps.Outlives | apps/bootstrapper/src/uninstall.rs:463-492 | a file outlives the removals exactly if none of those made was granted for it, and then unchanged |
| InstallSteps.NoFailureMeansGone | apps/bootstrapper/src/uninstall.rs:481-491 | one undeletable file does not stop the rest, and no new failure means everything asked for is gone |
| InstallSteps.RemovalsAreReal | apps/bootstrapper/src/uninstall.rs:373-389 | the version record and the programs entry are reported as removed exactly if they were there and the request was granted, and are then gone |
| InstallSteps.ReportIsHonest | apps/bootstrapper/src/uninstall.rs:188-196 | no failure reported means record, entry, shortcut and every listed file are gone; a record that stays is reported |
| InstallSteps.UninstallReport | apps/bootstrapper/src/uninstall.rs:373-492 | what an uninstall reports, from the answers alone: the record and the entry failed exactly when refused, the shortcut when it was there too, and each group of files exactly when some file of it that was there was refused; as removed exactly when one went |
| InstallSteps.HonestIffReadable | apps/bootstrapper/src/uninstall.rs:456-492 | no failure reported means the directories are empty exactly if every entry the walk could not read was gone or was removed as user data |
| InstallSteps.UnreadableStays | apps/bootstrapper/src/uninstall.rs:463 | one unreadable file stays while no failure is reported |
| Install.CopyDirectory | apps/bootstrapper/src/install.rs:265-279 | the recursive copy makes the specified requests with the specified effects |
| Install.InstallPayload | apps/bootstrapper/src/install.rs:236-248 | files, programs entry, shortcut, stamp, each only after the one before succeeded |
| Install.ClearRecords | apps/bootstrapper/src/uninstall.rs:373-389 | the version record goes first; missing counts as gone, refused is reported and leaves it |
| Install.WalkDirectory | apps/bootstrapper/src/uninstall.rs:456-463 | the walk finds the entries in order, passing over those it cannot read |
| Install.RemoveEach | apps/bootstrapper/src/uninstall.rs:463-492 | every path is asked for once, and a refusal is reported and passed over |
| Install.UninstallAll | apps/bootstrapper/src/uninstall.rs:188-196 | registration, shortcut, program files, user data, in that order whatever fails |
| Histories.AttemptOrDone | apps/bootstrapper/src/install.rs:236-248 | an attempt stopped anywhere and answered anyhow is either done, with every file whole and the version refused from then on, or leaves the record as it was |
| Histories.Recovery | apps/bootstrapper/src/install.rs:105-132 | over every permitted history an attempt finished whole or left the record alone, and made again finishes if everything is granted; a new run of setup may make it again exactly if the record still allowed it, as it did if unchanged since the decision; after an uninstall's first request the machine reads as fresh exactly if it was granted or nothing was recorded |
| Histories.HarmlessKeepsWhole | apps/bootstrapper/src/install.rs:236-248 | an event stopped anywhere leaves a whole tree whole exactly if the steps it made are harmless to it |
| Histories.RecordVouches | apps/bootstrapper/src/install.rs:229-235 | whoever decided what, a recorded version was finished by some attempt and is refused by every decision since; its files have been whole ever since exactly if every event since was harmless to them |
| Histories.StoppingIsHarmlessIffApart | apps/bootstrapper/src/install.rs:265-279 | stopping an upgrade anywhere leaves the version before it whole exactly if the two share no file |
| Histories.StoppedUpgradeBlocksRepair | apps/bootstrapper/src/install.rs:105-132 | an upgrade stopped in a shared file leaves the older version recorded and refused and that file cut short |
| Histories.ExampleBreaks | apps/bootstrapper/src/install.rs:105-132 | a concrete series of versions for which that happens |
| Histories.RefusedDeletionBlocksReinstall | apps/bootstrapper/src/uninstall.rs:378-389 | an uninstall whose first request is refused leaves a machine that refuses the version whose files are all gone |
| Histories.SecondAttemptBlocksRepair | apps/bootstrapper/src/wizard.rs:1196-1211 | a second attempt on the decision setup started with, stopped in a file, leaves the version recorded, refused and broken |
| Histories.OldDecisionDowngrades | apps/bootstrapper/src/wizard.rs:1196-1211 | of two setups open at once the one that decided first may put an older version over a newer one |
| Histories.OnlyUpwards | apps/bootstrapper/src/install.rs:105-132 | until an uninstall clears the record, an attempt decided after another finished is strictly newer, if every attempt between was decided after it too |
| StagingSteps.PlaceIsAtomic | apps/bootstrapper/src/download.rs:524-535 | until the final rename nothing but the temporary changes; after it the file is whole and nothing else has changed |
| StagingSteps.PlaceExactly | apps/bootstrapper/src/download.rs:524-535 | a file is placed exactly when its copy and its rename were granted; otherwise one more request asks the temporary away, and if granted it is gone |
| StagingSteps.FilesPlaced | apps/bootstrapper/src/download.rs:470-476 | placing an artifact's files keeps earlier libraries whole and the worker's name untouched at every moment |
| StagingSteps.WorkerPlaced | apps/bootstrapper/src/download.rs:470-476 | the rename that makes the worker the CUDA build happens with every library whole beside it |
| StagingSteps.StageIsSafe | apps/bootstrapper/src/download.rs:393-479 | stopped or failing anywhere, the worker is the processor build under its name or put aside whole, or the CUDA build with every library whole; success means the latter |
| StagingSteps.FailureKeepsWorkerIff | apps/bootstrapper/src/download.rs:428-479 | a failure leaves the processor worker under its name exactly if staging was not reached or the directory or the renaming was refused, and otherwise whole under the preserved name |
| StagingSteps.FailsExactly | apps/bootstrapper/src/download.rs:397-469 | with everything granted staging fails exactly when it is wanted and not located, or reached with an artifact that does not verify, and every failure reached loses the worker's name |
| StagingSteps.FailureLosesTheName | apps/bootstrapper/src/download.rs:440-469 | one verified worker, one unverified library and a willing system end in failure with no worker under its name |
| Staging.PlaceBesideTheWorker | apps/bootstrapper/src/download.rs:524-535 | copy to a temporary, rename, and remove the temporary if either failed |
| Staging.PreserveCpuWorker | apps/bootstrapper/src/download.rs:501-509 | one rename, or nothing when there is no worker |
| Staging.PlaceArtifact | apps/bootstrapper/src/download.rs:470-476 | files in order, those without a name passed over, stopping at the first failure |
| Staging.StageGraphicsCardPayload | apps/bootstrapper/src/download.rs:393-479 | the guards in order, then the preservation, then the artifacts from the last to the first |
| Setup.PlaceInstallation | apps/bootstrapper/src/wizard.rs:1220-1235 | refused without a readable payload and a root; then install first and staging only if that succeeded, reported as not installed, unplaced or complete |
| Setup.PerformInstallStep | apps/bootstrapper/src/wizard.rs:1196-1211 | nothing is done unless the decision made at the start allows it; setup goes on unless the install did not happen |
| Setup.GoesOnExactly | apps/bootstrapper/src/wizard.rs:1196-1211 | a decision against the install goes on and does nothing; without a payload or a root it stays and does nothing; otherwise setup goes on only with the version recorded and stays only with the record as it was |
| Setup.EveryMoment | apps/bootstrapper/src/wizard.rs:1220-1235 | on any machine and whatever was decided, every moment of both together leaves the record as it was or names the new version, and in the latter case the worker is in place, put aside or taken over complete |
| Setup.SecondNextBreaks | apps/bootstrapper/src/wizard.rs:1196-1211 | Next, Back, Next: the version is recorded and refused while its own worker is being written over |
| Setup.UnplacedIsRecorded | apps/bootstrapper/src/wizard.rs:1182-1235 | an installation reported without its graphics-card payload is recorded and refused by every later decision, and lacks a worker under its name exactly if staging was reached and the directory and the renaming were granted |
| Setup.NoWorkerExactly | apps/bootstrapper/src/wizard.rs:1182-1235 | with everything granted that happens exactly if the graphics card is wanted, an artifact is present and one does not verify |
| Setup.RecordedWithoutWorker | apps/bootstrapper/src/wizard.rs:1182-1235 | with one unverified library and a willing system, any version that carries its worker ends up recorded, refused and without a worker |
| Setup.WorkersCarryWorker | apps/bootstrapper/src/wizard.rs:1228-1229 | a series whose payload carries its worker exists |

## Left out

- Sample conversion to floats with its clipped and non-finite counters (`crates/speakeasy-audio/src/callback.rs:344-393`): a sample arrives here already normalized, one by one.
- Rounding of interpolation and averaging: both are arbitrary functions of their operands.
- Constant metadata: stream identity, metadata schema version and sample rate are the same for every block.
- The discontinuity byte and the issue bits are sets of their named flags; no other bit can be set by this code.
- Weak-memory behaviour beyond acquire and release on monotone counters, so slot words are read as last stored; statistics counters are updated together with the block or overflow they count, and only loads of the overflow counter may be stale.
- Cursors, frame totals and statistics counters are unbounded: wrapping a cursor at 2^64 with a slot count that does not divide it is out of reach. Stamps, sequence numbers, output indices and the drained count do saturate or wrap as in the source.
- CaptureRing.CaptureCallback.Write: here the callback runs without interruption, as does the worker's call; RingProtocol and Interleaving cover the interleavings.
- AudioWorker.AudioWorker.DrainQueue: assumes no block is published while it runs, since the source loops for as long as blocks keep arriving; Interleaving covers publishing during the drain.
- AudioWorker.AudioWorker.FinishUtterance: drains the queue as it stands at the call, for the same reason.
- AudioWorker.AudioWorker.ProcessNext: takes the overflow counter and the ring as they stand at the call; a block published later is found by the next call.
- A slot's atomic words are one row of a two-dimensional array, with the header words beside it, in `CaptureRing`; `RingProtocol` has them word by word.
- Exhausted memory, including a declared archive length too large to allocate, and errors of opening, seeking and writing the payload file.
- UTF-8 validity, SHA-256, JSON, Unicode white space and case folding, and semantic versions are arbitrary functions; assumed are only that a space is white space, that the values framed decode after encoding, and that a version written down reads back.
- Vocabulary.OfferKeepsWords: the default list offered to an empty profile is a parameter.
- The reducer's other state fields (voice activity, engine, delivery), which it never changes, and the schema version and absent sample index of its events.
- Payload.SafePathStaysInside: components are taken as written; that Windows drops trailing dots and spaces from some names is not modelled.
- Registry layout, the shortcut's contents, removing emptied registry keys and directories, moving the running executable out of the way, and the wording of failure messages.
- Install.RemoveEach: the files of the program and of the chosen user data are given lists, asked for one by one; removing a whole directory, which stops at its first refusal, is the case where the rest of its files are refused too. An executable that has to stay behind is not on the lists.
- Install.UninstallAll: see Install.RemoveEach for what the lists hold; a directory that cannot be listed at all, one reported failure, is not among its cases.
- InstallSteps.UninstallIsSteps: as Install.RemoveEach, one request a file.
- InstallSteps.NoFailureMeansGone: speaks of the paths asked for; InstallSteps.HonestIffReadable says what the walk may have missed.
- Histories.StoppingIsHarmlessIffApart: names are taken already folded, as Windows compares them, and so is the payload that lists each once.
- Staging.StageGraphicsCardPayload: catalog reading and digest checks are given answers; that the worker comes first in the source list and that libraries have their own names is assumed of the catalog.
- Histories.RecordVouches: speaks of install attempts and uninstalls alone; a successful staging replaces the payload's worker on purpose.
- Device access, format negotiation, cue synthesis, network transfer, manifest parsing, process supervision and the user interface.
