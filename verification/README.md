# Verification of the mixer's timing, hand-over and session logic

These Dafny modules model the parts of eiviz whose correctness rests on arithmetic, on shared state or
on the order of events, and prove what the program promises about them.

- **Playout clock** (`Clock.dfy`, `Playout.dfy`): rational frame rates mapped to ticks of 100 ns, and the cursor
  that schedules output slots, skips late ones and survives rate changes.
- **Audio follow** (`AudioFollow.dfy`): which mixing units follow an input through nested scenes and overlays,
  and clearing one of them on the shared object graph.
- **Send slots** (`SendCommands.dfy`, `SendSlots.dfy`, `OutputLine.dfy`, `AudioQueue.dfy`): a three-slot texture ring,
  a latest-wins mailbox and a pending encode shared by two threads. `SendSlots` is the protocol as a state machine over
  all interleavings; `OutputLine` holds the mutable objects and does each step on them.
- **Command order** (`CommandOrder.dfy`): the two reordering passes over a drained batch.
- **Resampler** (`Resampler.dfy`, `Downmix.dfy`): streaming linear interpolation to 48 kHz stereo, and the downmix before it.
- **Delay ring** (`DelayRing.dfy`) and **lease pools** (`LeasePool.dfy`): a circular buffer that refines a bounded queue, and
  reference-counted texture pools.
- **Session structures** (`Multiview.dfy`, `LayerIds.dfy`, `TagCatalog.dfy`, `RecentList.dfy`): multiview tilings, layer ids,
  tag lists and most-recently-used lists.

`Common.dfy`, `Arithmetic.dfy` and `Text.dfy` hold shared types, facts about products and quotients, and character classes.

Four results say that the program does not meet a promise everywhere, with the exact condition under which it does:

- Two rate changes with no emission between them can repeat a timestamp (`SafeChangeIsExact`, `UnspacedChangesRepeat`).
- A rate change late in a long session can leave many frame periods without a slot, because the last timestamp is divided by
  the truncated interval (`NextSlotWithinIff`, `LongSessionStallsOnRateChange`).
- A failed texture send stores its flag twice; the second store can free a slot that is in use again
  (`LateStoreKeepsInvIff`, `RunKeepsInv`, `LateHitBreaksOwnership`).
- `MergeTagCatalogs` replaces each tag list by itself and thereby empties it, which is harmless only for
  lists of blank names (`SelfReplaceKeepsIff`, `MergeTagCatalog`).

`dafny verify dfyconfig.toml` checks the project.

## Model

| member | source | states |
|---|---|---|
| `Clock.FramesElapsed` | mixer/src/clock.rs:56-68 | the division and its correction loop return the last slot that has started by the given time, for every duration whose wrapped tick count is in range, that is whose next slot starts at a time an `i64` can hold |
| `Clock.LoopStopsIff` | mixer/src/clock.rs:63-66 | at the right slot the correction loop ends if and only if that range holds, so the range is the exact limit of the function |
| `Clock.Adjoint` | mixer/src/clock.rs:46-68 | slot `k` has started by tick `t` if and only if `k <= frames_elapsed(t)`, for every rate and time |
| `Clock.FirstGuess` | mixer/src/clock.rs:63-66 | the division alone is right or one too small, so the correction runs at most once |
| `Clock.SlotSpacing` | mixer/src/clock.rs:42-50 | neighbouring timestamps differ by `interval_ticks` or one more, never by zero |
| `Clock.StartMonotone` | mixer/src/clock.rs:46-50 | timestamps are strictly monotone, at least 41 ticks a slot |
| `Clock.NoDrift` | mixer/src/clock.rs:46-50 | a timestamp is never a whole tick away from the exact rational time |
| `Clock.SlotMonotone` | mixer/src/clock.rs:56-68 | the running slot never goes back as time advances |
| `Clock.Fits` | mixer/src/clock.rs:46-54 | up to the largest `i64` the cast changes no timestamp, and the deadline is a hundred times it, saturated at the largest `u64` |
| `Clock.Gcd` | mixer/src/clock.rs:196-203 | Euclid's loop returns a common divisor that every common divisor divides, and 1 for two zeros |
| `Clock.NewRate` | mixer/src/clock.rs:13-40 | accepts exactly the supported range; the reduced rate is coprime and has the same timestamp for every slot |
| `Clock.ReducedKeepsStart` | mixer/src/clock.rs:34-50 | cancelling the common factor changes no timestamp |
| `Playout.PlayoutCursor.SetRate` | mixer/src/clock.rs:138-155 | a cursor that has emitted nothing takes up the slot that runs now; otherwise it goes on at the running slot or at the one after the whole intervals in the last timestamp, whichever is later, and that starts after the slot just left; the same rate changes nothing |
| `Playout.PlayoutCursor.DueWithSkip` | mixer/src/clock.rs:164-176 | emits if and only if the cursor's slot has started, then the slot that runs now with its start as timestamp and the number of slots passed over; otherwise nothing changes |
| `Playout.PlayoutCursor.NextDeadline` | mixer/src/clock.rs:178-180 | the deadline is the start of the cursor's slot, saturated as the program saturates it |
| `Playout.FirstChangeResumesAtOnce` | mixer/src/clock.rs:138-176 | over a run: before any emission, a rate change and a poll emit the running slot of the new rate with no skip |
| `Playout.RetimedMeans` | mixer/src/clock.rs:138-155 | where the cursor goes on, as inequalities on start times and intervals |
| `Playout.PolledMeans` | mixer/src/clock.rs:164-176 | what a poll emits, as inequalities on start times |
| `Playout.FirstSlotPastIsPast` | mixer/src/clock.rs:153 | slot `last / interval + 1` of any rate starts strictly after `last` |
| `Playout.TimestampsIncreaseAcrossRates` | mixer/src/clock.rs:138-176 | every time-ordered run with an emission between any two rate changes emits strictly increasing timestamps across all rates |
| `Playout.SafeRunIncreases` | mixer/src/clock.rs:138-176 | the same for every run whose rate changes all satisfy a guard decidable before the call |
| `Playout.SpacedRunIsSafe` | mixer/src/clock.rs:138-176 | an emission between rate changes is enough for that guard |
| `Playout.SafeChangeIsExact` | mixer/src/clock.rs:138-155 | the guard is exact: if it fails, polling on the spot emits a timestamp that is not later than the last one |
| `Playout.UnspacedChangesRepeat` | mixer/src/clock.rs:145 | 2, 1 and again 2 fps at 1.5 s emits the same timestamp twice |
| `Playout.SlotsAreConserved` | mixer/src/clock.rs:163-176 | at a fixed rate the cursor's advance is the number of emissions plus the sum of the reported skips |
| `Playout.NoBurst` | mixer/src/clock.rs:157-158 | polls between two times emit at most one frame for each slot that runs between them |
| `Playout.DeadlinePollsMissNothing` | mixer/src/clock.rs:178-180 | polling at each `next_deadline` emits every slot in order and skips none |
| `Playout.RateChangeBound` | mixer/src/clock.rs:138-155 | after a rate change the next slot starts by now, or one interval plus the rounding slack after the last timestamp |
| `Playout.WholePeriodsResumeInOnePeriod` | mixer/src/clock.rs:431-459 | rates whose period is a whole number of ticks resume within one period |
| `Playout.NextSlotWithinIff` | mixer/src/clock.rs:431-459 | the exact condition under which the next slot comes within any given lead time |
| `Playout.LongSessionStallsOnRateChange` | mixer/src/clock.rs:431-459 | the two-frame bound that the unit test asserts fails after a day: more than ten frame periods without a slot |
| `AudioFollow.Session.LayerCarries` | hosts/win32/MainWindow.Diagnostics.cs:165-173 | the heap query agrees with the carry relation on the set of raised flags |
| `AudioFollow.Session.SceneCarries` | hosts/win32/MainWindow.Diagnostics.cs:159-163 | likewise for the entry query |
| `AudioFollow.CarriesIffShortRoute` | hosts/win32/MainWindow.Diagnostics.cs:165-173 | the query holds if and only if a chain of at most `4 - depth` followed layers leads to the input |
| `AudioFollow.SceneCarriesIffRoute` | hosts/win32/MainWindow.Diagnostics.cs:159-173 | a scene carries an input if and only if a chain of one to five followed layers leads to it, each link through the first scene with its id |
| `AudioFollow.FoundIffFirst` | hosts/win32/MainWindow.Diagnostics.cs:145 | the overlay found by an id is the first one that has it |
| `AudioFollow.DepthMonotone` | hosts/win32/MainWindow.Diagnostics.cs:165-173 | asking from a shallower depth finds at least as much |
| `AudioFollow.FlagMonotone` | hosts/win32/MainWindow.Diagnostics.cs:165-173 | clearing flags only shrinks what is carried |
| `AudioFollow.OtherInputsKept` | hosts/win32/MainWindow.Diagnostics.cs:204-228 | clearing layers that show one input changes no query for another input, at any nesting |
| `AudioFollow.OtherInputsKeptByUnit` | hosts/win32/MainWindow.Diagnostics.cs:130-228 | nor whether a unit follows another input, overlays included |
| `AudioFollow.Session.FollowUnits` | hosts/win32/MainWindow.Diagnostics.cs:130-157 | lists exactly the units whose program scene, or an overlay on air that is followed, leads to the input by such a chain or shows it, in session order; none for a mix input |
| `AudioFollow.Session.FollowsIffHears` | hosts/win32/MainWindow.Diagnostics.cs:130-157 | the query for a unit is that statement on chains and first overlays |
| `AudioFollow.Session.ClearSceneFollow` | hosts/win32/MainWindow.Diagnostics.cs:204-228 | terminates whenever the followed layers that carry the input never lead back to their own scene; afterwards the scene carries nothing of the input; only layers that show the input directly and lie on a route to it were cleared |
| `AudioFollow.Session.ClearOverlayFollow` | hosts/win32/MainWindow.Diagnostics.cs:184-198 | one overlay on air stops letting the input through |
| `AudioFollow.Session.ClearInputFollow` | hosts/win32/MainWindow.Diagnostics.cs:175-202 | afterwards no chain lets the input through to the unit; among the overlays exactly those on air in the unit that show the input have lost their flag, and only layers on a chain to the input that show it; which units hear any other input is unchanged and no unit comes to hear this one |
| `AudioFollow.Session.NotFollowedUnless` | hosts/win32/MainWindow.Diagnostics.cs:130-157 | with unique ids a unit id is listed exactly when the unit found by that id follows |
| `AudioFollow.Session.FollowersKept` | hosts/win32/MainWindow.Diagnostics.cs:130-202 | who follows any other input, in any prefix of the unit list, is the same before and after |
| `AudioFollow.ReachedThrough` | hosts/win32/MainWindow.Diagnostics.cs:220-224 | what a nested clear can reach, the outer clear reaches through the layer that shows the scene |
| `SendSlots.RunKeepsInv` | mixer/src/output.rs:60-125 | in every interleaving, at every moment, each busy slot has exactly one holder among producer, mailbox, worker hand and pending encode, and each free slot none, if and only if no second store of a failed send hits a slot in use |
| `SendSlots.AtomicRunKeepsInv` | mixer/src/omt.rs:485-527 | with a failed send as one step, the same throughout every interleaving without condition |
| `SendSlots.CopyingKeepsInv` | mixer/src/omt.rs:612-659 | a copy keeps ring, textures and holders consistent, also when it replaces the slot |
| `SendSlots.CopyFailsIff` | mixer/src/omt.rs:633-658 | a copy finds no slot if and only if mailbox, worker hand and pending encode all hold one |
| `SendSlots.CopyOverwritesNothing` | mixer/src/omt.rs:633-656 | a copy never writes a texture that a command in flight refers to |
| `SendSlots.CopySparesPending` | mixer/src/omt.rs:633-656 | nor the texture of the slot whose encode is pending, which also stays in the ring |
| `SendSlots.StopReleasesAll` | mixer/src/output.rs:127-137 | a worker that stops holds nothing; only an unpublished copy stays busy |
| `SendSlots.GpuPictureTakenOnce` | mixer/src/output.rs:175-183 | a GPU picture leaves the mailbox once; only CPU pictures are repeated |
| `SendSlots.LatestIsTaken` | mixer/src/frame_hub.rs:91-110 | the worker gets the picture published last, whatever copies and sends lie between, with the stamp it was published with |
| `SendSlots.CpuPictureRepeats` | mixer/src/output.rs:175-183 | a CPU picture that was taken is repeated while nothing waits, over any run, until another CPU picture is published |
| `SendSlots.PicturesAreConserved` | mixer/src/frame_hub.rs:91-110 | over every run each published picture is taken, released at the stop, counted as dropped, or waits |
| `SendSlots.LateStoreKeepsInvIff` | mixer/src/output.rs:352-355 | the second `busy` store of a failed send is harmless if and only if the slot was not taken again |
| `SendSlots.LateHitBreaksOwnership` | mixer/src/omt.rs:511-513 | three copies between the two stores of one failed send make the second free a slot that the producer holds |
| `OutputLine.GpuSendRing.FindFree` | mixer/src/omt.rs:633-638 | the scan returns the slot that is free while all between it and `next` are in use, or nothing when all three are |
| `OutputLine.GpuSendRing.UseSlot` | mixer/src/omt.rs:639-651 | only the found slot's flag is raised; a slot of another shape gets a new texture and flag |
| `OutputLine.GpuSendRing.Copy` | mixer/src/omt.rs:612-659 | the picture goes to that slot, which is as it was or has the new texture if its shape was another; no other slot is touched; the command names its texture, size and flag |
| `OutputLine.VideoMailbox.Publish` | mixer/src/frame_hub.rs:91-100 | keeps the new picture, frees the displaced one and counts it |
| `OutputLine.ProgramSender.SendVideoTexture` | mixer/src/omt.rs:485-515 | frees the previous pending slot in both outcomes and keeps or frees the new one |
| `OutputLine.ProgramSender.ReleasePendingGpu` | mixer/src/omt.rs:523-527 | frees the pending slot, if any |
| `OutputLine.Line.CopyPicture` | mixer/src/render.rs:848-870 | keeps one holder per busy slot, fails exactly when the picture is unfit or all three slots are held downstream, and otherwise lends the first free slot in ring order |
| `OutputLine.Line.PublishPicture` | mixer/src/render.rs:967-986 | is the protocol's publish step on the shared objects: the picture waits with the given stamp, the displaced one is freed and counted, and one holder per busy slot is kept |
| `OutputLine.Line.TakePicture` | mixer/src/output.rs:175-183 | is the protocol's take step: the picture that waits, or else the last CPU picture, which is remembered when it is taken |
| `OutputLine.Line.SendPicture` | mixer/src/output.rs:311-361 | is the protocol's send step in both outcomes; what is sent is the picture in hand, CPU or GPU, field by field, with the slot's timestamp and rate |
| `OutputLine.Line.StopWorker` | mixer/src/output.rs:127-137 | is the protocol's stop step; the only flag left set is that of an unpublished copy |
| `AudioQueue.NewestSurvive` | mixer/src/frame_hub.rs:124-133 | after any pushes the queue is the newest 16 packets in order, and every other one is counted as dropped |
| `AudioQueue.AudioMailbox.Push` | mixer/src/frame_hub.rs:124-133 | one push, with its drop count |
| `SendCommands.ReleaseSendCmd` | mixer/src/output.rs:235-239 | clears the flag of a GPU picture and touches nothing else |
| `CommandOrder.CoalesceLatestVideo` | mixer/src/output.rs:243-266 | keeps all audio and shutdowns in order, then the last picture after the last shutdown; exactly the flags of the dropped pictures are cleared |
| `CommandOrder.LastPictureIsLatest` | mixer/src/output.rs:243-266 | the picture kept is the one that only audio follows, and none is kept if there is no such picture |
| `CommandOrder.NonPicturesAre` | mixer/src/output.rs:243-266 | the rest is exactly the commands that are no picture, in their order |
| `CommandOrder.NonAudioAre` | mixer/src/output.rs:270-285 | likewise the commands that are no audio |
| `CommandOrder.KeptOrDropped` | mixer/src/output.rs:241-266 | every command is kept once or dropped once, and only pictures are dropped |
| `CommandOrder.KeptIdempotent` | mixer/src/output.rs:243-266 | coalescing again keeps everything |
| `CommandOrder.TakeAudioFirst` | mixer/src/output.rs:270-285 | the result is sorted audio first within shutdown segments and keeps both orders |
| `CommandOrder.AudioFirstPermutes` | mixer/src/output.rs:270-285 | nothing is lost or added |
| `CommandOrder.AudioFirstIsTheStableSort` | mixer/src/output.rs:268-285 | the result is the only batch that keeps the order of audio and shutdowns, the order of pictures and shutdowns, and never puts a picture directly before audio |
| `CommandOrder.AudioFirstIdempotent` | mixer/src/output.rs:270-285 | applying it twice changes nothing more |
| `CommandOrder.PassesCommute` | mixer/src/output.rs:241-285 | both passes in either order give the result of coalescing alone |
| `Resampler.StreamResampler.Process` | mixer/src/audio_in.rs:114-151 | 48000 times each output sample is the sum of its two source samples weighted by 48000 minus the remainder and the remainder of its position; the carried phase accounts for every step; 48 kHz passes through and resets; no frames change nothing |
| `Resampler.SampleMixes` | mixer/src/audio_in.rs:136-146 | that mix for any position of a packet, both sides |
| `Resampler.ProcessedConverts` | mixer/src/audio_in.rs:114-151 | the specification of a packet means that, on the interleaved samples |
| `Resampler.StreamResampler.Resample` | mixer/src/audio_in.rs:134-149 | the sample loop emits at every multiple of the step inside the packet |
| `Resampler.PacketSplit` | mixer/src/audio_in.rs:114-151 | one packet cut in two gives the same samples and the same carried state, at every rate and from every state |
| `Resampler.PacketsDoNotMatter` | mixer/src/audio_in.rs:4-6 | any packetisation, with short and empty packets, equals one packet |
| `Resampler.WholeStream` | mixer/src/audio_in.rs:114-151 | from a fresh resampler F frames give exactly ceil(48000 F / rate) frames; sample `j` is the mix of the two stream frames around `j * rate / 48000`, as an equation; the carried phase is below one step |
| `Resampler.SampleBetween` | mixer/src/audio_in.rs:136-146 | no output leaves the interval between its two source samples |
| `Resampler.NativeRatePassesThrough` | mixer/src/audio_in.rs:119-123 | at 48 kHz the stream passes unchanged and the state is reset |
| `Downmix.PlanarToStereo` | mixer/src/audio_in.rs:39-81 | every output sample solves the mixing equation of its layout on the samples of the packet: mono twice, 5.1 and 7.1 with centre and surrounds at 0.70710678, the first two channels otherwise |
| `Downmix.CannotClip` | mixer/src/audio_in.rs:35-38 | a signal within full scale stays within full scale for every channel count |
| `Downmix.FullScaleReachesFullScale` | mixer/src/audio_in.rs:55-73 | full scale on all channels comes out at full scale |
| `Downmix.SidesStayApart` | mixer/src/audio_in.rs:55-73 | in 5.1 and 7.1 a side does not hear the LFE or the other side's channels |
| `DelayRing.CaptureRefines` | mixer/src/delay.rs:110-121 | a capture appends to a bounded queue, or is dropped when `depth` frames wait |
| `DelayRing.ConsumeRefines` | mixer/src/delay.rs:131-142 | a consume removes the oldest frame when the queue is full or when draining one of several |
| `DelayRing.DisplayIsOldest` | mixer/src/delay.rs:226-233 | the slot on display is the oldest queued frame |
| `DelayRing.ConsumedSlotSurvives` | mixer/src/delay.rs:110-142 | the slot that was on display when a consume took effect keeps its picture through any sequence of captures, and what is displayed after the consume stays displayed |
| `DelayRing.CapturesSpareShownSlots` | mixer/src/delay.rs:110-121 | from any state, no sequence of captures writes the slot on display or the one left behind |
| `DelayRing.RunRefines` | mixer/src/delay.rs:75-142 | over every run of capture, consume and discard the ring is the bounded queue and shows its head |
| `DelayRing.SteadyQueue` | mixer/src/render.rs:556-679 | in the render loop no capture is dropped and `depth - 1` frames wait |
| `DelayRing.FixedDelay` | mixer/src/render.rs:426-679 | the frame shown after a capture is the one captured exactly `depth - 1` captures earlier |
| `DelayRing.FrameDelay.Capture` | mixer/src/delay.rs:94-124 | afterwards units that are not listed or not composed have the ring they had; every other unit has taken its picture once for each time it is listed, into its own ring or a new one; the epoch has moved once for each ring replaced and each frame not dropped, as the state before tells |
| `DelayRing.CaptureUnitsEach` | mixer/src/delay.rs:94-124 | the same for one unit and any list of ids, repeated ids included |
| `DelayRing.CaptureUnitsMoves` | mixer/src/delay.rs:94-124 | how far the epoch moves, counted on the state before the call |
| `DelayRing.CaptureOnce` | mixer/src/delay.rs:94-124 | with distinct ids each captured unit takes exactly one capture step of the runs in `RunRefines` |
| `DelayRing.FrameDelay.ConsumeDisplay` | mixer/src/delay.rs:131-142 | every ring consumes once, whatever order the map yields |
| `DelayRing.FrameDelay.Discard` | mixer/src/delay.rs:75-92 | exactly the named queues are emptied, and the epoch moves only if one was not empty |
| `DelayRing.FrameDelay.SetDepth` | mixer/src/delay.rs:43-51 | a new depth drops all rings, the same depth changes nothing |
| `DelayRing.FrameDelay.EnsureUnit` | mixer/src/delay.rs:176-223 | a ring of the picture's size is kept and the epoch stays; otherwise the unit has an empty ring of that size and the epoch moves; other units keep theirs |
| `LeasePool.RunKeepsTexturesApart` | mixer/src/convert.rs:40-102 | over every run, through size and format changes, frames of different acquisitions never share a texture and the pool stays within its limit |
| `LeasePool.AcquireKeepsInv` | mixer/src/convert.rs:50-101 | after an acquisition all slots have the requested size and format, and textures and leases still belong together |
| `LeasePool.AcquireFailsIff` | mixer/src/omt.rs:911-924 | an acquisition fails if and only if all slots have the requested shape, the pool is full and live frames hold every one of them, or a slot has another shape and the limit is zero |
| `LeasePool.AcquiredLends` | mixer/src/convert.rs:50-101 | slots of the requested shape all stay and the first that no live frame holds is lent; if all are held, one new slot is added behind them; once a slot has another shape, none stays |
| `LeasePool.UnleasedIsUnused` | mixer/src/convert.rs:57-60 | a slot whose count is one is referred to by no live frame |
| `LeasePool.ClonesWithout` | mixer/src/convert.rs:23-25 | dropping a frame lowers the count of its lease by one and no other |
| `LeasePool.TexturePool.Acquire` | mixer/src/omt.rs:893-981 | the object follows the pool step and does exactly that; the texture handed out is in no live frame |
| `LeasePool.TexturePool.ClearSlots` | mixer/src/convert.rs:50-56 | dropping the slots drops one clone of each of their leases |
| `LeasePool.TexturePool.DropFrame` | mixer/src/convert.rs:23-25 | dropping a frame keeps every count equal to the clones that exist |
| `Multiview.AddGrid` | hosts/win32/Session.cs:241-253 | appends the cells of the grid to the list |
| `Multiview.GridTiles` | hosts/win32/Session.cs:241-253 | for any positive columns and rows every point of the area lies in exactly one cell and no cell reaches outside |
| `Multiview.AddQuad4` | hosts/win32/Session.cs:255-266 | appends the quarters, one of them cut in four |
| `Multiview.Quad4Tiles` | hosts/win32/Session.cs:255-266 | they tile the frame with seven panes |
| `Multiview.AddLarge5` | hosts/win32/Session.cs:268-288 | appends the large pane and the thirds outside it |
| `Multiview.Large5Tiles` | hosts/win32/Session.cs:268-288 | they tile the frame with six panes |
| `Multiview.Panes` | hosts/win32/Session.cs:174-239 | the panes it builds tile the frame, are as many as `TileCount` says, and stand where the template's name says |
| `Multiview.TemplateTiles` | hosts/win32/Session.cs:174-288 | every template covers each point of the frame by exactly one pane and nothing outside it |
| `Multiview.TemplateCount` | hosts/win32/Session.cs:141-151 | every template has as many panes as `TileCount` says |
| `Multiview.TemplateLayout` | hosts/win32/Session.cs:174-288 | pane by pane, in the order of the tiles: corner, size and position of every pane of each template |
| `Multiview.TilesMeansOnePane` | hosts/win32/Session.cs:174-288 | covered once means that one pane index, and only one, holds the point |
| `LayerIds.AssignLayerIds` | hosts/win32/Session.cs:608-626 | while the ids suffice, first holders keep their id and the others get the ids above the largest one, counted up in list order |
| `LayerIds.AssignedGoodIff` | hosts/win32/Session.cs:608-626 | all layers get distinct ids other than 0 if and only if the ids above the largest suffice before the counter wraps |
| `LayerIds.FirstHolderKeepsId` | hosts/win32/Session.cs:617-625 | while the ids suffice, a layer keeps its id if and only if it is the first layer that has it |
| `LayerIds.OthersCountUp` | hosts/win32/Session.cs:608-626 | while the ids suffice, the n-th layer that is no first holder gets the largest id plus n |
| `LayerIds.AssignedIdempotent` | hosts/win32/Session.cs:608-626 | running it again changes nothing |
| `TagCatalog.NormalizeIsNormal` | hosts/win32/TagCatalog.cs:5-9 | normalising yields names in normal form, and exactly those are its fixed points |
| `TagCatalog.NormalizeStrips` | hosts/win32/TagCatalog.cs:5-9 | normalising takes the white space off both ends and nothing else; only names of white space alone have no normal form |
| `TagCatalog.NormalizeList` | hosts/win32/TagCatalog.cs:11-25 | the loop adds each normalised name once |
| `TagCatalog.AddingAllIsClean` | hosts/win32/TagCatalog.cs:11-34 | the result has no duplicates, only names in normal form, and exactly the wanted members |
| `TagCatalog.MergeInto` | hosts/win32/TagCatalog.cs:27-34 | merging the normalised list equals adding the names one by one, to any catalog |
| `TagCatalog.TryAdd` | hosts/win32/TagCatalog.cs:36-46 | strips the name, succeeds exactly for a new non-blank one and appends it |
| `TagCatalog.Rename` | hosts/win32/TagCatalog.cs:48-68 | succeeds exactly when the name is listed and the new one is free or the same; then every mention of it in the catalog and in each owner is replaced and nothing else, otherwise nothing changes |
| `TagCatalog.Remove` | hosts/win32/TagCatalog.cs:70-75 | exactly the other names are left in the catalog and in every owner, in their order |
| `TagCatalog.Replace` | hosts/win32/TagCatalog.cs:80-84 | takes over the normalised names, or ends empty when a list replaces itself; the second is what a copy would give if and only if all names are blank |
| `TagCatalog.SelfReplaceKeepsIff` | hosts/win32/TagCatalog.cs:80-84 | normalising leaves nothing if and only if all names are blank |
| `TagCatalog.MergingAddsNothingIff` | hosts/win32/Session.cs:1451-1460 | merging all lists leaves the catalog as it is if and only if it lists every name of every list |
| `TagCatalog.MergeTagCatalog` | hosts/win32/Session.cs:1443-1462 | every owner loses all its tags, because each list is replaced by itself; owners end as they should if and only if they listed only blank names, and the catalog if and only if it already listed all their names |
| `TagCatalog.RunKeepsInv` | hosts/win32/TagCatalog.cs:11-84 | over every run the catalog stays normalised and free of duplicates, and every owner lists some of its names once |
| `TagCatalog.RenameBackRestores` | hosts/win32/TagCatalog.cs:48-68 | a rename and the reverse rename restore the catalog and every owner |
| `RecentList.Remember` | hosts/win32/AppPrefs.cs:142-150 | the path stands in front, the others follow in order without its first earlier mention, at most `cap` of them; blank paths change nothing |
| `RecentList.ListIsHistory` | hosts/win32/AppPrefs.cs:142-150 | after any sequence of calls the list is the first `cap` distinct paths in reverse order of last use |
| `RecentList.CleanSelects` | hosts/win32/AppPrefs.cs:152-153 | cleaning any list selects the first mention of each path that is not blank, in order, and the first `cap` of those |
| `RecentList.CleanIsIdentity` | hosts/win32/AppPrefs.cs:152-153 | cleaning such a list changes nothing |

## Left out

- Time is an integer number of nanoseconds after the clock's epoch. The lemmas on runs are stated on exact ticks.
- Clock.FramesElapsed: where the next slot would start beyond the largest `i64`, about 29,000 years, the correction loop of the program
  compares wrapped timestamps; `Clock.LoopStopsIff` says that this is exactly where the loop no longer ends at the right slot.
- Playout.PlayoutCursor.SetRate: the time and the slot just left lie in that range, as above.
- Playout.PlayoutCursor.DueWithSkip: times below 584 years, where the deadline's nanosecond product saturates, and slots that start in range.
- `Rate::or_default`, `as_f64`, audio deadlines and the sleeping loop around the cursor: no further case analysis.
- AudioFollow.Session.ClearSceneFollow: termination is proved for graphs in which the followed layers that carry the input never lead back
  to their own scene; other cycles are allowed. On a cycle that carries the input the program's recursion need not end.
- AudioFollow.Session.ClearInputFollow: assumes, as the program's id ranges do, that an input id is no scene id and that unit ids are unique; which
  program scene a unit shows is constant during the call, and pushing the result to the backend is not modelled.
- The fields of scenes, layers and overlays other than `AudioFollow` are constants, because these operations do not write them.
- SendSlots.Next: each step is atomic, apart from the two stores of a failed send. One producer per output publishes what it copied before
  it copies again. Rings dropped when an output disappears, lock poisoning, panics and the control channel, which carries no pictures, are
  not modelled.
- The worker's loop, its statistics and profiling: glue between the modelled steps.
- Textures, pixel data and audio packets are identities; what an encoder or a network does with them is foreign code, and a send is an
  arbitrary success or failure.
- Resampler.StreamResampler.Process: real samples, and a phase kept exactly in units of 1/48000 frame; the rounding of `f32` and `f64` is not
  modelled. The source rate is positive, as `validate` ensures.
- Downmix.PlanarToStereo: real arithmetic, with eight digits of the square root of one half.
- Multiview.AddGrid: real arithmetic; the rounding of pane edges is not modelled.
- `fill_underrun` and packet validation: one-branch code.
- DelayRing.FrameDelay.Capture: a slot holds the identity of the picture copied into it; packed copies and views are not modelled, nor is `retain`.
- LeasePool.TexturePool.Acquire: one model for both pools; the scratch planes of the video ring are not modelled. Numbering of acquisitions is
  an addition that lets the property be stated.
- LayerIds.AssignLayerIds: a scene does not list one layer object twice.
- TagCatalog.Rename: as in `Remove`, the catalog is not one of the owner lists, as in all calls of the program.
- User interface, settings files, remote control, serialisation and device back ends.
