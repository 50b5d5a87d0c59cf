# Verified models of the device tree's algorithms and protocols

This project models seven pieces of an Android device tree in Dafny and proves what they are
meant to guarantee, or exactly when they guarantee it:

- **The bilinear resizer** (`ResizeArithmetic`, `Resize`, `FrameLayout`, `Rgb565`). 16.16 stepping
  in 32-bit arithmetic and pointer walks over 4:2:0 planes: every read is inside its plane, every
  visible sample is stored exactly once with its interpolated value, everything else in the buffer
  is untouched, and no sample overshoots.
- **The camera adapter** (`StreamRefCounts`, `CameraStreamHub`, `AdapterState`). Reference counts
  refine bags of outstanding references, so a buffer goes back to the camera exactly when its last
  reference goes. The command state machine keeps its invariant over every run of commands with any
  hook outcomes, and the rollback loops terminate within five commands.
- **The sensor pipeline** (`InputEventReader`, `AccelerationSensor`, `SensorPoll`). The double-length
  ring is a FIFO queue, the assembled events do not depend on how the raw stream is cut, and the poll
  loop loses, invents and strands nothing.
- **Bluetooth firmware download** (`HciPatch`, `HciEarly`, `HciScript`, `HciRadio`, `HciDownload`,
  `HciSilent`, `HciVerdict`). The script
  runner, its callbacks and the chunked transfer in every interleaving: success means that every
  command finished in order and that the whole image went across, and every HCI buffer is given away
  exactly once.
- **Edify word wrapping** (`WordWrap`), **the diff worker pool** (`WorkerPool`) and **two text
  codecs** (`DisplayParameters`, `CtrlInterface`).

Code that changes state step by step is modelled by methods and classes that are proved against
functions on values; the theorems are about those functions. Multi-threaded code is modelled as
interleaved steps, one per locked region or per action another thread can see.

## Where the code does not do what it seems to promise

Each of these is stated as a lemma with the exact condition, or with a concrete failing case:

- `clearRefCount` reads the sum twice outside the buffer lock. Its caller holds the stream lock, so
  only returns, steps on the other stream and `initRefCount` can slip in. A return that takes the last
  reference then leads to two refills (`EarlyReturn`, and exactly then: `RightIffNoRefill`), an
  `initRefCount` to none (`EarlyInit`). `AlwaysRightIffUnconcerned` says which steps are harmless.
- `initRefCount` overwrites the sum, which is sound only if no other type has references (`InitConsistentIff`).
- `GORM_FW_Init_Thread` sets `cmd_status` to pending after sending. A reply handled before that is
  lost and the runner waits forever (`LostWakeUp`, `WakesIffNotEarly`).
- A completion handled before the sender's patch bookkeeping repeats a chunk, for any packet
  (`HciEarly.EarlyCompletionRepeats`); `patch_len` can then wrap, and for every image some run in which
  only the runner is late reads behind its end (`EveryImageCanOverrun`). The packets are in order if
  and only if there is no such completion (`InOrderIffTimely`). The other transfer results take each
  callback to run after that bookkeeping.
- The shift in the resizer's step drops high bits. The position tracks the exact one if and only if
  the crop is below 65538 samples (`TracksIffNoOverflow`); the luma reads stay in bounds either way.
- `GORMevt_HCE_ChangeBaudRate` takes a lone Command Complete for 0xFC77 as success, so initialisation
  can succeed, patch and all, with the host UART unchanged (`SuccessWithoutUart`, `SilentDownload`).
  It was changed if and only if the controller sent an accepting Command Status (`UartIffAccepted`).
- An odd output size can read a chroma sample that is not there or, in the 16-aligned layouts, write
  behind the buffer or over another plane. `ChromaIndexIff`, `Nv21WritableIff`, `Yv12WritableIff` and
  `Yv12RoomIff` say exactly when.
- `DisplayParameters::set` tests the key twice instead of the value, so a value with `;` is accepted
  and does not survive a round trip (`SetCleanIff`, `SetBreaksRoundTrip`).
- `update_ctrl_interface` asks `memmove` for -1 bytes if and only if the line has no newline
  (`MoveCountIff`). Its comparison accepts any value that merely begins with the interface name, so
  the value is set if and only if the name is not a proper prefix of the old one
  (`RewriteSetsValueIff`, `LongerValueStays`).
- `_WordWrap`'s pattern needs a NUL after the match, so the last segment always gets a line of its
  own, even where it would fit (`LineWidths`).
- A `ComputeDifferences` worker that prints a patch for an empty target divides by zero while it
  holds the lock. No run dies if and only if no target is empty (`NeverDiesIff`); after such a death
  no more work is handed out and no further thread ends (`DeathIsFinal`, `DeathBlocksReturn`).
- `useBuffers` runs and its status is returned even after `setState` refused; the committed state
  is unchanged all the same (`SendCommand`).
- `rollbackToInitializedState` cannot leave the three LOADED states (`RollbackToInitializedState`).

## Model

| member | source | states |
|---|---|---|
| `InputEventReader.InputEventCircularReader.Fill` | hardware/libsensor/InputEventReader.cpp:49-71 | a fill appends exactly the whole events read to the unread queue, whatever the read size; a full ring, an error or a torn event leaves the queue as it was and returns 0, -errno or -EINVAL |
| `InputEventReader.InputEventCircularReader.Land` | hardware/libsensor/InputEventReader.cpp:53 | what the kernel stores at the head, up to the free space, touches no unread event and stays within the double-length buffer |
| `InputEventReader.InputEventCircularReader.Advance` | hardware/libsensor/InputEventReader.cpp:59-67 | the wrap copy overwrites no unread event and makes the landed events the newest ones of the queue |
| `InputEventReader.InputEventCircularReader.ReadEvent` | hardware/libsensor/InputEventReader.cpp:74-79 | an event is available exactly if the queue is not empty, and it is the oldest one |
| `InputEventReader.InputEventCircularReader.Next` | hardware/libsensor/InputEventReader.cpp:81-88 | drops the oldest unread event and nothing else |
| `InputEventReader.RingRefinesQueue` | hardware/libsensor/InputEventReader.cpp:35-88 | over every run of fills with any legal read sizes and guarded nexts, the ring hands out and still holds what an unbounded queue hands out and holds |
| `InputEventReader.QueueIsFifo` | hardware/libsensor/InputEventReader.cpp:49-88 | over every such run, consumed events followed by unread ones are exactly the accepted events in arrival order |
| `AccelerationSensor.AssembleMeaning` | hardware/libsensor/AccelerationSensor.cpp:146-168 | exactly one sensor event per EV_SYN, in order, with the time of that EV_SYN and the latest X, Y and Z reported before it |
| `AccelerationSensor.PendingIsLatest` | hardware/libsensor/AccelerationSensor.cpp:148-157 | the pending event holds, per axis, the last value reported, or the starting one |
| `AccelerationSensor.DrainSplits` | hardware/libsensor/AccelerationSensor.cpp:146-171 | what the loop emits, followed by what the unread rest still stands for, is what the whole stood for; it stops short of empty only when the room is used up; a disabled sensor emits nothing |
| `AccelerationSensor.RunSplitsStream` | hardware/libsensor/AccelerationSensor.cpp:128-174 | over every run of calls with any batches and counts, emitted events plus those still owed are the assembly of the raw stream |
| `AccelerationSensor.ChunkingIndependence` | hardware/libsensor/AccelerationSensor.cpp:141-174 | two drained runs over the same raw stream emit the same events and leave the same state, however the stream is cut and whatever counts are passed |
| `AccelerationSensor.EmittedIsPrefix` | hardware/libsensor/AccelerationSensor.cpp:141-174 | an undrained run has emitted a prefix of the assembly of its raw stream |
| `AccelerationSensor.PendingShortcut` | hardware/libsensor/AccelerationSensor.cpp:134-139 | a pending event is handed out once, if the sensor is enabled, with the time of the call and its axis values unchanged; nothing is read from the kernel or the ring |
| `AccelerationSensor.NanosPerSecond` | hardware/libsensor/SensorBase.h:42-44 | a second of an event time is 10^9 nanoseconds |
| `AccelerationSensor.NanosPerMicrosecond` | hardware/libsensor/SensorBase.h:42-44 | a microsecond of an event time is 1000 nanoseconds |
| `AccelerationSensor.AccelerationSensor.ReadEvents` | hardware/libsensor/AccelerationSensor.cpp:128-174 | one call over the ring object has the effect of the value-level step; count below 1 and failed reads change nothing and return an error; only data[at..at+count] is written |
| `AccelerationSensor.AccelerationSensor.Consume` | hardware/libsensor/AccelerationSensor.cpp:146-171 | the consuming loop computes the drain of the reader and stores the emitted events in order |
| `SensorPoll.AccountRead` | hardware/libsensor/sensors.cpp:548-557 | one readEvents call keeps a driver's account (events paid plus events owed are the assembly of what it held and read) and empties it if it returns fewer events than there was room for |
| `SensorPoll.BalanceStep` | hardware/libsensor/sensors.cpp:542-558 | one driver's turn keeps the account of every driver |
| `SensorPoll.ReadKeepsMarks` | hardware/libsensor/sensors.cpp:547-554 | clearing revents when fewer events came than there was room for never strands an unread event |
| `SensorPoll.PollContext.LeftoverPass` | hardware/libsensor/sensors.cpp:542-559 | every driver readable at the start is read, in order, until the room is used up; if room is left after the pass, every reader is empty; events stored plus room is unchanged; no leftover loses its mark |
| `SensorPoll.PollContext.PollEvents` | hardware/libsensor/sensors.cpp:535-583 | at every poll and at every return a non-empty reader still has POLLIN; all readers are empty whenever poll overwrites revents; events stored plus room is the requested count; per sensor, nothing is lost, repeated or reordered; each pass begins with exactly the marks poll reported, every marked driver is read in order until the room is used up, and each driver has read its batches of exactly those passes; it returns with room left only if the last poll reported neither a driver nor a wake-up |
| `ResizeArithmetic.CoefInside` | hardware/libcamera/Resize.cpp:302-326 | at every index the loops use, the 32-bit coefficient has not wrapped and its two-sample window lies inside the crop, whether or not the shift overflowed |
| `ResizeArithmetic.TracksIffNoOverflow` | hardware/libcamera/Resize.cpp:302-303 | the fixed-point position never passes the exact one and lags it by less than k/65536 at every index, if and only if the shift does not overflow |
| `ResizeArithmetic.BlendBetween` | hardware/libcamera/Resize.cpp:328-329 | the weighted mean lies between the smallest and the largest of its four samples |
| `ResizeArithmetic.BlendIsBilinear` | hardware/libcamera/Resize.cpp:328-329 | the value is the bilinear formula over 16384, rounded down, with the vertical weight between vertical and the horizontal one between horizontal neighbours |
| `ResizeArithmetic.OffsetAndWeight` | hardware/libcamera/Resize.cpp:312-321 | offset and weight are the position to the 128th of a sample below it |
| `ResizeArithmetic.WholeSteps` | hardware/libcamera/Resize.cpp:302-320 | if ow-1 divides cw-2, every position is a whole sample and every weight 0 |
| `Resize.LumaReadInside` | hardware/libcamera/Resize.cpp:311-326 | all four luma reads lie inside the crop and the input |
| `Resize.ChromaReadInside` | hardware/libcamera/Resize.cpp:336-364 | all chroma reads lie inside the half-size planes for every job that ChromaFits both ways, odd sizes included |
| `Resize.ChromaIndexIff` | hardware/libcamera/Resize.cpp:302-364 | in each dimension, the chroma reads of all output indices stay inside the plane if and only if it is not the case that an odd input is read to its very end, from an even start, by an odd output whose last position is exact |
| `Resize.ChromaFitsEven` | hardware/libcamera/Resize.cpp:338-345 | an even input or an even output is always enough; three samples scaled to three read a chroma sample that is not there |
| `Resize.Yuv420Resize` | hardware/libcamera/Resize.cpp:237-390 | every visible Y, U and V sample, (outH+1)/2 by (outW+1)/2 of each chroma, is stored exactly once, at row*stride+col*delta, with its interpolated value; every other byte of the buffer is unchanged; an empty input writes nothing |
| `Resize.ResizeRow` | hardware/libcamera/Resize.cpp:316-374 | one row advances the set of stored samples from (row, 0) to (row+1, 0), each stored once |
| `Resize.ResizePixel` | hardware/libcamera/Resize.cpp:318-370 | the loop body stores the luma sample and, on even rows and columns, both chroma samples, none of them stored before |
| `Resize.FetchChroma` | hardware/libcamera/Resize.cpp:338-364 | the four pointer reads give the interpolation of the four neighbouring chroma texels |
| `Resize.LumaBetween` | hardware/libcamera/Resize.cpp:323-329 | a luma sample lies within any bounds on the four samples it reads |
| `Resize.ChromaBetween` | hardware/libcamera/Resize.cpp:338-366 | the same for a chroma sample |
| `Resize.LumaIsBilinear` | hardware/libcamera/Resize.cpp:311-329 | a luma sample is the bilinear mean of the four named neighbours, rounded down, its vertical weight from the row and its horizontal one from the column; where the rows are equal it is (a*(128-w)+b*w)/128 with the column weight, and transposed |
| `Resize.ChromaIsBilinear` | hardware/libcamera/Resize.cpp:338-366 | the same for a chroma sample and its four neighbours in the half-size plane |
| `Resize.LumaSubsamples` | hardware/libcamera/Resize.cpp:302-331 | if both steps are whole, the luma output is exactly a grid of crop samples |
| `FrameLayout.Nv21Writable` | hardware/libcamera/Resize.cpp:447-460 | in the 16-aligned semi-planar layout every visible sample has an address of its own inside a buffer with room for (h+1)/2 chroma rows, which for even heights is the callback size |
| `FrameLayout.Nv21WritableIff` | hardware/libcamera/AppCallbackNotifier.cpp:2685-2693 | the semi-planar output fits the callback buffer if and only if its height is even |
| `FrameLayout.Yv12Writable` | hardware/libcamera/Resize.cpp:461-473 | in the 16-aligned planar layout every visible sample has an address of its own inside the callback buffer, for even heights and chroma rows no wider than their stride |
| `FrameLayout.Yv12WritableIff` | hardware/libcamera/Resize.cpp:461-473 | that condition is exact: otherwise two visible samples share an address, however large the buffer |
| `FrameLayout.Yv12RoomIff` | hardware/libcamera/AppCallbackNotifier.cpp:2685-2693 | overlapping or not, the planar writes stay inside the callback buffer if and only if a chroma row fits its stride |
| `FrameLayout.ResizeNv12ToNv21` | hardware/libcamera/CameraUtils.cpp:289-321 | with these offsets and room for the chroma rows written, the NV12 to NV21 resize reads and writes in bounds and is complete; a null buffer is refused untouched |
| `FrameLayout.ResizeYu12ToYv12` | hardware/libcamera/CameraUtils.cpp:410-442 | the same for YU12 to YV12, wherever the output planes do not overlap |
| `FrameLayout.Nv12ToNv21Bytes` | hardware/libcamera/CameraUtils.cpp:300-305 | in bytes: the second byte of each input chroma pair decides the first of each output pair, and the other way round |
| `FrameLayout.Yu12ToYv12Bytes` | hardware/libcamera/CameraUtils.cpp:421-426 | in bytes: the first input chroma plane decides the second output plane, and the second the first |
| `FrameLayout.LumaRange` | hardware/libcamera/Resize.cpp:323-331 | a range of the input luma bytes is a range of the output luma bytes |
| `FrameLayout.NvReadable` | hardware/libcamera/CameraUtils.cpp:289-321 | an input of w*h*3/2 bytes holds every sample of the semi-planar planes |
| `FrameLayout.YxReadable` | hardware/libcamera/CameraUtils.cpp:410-442 | an input of w*h*3/2 bytes holds every sample of the planar planes |
| `Rgb565.ChannelsBetween` | hardware/libcamera/Resize.cpp:77-92 | the repacked word fits 16 bits and each channel lies between the extremes of that channel in the four source pixels, so nothing carries over |
| `Rgb565.ChannelsAreBilinear` | hardware/libcamera/Resize.cpp:66-92 | each channel of an output pixel is the bilinear mean of that channel in the four named neighbours, weights as above |
| `Rgb565.RowColumn` | hardware/libcamera/Resize.cpp:92-93 | word row*w+col of the output belongs to that row and column |
| `Rgb565.PackExact` | hardware/libcamera/Resize.cpp:92 | unpacking undoes packing for in-range channels |
| `Rgb565.Rgb565Resize` | hardware/libcamera/Resize.cpp:12-101 | the first outW*outH words are the interpolated pixels in row order, the rest is unchanged |
| `StreamRefCounts.ApplyHolds` | hardware/libcamera/BaseCameraAdapter.cpp:59-138 | inc, dec and clear act on the counts as on a bag of references: the sum is the size of the bag, a surplus return changes nothing, and the buffer is handed back exactly when the bag becomes empty |
| `StreamRefCounts.CountsRefineBags` | hardware/libcamera/BaseCameraAdapter.cpp:59-187 | over every run of sends, returns, clears, additions and removals, counts and fillThisBuffer calls are those of the bags |
| `StreamRefCounts.EveryLoanEndsOnce` | hardware/libcamera/BaseCameraAdapter.cpp:59-145 | over every run, each loan of a buffer ends in exactly one fillThisBuffer, or with the buffer being dropped, or still goes on |
| `StreamRefCounts.FillsHaveSteps` | hardware/libcamera/BaseCameraAdapter.cpp:67-145 | over every run each fillThisBuffer call is for the buffer and frame type of a return or a clearing |
| `StreamRefCounts.InitConsistentIff` | hardware/libcamera/BaseCameraAdapter.cpp:109-116 | initRefCount keeps the sum right if and only if the other types have no references |
| `StreamRefCounts.StepKeepsValid` | hardware/libcamera/BaseCameraAdapter.cpp:59-187 | in every buffer the sum stays the sum of the per-type counts |
| `StreamRefCounts.UndisturbedClear` | hardware/libcamera/BaseCameraAdapter.cpp:118-138 | if no step that concerns the buffer slips into clearRefCount, buffer and refill decision are those of the atomic step |
| `StreamRefCounts.RightIffNoRefill` | hardware/libcamera/BaseCameraAdapter.cpp:118-138 | under every schedule of the steps the stream lock admits, initRefCount on the buffer apart: the refill decision is right if and only if no return in either unlocked window took the last reference; one that did leads to two refills; there is never none |
| `StreamRefCounts.WrongNeedsCause` | hardware/libcamera/BaseCameraAdapter.cpp:118-138 | under every admitted schedule, a second refill needs such a return, and a missing refill needs an initRefCount on the buffer in a window |
| `StreamRefCounts.AlwaysRightIffUnconcerned` | hardware/libcamera/BaseCameraAdapter.cpp:118-138 | for any class of other threads' steps, the decision is right from every state and under every admitted schedule of them if and only if none of them returns the buffer or initialises its count |
| `StreamRefCounts.BreakingSchedule` | hardware/libcamera/BaseCameraAdapter.cpp:118-138 | for every admitted step that concerns the buffer there is a state and a window in which it alone makes the decision wrong |
| `StreamRefCounts.EarlyReturn` | hardware/libcamera/BaseCameraAdapter.cpp:120-136 | a return before the locked part leads to two refills of one loan |
| `StreamRefCounts.EarlyInit` | hardware/libcamera/BaseCameraAdapter.cpp:728-737 | an initRefCount before the locked part leads to a loan that is never refilled |
| `StreamRefCounts.PassClearsType` | hardware/libcamera/BaseCameraAdapter.cpp:189-198 | whatever returns and steps on the other stream slip into the windows, after the pass over a stream the type has no reference left on its buffers and no other count has grown |
| `CameraStreamHub.CameraStreamHub.ReturnFrame` | hardware/libcamera/BaseCameraAdapter.cpp:471-495 | a return is one counted return on the buffer found by stream type, or by looking in the preview stream first; an unknown address changes nothing |
| `CameraStreamHub.CameraStreamHub.Unsubscribe` | hardware/libcamera/BaseCameraAdapter.cpp:328-365 | when no subscriber of a type is left, its count is 0 in every stream and all other counts are unchanged; otherwise no count changes |
| `CameraStreamHub.CameraStreamHub.ClearStream` | hardware/libcamera/BaseCameraAdapter.cpp:189-198 | every buffer of the stream loses exactly this type's references; other streams keep theirs |
| `CameraStreamHub.CameraStreamHub.SendFrame` | hardware/libcamera/BaseCameraAdapter.cpp:250-291 | one reference per subscriber in turn, interleaved with whatever the callbacks do; NO_ERROR if and only if every callback is set, otherwise the missing one takes its reference back and ends with -EINVAL; no subscriber or an unknown buffer changes nothing |
| `CameraStreamHub.DispatchCounts` | hardware/libcamera/BaseCameraAdapter.cpp:270-287 | an undisturbed dispatch to n subscribers adds n references of the type to that buffer, changes nothing else and refills nothing |
| `CameraStreamHub.SynchronousReturns` | hardware/libcamera/BaseCameraAdapter.cpp:270-287 | the reference is added before the callback runs: callbacks that return the frame at once hand a free buffer back once each |
| `CameraStreamHub.CameraStreamHub.GetRefCountByFrameTypes` | hardware/libcamera/BaseCameraAdapter.cpp:353-365 | the count over both streams is the number of references of the given types held over all buffers |
| `CameraStreamHub.CameraStreamHub.GetStreamRefCount` | hardware/libcamera/BaseCameraAdapter.cpp:200-220 | the bitmask loop visits each type in the mask once and returns the references held over the buffers of the stream |
| `CameraStreamHub.TotalSplit` | hardware/libcamera/BaseCameraAdapter.cpp:358-361 | the total over all buffers is the sum of the totals of the streams |
| `CameraStreamHub.TotalTake` | hardware/libcamera/BaseCameraAdapter.cpp:211-214 | the total does not depend on the order in which buffers are visited |
| `CameraStreamHub.MaskCounts` | hardware/libcamera/BaseCameraAdapter.cpp:206-216 | a mask of one type counts that type, and disjoint masks add up |
| `CameraStreamHub.CameraStreamHub.UseBuffers` | hardware/libcamera/BaseCameraAdapter.cpp:722-743 | the stream's old buffers are gone; the queueable new ones start free, the others with one reference of the type; other streams are unchanged |
| `AdapterState.TargetKnown` | hardware/libcamera/BaseCameraAdapter.cpp:1650-1984 | every accepted transition leads to a known state with AF and ZOOM active only where the preview is, and enters or leaves the video states exactly on the video commands |
| `AdapterState.BaseCommand` | hardware/libcamera/BaseCameraAdapter.cpp:1658-1880 | per command: the base states from which it is accepted and the one it leads to; flags survive it; the preview cannot be stopped while a flag is active |
| `AdapterState.FlagCommand` | hardware/libcamera/BaseCameraAdapter.cpp:1885-1975 | autofocus and zoom start and stop exactly where the preview is active and the flag is off, or on, and change that flag alone |
| `AdapterState.CommandCommits` | hardware/libcamera/BaseCameraAdapter.cpp:695-1233 | with a descriptor and a succeeding hook, an accepted command commits the state it leads to, a refused one none; every command of the machine makes one transaction and the others touch nothing |
| `AdapterState.OutcomeKeepsInv` | hardware/libcamera/BaseCameraAdapter.cpp:695-1233 | every outcome of a command keeps the invariant: lock free, next state equal to the committed one, flags only with preview, recording exactly in the video states |
| `AdapterState.BaseCameraAdapter.SendCommand` | hardware/libcamera/BaseCameraAdapter.cpp:695-1233 | exactly one commit or rollback per command that takes the lock; a refused command leaves the committed state alone even where the status is that of useBuffers; the new state is the proposed one if and only if the hook succeeded |
| `AdapterState.BaseCameraAdapter.RunCommands` | hardware/libcamera/BaseCameraAdapter.cpp:695-1233 | any run of commands with any hook outcomes keeps the invariant and makes one commit or rollback per locking command |
| `AdapterState.BaseCameraAdapter.PreviewSession` | hardware/libcamera/BaseCameraAdapter.cpp:1661-1702 | from INITIALIZED, using preview buffers and starting the preview reaches PREVIEW |
| `AdapterState.BaseCameraAdapter.CaptureSession` | hardware/libcamera/BaseCameraAdapter.cpp:1719-1890 | from PREVIEW or VIDEO, a capture goes through the loaded and the capture state and ends where it began, flags included |
| `AdapterState.BaseCameraAdapter.VideoSession` | hardware/libcamera/BaseCameraAdapter.cpp:1719-1890 | from PREVIEW, recording with a capture in it ends where it began, flags included |
| `AdapterState.BaseCameraAdapter.RollbackToPreviousState` | hardware/libcamera/BaseCameraAdapter.cpp:2018-2066 | sends the one command that leads down, or reports INVALID_OPERATION where there is none |
| `AdapterState.BaseCameraAdapter.RollbackToInitializedState` | hardware/libcamera/BaseCameraAdapter.cpp:1986-1999 | terminates; with succeeding hooks it reaches the initialized state in exactly the measured number of commands, at most five, except from a LOADED state, where it clears ZOOM and AF and stops with INVALID_OPERATION |
| `AdapterState.BaseCameraAdapter.RollbackToPreviewState` | hardware/libcamera/BaseCameraAdapter.cpp:2001-2016 | the same down to preview in at most four commands; a state at or below preview is left alone |
| `AdapterState.StepDownDescends` | hardware/libcamera/BaseCameraAdapter.cpp:2018-2066 | each rollback command lowers the measure by one and keeps a LOADED base state |
| `AdapterState.StepDownAccepted` | hardware/libcamera/BaseCameraAdapter.cpp:2018-2066 | setState accepts the command chosen for the rollback, and its hook is able to succeed |
| `AdapterState.StepDownLeads` | hardware/libcamera/BaseCameraAdapter.cpp:2018-2066 | zoom is stopped first, then autofocus, then the base state is left by the command that leads down |
| `HciPatch.PacketLength` | hardware/bluetooth/mtk6622/radiomod.c:1441-1478 | each packet's length byte is its length minus 3, and it fits HCI_CMD_MAX_SIZE |
| `HciPatch.TransferMeaning` | hardware/bluetooth/mtk6622/radiomod.c:1441-1643 | for every image the payloads concatenate to the image in floor(L/240)+1 well-formed packets: END alone if L < 240, else START, CONTINUEs and END |
| `HciPatch.ExchangeSafe` | hardware/bluetooth/mtk6622/radiomod.c:1441-1643 | whatever completions, allocations and transmissions do, packets go out in transfer order, and success is reported only after all of them |
| `HciPatch.ExchangeSucceeds` | hardware/bluetooth/mtk6622/radiomod.c:1498-1643 | if all succeed, exactly floor(L/240)+1 completions finish the transfer with success |
| `HciEarly.InOrderIffTimely` | hardware/bluetooth/mtk6622/radiomod.c:1479-1643 | with transmission and bookkeeping as separate steps, packet k carries the image from offset 240*k for every k if and only if no good completion that sends on is handled before the bookkeeping of the packet it answers |
| `HciEarly.TimelyIsTransfer` | hardware/bluetooth/mtk6622/radiomod.c:1441-1643 | in every such timely run all payloads are read inside the image and the packets are those of the transfer, from the first on |
| `HciEarly.EarlyCompletionRepeats` | hardware/bluetooth/mtk6622/radiomod.c:1526-1610 | an early completion of any packet, first, middle or last, sends the same part of the image again |
| `HciEarly.BothSubtract` | hardware/bluetooth/mtk6622/radiomod.c:1557-1563 | after an early completion both senders subtract: the 32-bit patch_len wraps exactly if less than two chunks remained |
| `HciEarly.EveryImageCanOverrun` | hardware/bluetooth/mtk6622/radiomod.c:1479-1610 | for every image there is a run in which only the runner is late with its bookkeeping of the first packet, every handler is in time, and a chunk is read from behind the end of the image |
| `HciScript.StepKeepsInv` | hardware/bluetooth/mtk6622/radiomod.c:1869-1943 | every step of runner or callback keeps the runner's invariant |
| `HciScript.RunKeepsInv` | hardware/bluetooth/mtk6622/radiomod.c:1869-1943 | the invariant holds in every interleaving |
| `HciScript.OneOutstanding` | hardware/bluetooth/mtk6622/radiomod.c:1869-1926 | in every interleaving at most one script command is outstanding |
| `HciScript.SuccessMeansAllDone` | hardware/bluetooth/mtk6622/radiomod.c:1869-1943 | success is reported only if every entry that is not skipped finished, in script order, with a Command Complete of its own opcode and status 0 |
| `HciScript.WakesIffNotEarly` | hardware/bluetooth/mtk6622/radiomod.c:1910-1918 | a waiting runner can still be woken by its command if and only if the reply was not handled before cmd_status was set pending |
| `HciScript.LostWakeUp` | hardware/bluetooth/mtk6622/radiomod.c:1897-1916 | for every script that begins with an ordinary command, a perfect reply handled too early leaves a state in which nothing can happen any more |
| `HciScript.PreloadLostWakeUp` | hardware/bluetooth/mtk6622/radiomod.c:153-182 | the preload script has such a run |
| `HciScript.HandshakeOverRuns` | hardware/bluetooth/mtk6622/radiomod.c:1332-1439 | in every interleaving: the host UART changes exactly on an accepting Command Status for 0xFC77 that arrives after that command and before any other script command was sent; 0xFCC0 is sent only right after the change; the command in flight is the last one sent |
| `HciScript.UartAfterBaud` | hardware/bluetooth/mtk6622/radiomod.c:1332-1370 | every UART change in a run has the transmission of 0xFC77 before it, no script command in between, and an accepting Command Status just before |
| `HciScript.UartIffAccepted` | hardware/bluetooth/mtk6622/radiomod.c:1344-1384 | in every run the host UART was changed if and only if such a Command Status was received |
| `HciScript.SuccessWithoutUart` | hardware/bluetooth/mtk6622/radiomod.c:1400-1411 | for every such script, with or without patch data, there is a run that ends in success without any UART change: a lone Command Complete for 0xFC77 is taken as success |
| `HciVerdict.VerdictByEvent` | hardware/bluetooth/mtk6622/radiomod.c:1332-1439 | what every callback does to cmd_status, by the code, opcode and status of its event: trouble fails the current command, a command's last good event succeeds, every other good event, the wake-up reply among them, leaves it alone; a wake-up reply with another status fails it |
| `HciVerdict.FailureNeedsCause` | hardware/bluetooth/mtk6622/radiomod.c:1332-1931 | in every run cmd_status is failed, or the runner gives up, only after a refused alloc or transmit or a bad event |
| `HciVerdict.HandshakeSucceeds` | hardware/bluetooth/mtk6622/radiomod.c:1332-1931 | a controller that sends the Command Status, the wake-up reply and the Command Completes brings every script to success, and a baud-rate entry has then changed the host UART and sent the wake-up packet |
| `HciScript.PreloadOk` | hardware/bluetooth/mtk6622/radiomod.c:153-182 | the preload script carries the baud-rate and patch opcodes exactly on those entries, never the wake-up opcode, and loads the patch once, at entry 6: what the other results ask of a script |
| `HciRadio.Radio.OnCommonComplete` | hardware/bluetooth/mtk6622/radiomod.c:1793-1830 | the event buffer is released exactly once, and the status set is that of the matching Command Complete |
| `HciRadio.Radio.OnBaudCommand` | hardware/bluetooth/mtk6622/radiomod.c:1332-1439 | the event buffer is deallocated or re-sent as the wake-up packet, exactly once on every path, and the effect is that of the script step |
| `HciRadio.Radio.OnWakeUp` | hardware/bluetooth/mtk6622/radiomod.c:1384-1439 | the wake-up reply is deallocated once, and the effect is that of the script step, which by VerdictByEvent fails the current command exactly on a bad reply |
| `HciRadio.Radio.OnWritePatch` | hardware/bluetooth/mtk6622/radiomod.c:1498-1643 | event and command buffers are each released exactly once on every path, and the effect is that of the transfer step |
| `HciRadio.Radio.SendCommand` | hardware/bluetooth/mtk6622/radiomod.c:1883-1908 | the command buffer is accepted by transmit or deallocated on every path, and the effect is that of the script step |
| `HciRadio.Radio.SendPatchStart` | hardware/bluetooth/mtk6622/radiomod.c:1441-1496 | the first packet and its bookkeeping are those of the transfer; a refused transmit leaves the buffer with the caller |
| `HciRadio.Radio.BuildPatch` | hardware/bluetooth/mtk6622/radiomod.c:1441-1478 | patching the header template byte by byte yields the packet for the chunk |
| `HciDownload.SuccessMeansDownloaded` | hardware/bluetooth/mtk6622/radiomod.c:1833-1946 | in every interleaving, if initialisation reports success and there is a patch, exactly the packets of the image have been sent, in order, and their payloads are the image; until the runner gives up, a prefix of them has |
| `HciDownload.ChoiceKeepsInv` | hardware/bluetooth/mtk6622/radiomod.c:1441-1946 | every step of runner or callback keeps the joint invariant of script and transfer |
| `HciDownload.RunIsScriptRun` | hardware/bluetooth/mtk6622/radiomod.c:1833-1946 | every run of the whole system is a run of the script machine, so its results carry over |
| `HciDownload.ExitedIsCleared` | hardware/bluetooth/mtk6622/radiomod.c:1934-1939 | once the runner has gone, no patch data is left for a callback to send |
| `HciDownload.DownloadKeepsHandshake` | hardware/bluetooth/mtk6622/radiomod.c:1332-1439 | the same holds in every run of the whole system |
| `HciDownload.RunRadio` | hardware/bluetooth/mtk6622/radiomod.c:1332-1946 | the objects, driven through any interleaving, follow the system's run, and after every step each buffer allocated or received has been accepted by transmit or deallocated, exactly once |
| `HciSilent.SilentDownload` | hardware/bluetooth/mtk6622/radiomod.c:1332-1946 | for every image there is a run of the whole system that reports success, with exactly the packets of the image sent, in which the host UART was never changed |
| `WordWrap.LinesKeepSegments` | releasetools/edify_generator.py:47-62 | the lines, joined by NULs, are the command: every segment, in order, nothing else |
| `WordWrap.LineWidths` | releasetools/edify_generator.py:47-62 | a line wider than the limit is a single segment; the last line always is one |
| `WordWrap.LinesGreedy` | releasetools/edify_generator.py:47-62 | a line ends only because the next segment that has a successor would not fit behind it |
| `WordWrap.RenderKeepsTokens` | releasetools/edify_generator.py:48-64 | the rendered text differs from the command in white space only |
| `WordWrap.RenderReads` | releasetools/edify_generator.py:48-64 | what a reader of the text sees, stated on the text alone: no NUL, indented lines, the lines of the layout, and the command when unwrapped |
| `WordWrap.TextWidths` | releasetools/edify_generator.py:47-62 | no line of the text is wider than linelen, except one that holds a single segment |
| `WordWrap.WordWrap` | releasetools/edify_generator.py:39-64 | the result is the lines with NULs as spaces, joined by a newline and the indentation, with nothing else stripped; it holds no NUL, every newline is followed by the indentation, its lines are those of the layout, and with each newline and its indentation as one space it is the command with a space for each NUL; ValueError exactly if there is no parenthesis |
| `WordWrap.Layout` | releasetools/edify_generator.py:48-62 | the loop terminates and emits the lines in order, indented from the second on |
| `DisplayParameters.RoundTripIff` | frameworks/services/jni/DisplayParameters.cpp:60-106 | unflatten(flatten(m)) is m if and only if no key holds '=' and no value ';' |
| `DisplayParameters.UnflattenStable` | frameworks/services/jni/DisplayParameters.cpp:60-106 | unflatten(flatten(unflatten(s))) equals unflatten(s) for every string |
| `DisplayParameters.ParsePairs` | frameworks/services/jni/DisplayParameters.cpp:78-106 | unflattening any pairs, in any order and with repeated keys, binds each key to its last value and keeps every other binding |
| `DisplayParameters.UnflattenExample` | frameworks/services/jni/DisplayParameters.cpp:78-106 | "name=x;description=y" gives both bindings, in key order |
| `DisplayParameters.FlattenMeans` | frameworks/services/jni/DisplayParameters.cpp:60-76 | an entry is flattened to its key, '=' and its value, and parts are separated by ';' |
| `DisplayParameters.ParseClean` | frameworks/services/jni/DisplayParameters.cpp:78-106 | whatever the input, the vector is sorted, with no '=' in a key and no ';' in a value |
| `DisplayParameters.AddSorted` | frameworks/services/jni/DisplayParameters.cpp:97-104 | adding keeps the vector sorted, binds the key and changes no other binding |
| `DisplayParameters.SetCleanIff` | frameworks/services/jni/DisplayParameters.cpp:108-121 | set keeps a vector fit for the round trip if and only if it refuses or the value has no ';' |
| `DisplayParameters.SetBinds` | frameworks/services/jni/DisplayParameters.cpp:108-121 | set binds the key to the value, and changes no other binding, if the key has neither '=' nor ';' and the value no '='; otherwise it changes nothing |
| `DisplayParameters.SetBreaksRoundTrip` | frameworks/services/jni/DisplayParameters.cpp:115-118 | an accepted value that does not survive the round trip |
| `DisplayParameters.DisplayParameters.FlattenMap` | frameworks/services/jni/DisplayParameters.cpp:60-76 | the loop joins the entries with ';' in between only |
| `DisplayParameters.DisplayParameters.UnflattenString` | frameworks/services/jni/DisplayParameters.cpp:78-106 | the pointer loop computes the recursive parse, and its result is sorted and clean |
| `CtrlInterface.RewriteShape` | wifi/wifi.c:380-404 | the result is the same prefix, the new value, at least one newline and the same tail; it is no shorter than the original and longer by at most the interface name |
| `CtrlInterface.RewriteText` | wifi/wifi.c:380-404 | on the text itself: prefix, key, old value, newline and tail become prefix, key, name, newlines and tail, the name and its newlines taking up at least the old line |
| `CtrlInterface.DirectoryUnchanged` | wifi/wifi.c:380-382 | a text that holds the key in either directory form, or not at all, comes back unchanged |
| `CtrlInterface.RewriteIdempotent` | wifi/wifi.c:380-404 | a second run changes nothing |
| `CtrlInterface.RewriteSetsValueIff` | wifi/wifi.c:380-394 | for a newline-terminated value that is not a directory, the value after the rewrite is the interface name if and only if the name has no newline and is not a proper prefix of the old value |
| `CtrlInterface.LongerValueStays` | wifi/wifi.c:387-387 | with the name wlan0, the value wlan01 is left in place |
| `CtrlInterface.MoveCountIff` | wifi/wifi.c:389-392 | the byte count given to memmove is valid if and only if the line is newline-terminated; otherwise it is -1 |
| `CtrlInterface.Blocks` | wifi/wifi.c:391-394 | memmove, memset and memcpy in sequence splice the line |
| `CtrlInterface.UpdateBuffer` | wifi/wifi.c:380-404 | the in-place operations stay inside the allocation and produce the rewritten text; otherwise the buffer is untouched |
| `CtrlInterface.UpdateFile` | wifi/wifi.c:336-407 | the file written back without truncation is exactly the rewritten text, with no stale bytes, and needs no further rewrite |
| `WorkerPool.StepKeepsInv` | releasetools/common.py:930-951 | every step keeps: the lock is held by exactly the worker that says so, and every item handed out is computed or with exactly one worker |
| `WorkerPool.RunKeepsInv` | releasetools/common.py:930-961 | this holds in every interleaving of any number of workers |
| `WorkerPool.JoinedMeansAllComputed` | releasetools/common.py:930-961 | when all workers have joined, the lock is free and every difference was computed exactly once |
| `WorkerPool.IteratorUnderLock` | releasetools/common.py:922-935 | the iterator moves only under the lock and hands out items in non-increasing target size |
| `WorkerPool.RunsAreShort` | releasetools/common.py:930-951 | every run of k workers over n items has at most 4n+2k steps |
| `WorkerPool.NoDeadlock` | releasetools/common.py:930-951 | as long as no worker died, some worker can go on until all are done |
| `WorkerPool.NeverDiesIff` | releasetools/common.py:948-949 | no run loses a worker to the division if and only if no target is empty |
| `WorkerPool.DeathNeedsPatch` | releasetools/common.py:945-949 | in every run a worker is dead only if it produced a patch for an empty target; a failed patch spares it |
| `WorkerPool.EmptyPatchKills` | releasetools/common.py:945-949 | a produced patch for an empty target kills its worker, whose only way on is to report it |
| `WorkerPool.DeadStopsHandouts` | releasetools/common.py:930-954 | a worker that died keeps the lock, so nothing is handed out any more |
| `WorkerPool.DeathIsFinal` | releasetools/common.py:930-961 | after a death, over every continuation, nothing is handed out, and all threads have ended if and only if they had all ended at the death |
| `WorkerPool.DeathBlocksReturn` | releasetools/common.py:930-961 | a death while differences are left and another worker exists keeps ComputeDifferences from ever returning |
| `WorkerPool.MaximalRunsComplete` | releasetools/common.py:930-961 | with no empty target, every run that can go no further has computed everything exactly once, with the lock free and all workers joined |

## Left out

- Foreign code: OMX, V4L2, gralloc, ION, wpa_ctrl, sysfs, ioctl and libc. Where a result matters it is a parameter.
- CameraHal, the OMX adapter, the notifier and display threads: only their callback buffer sizes are used (hardware/libcamera/AppCallbackNotifier.cpp:2685-2693).
- The remaining sensor drivers, `enable` and `setDelay`: the same assembly with other event codes, and sysfs writes. The gyro's pending-event path and the orientation driver are out as well.
- Floating-point rounding of acceleration values: `real` arithmetic, since rounding is not the point.
- SensorPoll.PollContext.PollEvents: takes a finite script of kernel rounds, because the loop may legitimately never return; drivers are values, not objects, and have no pending-event shortcut and no read errors.
- YUYVResize, the other stride wrappers and the equal-size copy shortcut: the same loops with other constants. Null pointer checks inside the resizers are out too.
- Resize.Yuv420Resize: stated for crops and outputs of at least two samples each way, since below that the source's unsigned arithmetic underflows, and where the chroma reads stay inside (see ChromaIndexIff) and the output samples do not share addresses (see Yv12WritableIff).
- StreamRefCounts.RightIffNoRefill: leaves out initRefCount on the buffer being cleared, for which see WrongNeedsCause and EarlyInit; the admitted schedules have initRefCount find no references of other types, without which the counts lose their meaning (see InitConsistentIff). In the other results adding a lent buffer and its initRefCount are one step.
- HciEarly.EveryImageCanOverrun: takes the image to be at least 240 bytes short of 4 GiB, beyond which patch_offset wraps too.
- Wrap-around of 32-bit reference counts: counts are natural numbers.
- CameraStreamHub.CameraStreamHub.SendFrame: dispatches one frame type; the hub's loop over the type mask (hardware/libcamera/BaseCameraAdapter.cpp:399-445) would only repeat it. A buffer removed while it is being dispatched is out: the source goes on with the object it has, which the map no longer holds.
- That no frame is refilled before later subscribers of the same dispatch see it: the source does not promise it, since references are added one subscriber at a time.
- AdapterState.BaseCameraAdapter.SendCommand: hooks are nondeterministic statuses, except start and stop of video recording, which are the base class's own.
- CameraStreamHub.CameraStreamHub.ClearStream: clears each buffer in one step; the same pass with steps in the unlocked windows is `StreamRefCounts.PassClearsType`, and its refill decisions are `StreamRefCounts.RightIffNoRefill`.
- CameraStreamHub.CameraStreamHub.Unsubscribe: the same, since it clears through ClearStream.
- HciScript.HandshakeOverRuns: takes events to reach the callback registered for their opcode, since one handler serves both the baud-rate and the wake-up packet.
- HciDownload.SuccessMeansDownloaded: takes each callback to run after the bookkeeping of the send it answers, and callbacks to stay registered throughout.
- The combo-chip script, the BD-address query, the SCO thread, and use of the mutex after the runner destroyed it.
- WordWrap.WordWrap: takes a newline-free command whose indentation is within the line length; beyond it the pattern's braces become literal text.
- CtrlInterface.UpdateFile: takes the buffer to end where the file ends (the source does not terminate it), the line to be newline-terminated (see MoveCountIff), and file operations to succeed.
- WorkerPool.IteratorUnderLock: takes the list to be sorted already; the sort is Python's.
- Converters, the JPEG encoder, lights, HDMI tables, counters, the remaining release tools, logging and timing.
