# A verified model of the Tegra device tree's concurrent and stateful cores

Five components of this device repository carry state, loops or interleavings in which
hard properties live. Each is modelled here in the form its source has, and its
properties are proved for all inputs, all threads and all runs.

| files | what they model |
|---|---|
| `RefBase.dfy`, `RefBaseProof.dfy`, `RefBaseRuns.dfy` | the lock-free strong and weak reference counts of `RefBase`, one atomic operation a step, any number of threads |
| `SharedBuffer.dfy`, `VectorImpl.dfy`, `StableSort.dfy`, `SortedVector.dfy` | copy-on-write vectors over shared buffers: growth, removal, sorting, sorted vectors |
| `AudioLocks.dfy`, `AudioDeadlock.dfy`, `AudioRouting.dfy` | the audio HAL's locks, and the configuration state of its streams |
| `EchoDownlink.dfy` | the echo canceller's downlink: buffers of any size cut into fixed frames |
| `InputEventReader.dfy`, `AkmSensor.dfy`, `PollEvents.dfy` | the sensor pipeline: circular reader, compass driver, multiplexing loop |
| `WhisperCrc.dfy`, `WhisperCrcAlgebra.dfy` | the CRC of the whisper accessory protocol |

## How to read it

**RefBase.** A state is the two counters, the flags, what has been freed and every thread's
program counter; `Step` executes one source line of one thread. The client discipline is
in `CanCall` and `CanGo`: a reference is taken from one already held or by a promotion; the
creator may use the bare address while nobody else can have used it or while it holds
a weak reference; `incStrong` is called only while the strong count is positive (the
assertion at `libshims/RefBase.cpp:336`); there are fewer than 2^28 references. The flags follow
STRONG = 0, WEAK = MASK = 1; the header that defines them is not part of this model.
`Inv` says that both counters are the sums of what threads hold and have in flight,
plus the bias while it is owed, and what is allocated. It is kept by an allowed action
*if and only if* that action is not a `Collision`: the compare-and-swap of
`attemptIncStrong` that subtracts the bias while an `incStrong` has seen it and is about
to subtract it too. `CollisionHappens` is a run of fifteen actions that gets there.
`DisciplinedRunIsClean` shows two client rules that exclude it, and `FirstReferenceHappens`
and `FirstPromotionHappens` are runs under each rule that end with a strong reference.

**Vectors.** `Heap` maps addresses to buffers, `Vecs` maps vectors to their storage and size.
Slots are `Raw` or `Live`; `Construct`, `Destroy` and `Move` can only be called on slots in the
right state, and `Dealloc` only on a buffer without live slots. `constructed` and `destroyed` count
what `DoCopy` and `DoDestroy` do, and unless destruction is trivial `Valid` says that their difference
is the number of elements in the buffers; in the middle of an operation `Outside` counts those
elsewhere, sort's temporary among them. Every operation keeps `Valid` and says how much it constructs
and destroys, so that no element vanishes or is destroyed twice, and `AllDestroyed` follows.
`OthersKept` says that no other vector sees a change.

**Audio.** `AudioLocks` turns each call into the sequence of its lock operations, and of the
places where it looks at or changes a stream's state, descriptor or frame counter, with
every data-dependent branch a free choice, and shows that each keeps to one order, holds the
locks it needs where it needs them and ends without locks. `AudioDeadlock` interleaves such
calls of any number of threads. What is under the hardware lock happens one operation at a
time, and `AudioRouting` models that part.

**Echo, sensors, CRC.** Each has a specification on values, and a class or method with the
source's loops that is proved against it. What the compass driver's specification `Out` means is
said once more by positions in the log (`Reported`), without any state.

## What turned out otherwise

- `incStrong` and `attemptIncStrong` can both remove the bias (`RefBaseRuns.CollisionHappens`); the
  strong count is then negative.
- An output that is written to before it is first routed can take that routing for a mere
  change of rate. A request that comes then, before the next `write()`, is recorded, but no `write()` carries
  it out until it is made once more or the stream has been in standby (`AudioRouting.OutputRequestLost`). The exact condition is `RequestLost`: a routing leaves it if and only if
  the stream is in NEW_RATE_REQ and the request differs from what is enabled (`OutStream.SetDriver_l`), and a
  `write()` ends with something else enabled than requested if and only if it began so (`Hardware.Write`).
  NEW_RATE_REQ is reached from `RateLost` only, which is the exact condition for a routing that leaves an output
  unsettled; a settled output stays settled, and loses nothing.
- The comment at `libaudio2/deprecated/libaudio/AudioHardware.cpp:1573` says that an input is always
  configured when `setDriver_l()` is called. It is not: a second routing before the next
  `read()` turns CONFIG_REQ into NEW_RATE_REQ (`AudioRouting.ConfigRequestReplaced`), so that the next
  `online_l()` does not reconfigure the capture driver; `InSettled` has the exact condition, at the
  routing and at the read. It does no lasting harm: that read fails on its rate and puts
  the input in standby, and every input that is not in standby runs at its own rate, which the
  capture driver was told, except between the failure of a `read()` and the standby that it goes on to
  without a lock in between (`AudioRouting.Hardware.PerformAll`).
- The zero padding of a downlink frame starts at a 16-bit sample, so with an odd number of bytes
  it is one byte off (`EchoDownlink.ZeroTail` has the exact condition, `EchoDownlink.MisplacedPadding` a run).
- A sensor with both a pending event and an undrained ring loses its POLLIN mark
  (`PollEvents.VisitKeepsTrack`); no driver here sets its pending flag, so this cannot happen now.
- A `poll()` that fails after some sensors were read drops their events (`PollEvents.FailureDropsEvents`);
  nothing is dropped unless one fails (`PollEvents.PollContext.PollEvents`).
- Inserting nothing at the end of a full vector answers NO_MEMORY (`VectorImpl.Vectors.Insert`).

## Model

| member | source | states |
|---|---|---|
| RefBaseProof.InitialInv | libshims/RefBase.cpp:590-593 | a new object, biased and unreferenced, satisfies the invariant |
| RefBaseProof.GoKeeps | libshims/RefBase.cpp:329-541 | every atomic step of any thread keeps both counters exact, the memory accounted for and every other thread's assumptions, unless it is a collision |
| RefBaseProof.CollisionBreaks | libshims/RefBase.cpp:526-538 | the colliding compare-and-swap always breaks the invariant |
| RefBaseProof.StepKeepsUnlessCollision | libshims/RefBase.cpp:329-541 | an allowed action keeps the invariant if and only if it is not a collision: the overlap is the only obstacle |
| RefBaseRuns.RunKeepsInv | libshims/RefBase.cpp:329-614 | the counters are exact in every state of every clean run of any number of threads |
| RefBaseRuns.NeverFreedWhileHeld | libshims/RefBase.cpp:348-437 | object and weakref_impl are freed at most once, never while a reference that keeps them alive is held, and no step touches freed memory; for both lifetimes |
| RefBaseRuns.QuiescentExact | libshims/RefBase.cpp:407-437 | between calls the counters equal the references held, and once none is left both allocations are gone |
| RefBaseRuns.ZeroIsFinal | libshims/RefBase.cpp:459-495 | with the STRONG lifetime no step raises a strong count of zero |
| RefBaseRuns.NoRevival | libshims/RefBase.cpp:439-541 | with the STRONG lifetime, after the count was zero no thread ever holds or is about to get a strong reference |
| RefBaseRuns.PromotionOutcome | libshims/RefBase.cpp:439-541 | a whole attemptIncStrong call with the STRONG lifetime, among any other threads, returns a reference if and only if the strong count is not zero when it returns |
| RefBaseRuns.ExtendedPromotionOutcome | libshims/RefBase.cpp:439-541 | a whole attemptIncStrong call with the WEAK lifetime, in any run, returns a reference if and only if onIncStrongAttempted did not refuse it |
| RefBaseRuns.ReferencedPromotionSucceeds | libshims/RefBase.cpp:449-459 | with either lifetime, a call during which the object stays strongly referenced returns a reference without asking onIncStrongAttempted |
| RefBaseRuns.WeakPromotionSucceeds | libshims/RefBase.cpp:543-562 | a whole attemptIncWeak call through a held reference, among any other threads, returns a weak reference |
| RefBaseRuns.BiasGone | libshims/RefBase.cpp:344-344 | once removed the bias never comes back |
| RefBaseRuns.BiasRemovedOnce | libshims/RefBase.cpp:526-538 | no clean run removes the bias twice |
| RefBaseRuns.FirstRefOnce | libshims/RefBase.cpp:344-345 | no clean run calls onFirstRef twice |
| RefBaseRuns.UnbiasRemoves | libshims/RefBase.cpp:344-345 | the incStrong that removes the bias goes on to onFirstRef |
| RefBaseRuns.CallbackDue | libshims/RefBase.cpp:340-523 | exactly which step of which call leads to onFirstRef, onLastStrongRef, onIncStrongAttempted and the end of the last weak reference |
| RefBaseRuns.DisciplinedRunIsClean | libshims/RefBase.cpp:329-346 | runs in which the creator shares no weak reference from the bare address, or takes no strong one from it, have no collision |
| RefBaseRuns.FirstReferenceHappens | libshims/RefBase.cpp:329-346 | for either lifetime a creator without a weak reference can take the first strong one, in a clean run |
| RefBaseRuns.FirstPromotionHappens | libshims/RefBase.cpp:439-541 | so can one that first makes a weak reference and promotes it |
| RefBaseRuns.CollisionUnderflows | libshims/RefBase.cpp:344-344 | after any collision the pending subtraction makes the strong count negative |
| RefBaseRuns.CollisionHappens | libshims/RefBase.cpp:335-344 | for either lifetime there is an allowed run that collides and ends with a negative count |
| SharedBuffer.HeldIsAlive | libshims/SharedBuffer.cpp:113-123 | in every sound heap a buffer exists if and only if some vector holds it |
| SharedBuffer.SoleHolder | libshims/SharedBuffer.cpp:91-97 | a count of one is exactly sole ownership |
| SharedBuffer.ReleaseSound | libshims/SharedBuffer.cpp:113-123 | releasing keeps all counts right and changes nothing another vector sees |
| SharedBuffer.ShareSound | libshims/SharedBuffer.cpp:109-111 | so does sharing |
| SharedBuffer.WriteSound | libshims/SharedBuffer.cpp:91-97 | a write by the sole owner changes nothing another vector sees |
| VectorImpl.Vectors.ReleaseStorage | libshims/VectorImpl.cpp:364-373 | the last holder destroys every element and frees the buffer, any other only drops its count |
| VectorImpl.Vectors.AllDestroyed | libshims/VectorImpl.cpp:364-373 | once no vector has storage there is no buffer, and as many elements were destroyed as were constructed |
| VectorImpl.Vectors.EditResize | libshims/SharedBuffer.cpp:66-89 | the vector gets a private buffer of the new size with the slots that fit |
| VectorImpl.Vectors.EditArray | libshims/VectorImpl.cpp:86-105 | afterwards the vector is the sole owner of the same contents, all of it copied; nothing happens if it was |
| VectorImpl.Vectors.New | libshims/VectorImpl.cpp:45-48 | a new vector is empty, has no storage, and no other vector sees a change |
| VectorImpl.Vectors.CopyConstruct | libshims/VectorImpl.cpp:50-57 | the copy shares the storage and has the same contents |
| VectorImpl.Vectors.Assign | libshims/VectorImpl.cpp:68-84 | the target has the source's contents, shares its storage unless that is empty, and self-assignment changes nothing |
| VectorImpl.Vectors.Finish | libshims/VectorImpl.cpp:290-295 | exactly the buffer of which the vector was the last holder is freed |
| VectorImpl.Vectors.Grow | libshims/VectorImpl.cpp:375-448 | a gap of vacant slots at the right place between the old elements, the capacity rule, and when no address is returned |
| VectorImpl.Vectors.Insert | libshims/VectorImpl.cpp:125-159 | refines sequence splice; bad index, the capacity afterwards, and how many elements are copied and destroyed |
| VectorImpl.Vectors.InsertVectorAt | libshims/VectorImpl.cpp:115-134 | splices in a vector's contents, also when both share one buffer, and when a sole owner appends itself within its capacity |
| VectorImpl.Vectors.Push | libshims/VectorImpl.cpp:235-238 | appends, and goes on growing as Pushed says |
| VectorImpl.PushesAreAmortised | libshims/VectorImpl.cpp:389-402 | n pushes copy fewer than 3n elements, and at most twice the capacity |
| VectorImpl.Vectors.PushAll | libshims/VectorImpl.cpp:235-238 | a new vector filled by pushes has the items in order, and fewer than 3 copies were made and destroyed for each |
| VectorImpl.Vectors.Shrink | libshims/VectorImpl.cpp:450-514 | refines removal from a sequence; when and to what the capacity shrinks, and how many elements are copied and destroyed |
| VectorImpl.Vectors.RemoveItemsAt | libshims/VectorImpl.cpp:278-288 | the same with its range check |
| VectorImpl.Vectors.ReplaceAt | libshims/VectorImpl.cpp:255-276 | one element is replaced in a private copy: one is destroyed, and one constructed beside those copied |
| VectorImpl.Vectors.SetCapacity | libshims/VectorImpl.cpp:332-352 | same contents, and the capacity asked for unless it is not above the size |
| VectorImpl.Vectors.Sort | libshims/VectorImpl.cpp:171-222 | the contents are sorted as InsertionSort does, other vectors are unaffected, a vector in order is not even made private, and exactly SortCopies elements are copied and destroyed, the temporary included |
| VectorImpl.Vectors.ShiftUp | libshims/VectorImpl.cpp:196-208 | the inner loop moves exactly the greater elements up, one slot at a time |
| StableSort.InsertionSortIsStableSort | libshims/VectorImpl.cpp:171-222 | for any total preorder the result is sorted, a permutation, and keeps the order of equal elements |
| StableSort.StableSortUnique | libshims/VectorImpl.cpp:173-175 | these properties determine the result |
| StableSort.SortCopiesAre | libshims/VectorImpl.cpp:173-175 | for any total preorder the copies are the inversions of the input, and two for each element that has to move |
| StableSort.NoCopies | libshims/VectorImpl.cpp:184-184 | nothing is copied if and only if the input is in order |
| StableSort.SortedIsFixed | libshims/VectorImpl.cpp:184-184 | a sequence in order is its own result |
| SortedVector.IndexOrderOf | libshims/VectorImpl.cpp:597-621 | on any sorted vector, an index with an equal element or the insertion point |
| SortedVector.InsertionPointUnique | libshims/VectorImpl.cpp:597-621 | there is only one insertion point, and no equal element beside it |
| SortedVector.Add | libshims/VectorImpl.cpp:623-633 | an equal element is replaced or the item put at its insertion point, and order is kept; on a strict vector this is update of a sorted map |
| SortedVector.Remove | libshims/VectorImpl.cpp:670-677 | an equal element goes if there is one, and order is kept; on a strict vector this is removal from a sorted map |
| SortedVector.MergeVector | libshims/VectorImpl.cpp:635-650 | merging any vector keeps order, and updates the map of a strict one with the items in order |
| SortedVector.Merge | libshims/VectorImpl.cpp:652-668 | merging a sorted vector gives the union of keys in order, strictly if and only if the fast paths did not meet in equal elements; which of two equal items is found |
| AudioLocks.RouteNeutral | libaudio2/deprecated/libaudio/AudioHardware.cpp:660-852 | doRouting_l gives its caller back exactly the locks and flags it came with, and holds the hardware lock and each stream's own lock where it changes that stream |
| AudioLocks.RouteTouches | libaudio2/deprecated/libaudio/AudioHardware.cpp:791-827 | doRouting_l changes the output, an active input, and the path of both when Bluetooth starts or stops |
| AudioLocks.SwitchUnderBoth | libaudio2/deprecated/libaudio/AudioHardware.cpp:780-810 | both streams' locks are owned when the descriptors are locked for a change of path |
| AudioLocks.CodeTouches | libaudio2/deprecated/libaudio/AudioHardware.cpp:1141-1167 | which calls transfer, configure, put to standby, route, and use descriptors and frame counters |
| AudioLocks.EnterSafe | libaudio2/deprecated/libaudio/AudioHardware.cpp:1141-1167 | write() and read() come out of their entry with their own stream's lock only |
| AudioLocks.DoStandbySafe | libaudio2/deprecated/libaudio/AudioHardware.cpp:1349-1382 | standby() keeps to the lock order and gives all locks back |
| AudioLocks.CodeSafe | libaudio2/deprecated/libaudio/AudioHardware.cpp:174-301 | every call does, from the opening of a stream to its deletion |
| AudioDeadlock.StepKeeps | libaudio2/deprecated/libaudio/AudioHardware.cpp:780-838 | whatever the interleaving, each thread stays on a course that keeps to the order |
| AudioDeadlock.NoWaitCycle | libaudio2/deprecated/libaudio/AudioHardware.cpp:660-852 | no reachable state has a cycle of threads that wait for each other |
| AudioDeadlock.DeadlockFree | libaudio2/deprecated/libaudio/AudioHardware.cpp:660-852 | in every reachable state with an unfinished call some thread can go on |
| AudioDeadlock.SecondStreamLock | libaudio2/deprecated/libaudio/AudioHardware.cpp:780-789 | a second stream lock is only wanted under the hardware lock |
| AudioDeadlock.WorkIsLocked | libaudio2/deprecated/libaudio/AudioHardware.cpp:780-838 | in every reachable state a thread at the state, the descriptor or the frame counter of a stream owns the lock of that part, and to change a state the hardware lock |
| AudioDeadlock.MutualExclusion | libaudio2/deprecated/libaudio/AudioHardware.cpp:780-838 | no two threads are at the same part of a stream, and only one changes the state of any stream |
| AudioDeadlock.LockedMeansMine | libaudio2/deprecated/libaudio/AudioHardware.h:202-206 | under the hardware lock mLocked is true only if the thread owns that stream's lock |
| AudioDeadlock.NothingLeftBehind | libaudio2/deprecated/libaudio/AudioHardware.cpp:780-838 | when all calls are over no lock is taken and no flag is set |
| AudioRouting.OutStream.SetDriver_l | libaudio2/deprecated/libaudio/AudioHardware.cpp:1042-1062 | which change of state a routing causes; only a configured output notices, and a request is lost if and only if it is a change during NEW_RATE_REQ |
| AudioRouting.InStream.SetDriver_l | libaudio2/deprecated/libaudio/AudioHardware.cpp:1567-1584 | the input notices in any state, and when it is left unsettled, exactly |
| AudioRouting.Hardware.GetActiveInput_l | libaudio2/deprecated/libaudio/AudioHardware.cpp:903-915 | the first input that is not in standby, and null if and only if there is none |
| AudioRouting.Hardware.DoRouting_l | libaudio2/deprecated/libaudio/AudioHardware.cpp:660-838 | Bluetooth is on if either side asks for it, and then both rates are 8000, otherwise 44100 for the output and the active input's own; requests follow the devices; the output is settled afterwards if and only if it was not in a state that loses the rate; settled stays settled; exactly when a request is lost, and when the active input is settled |
| AudioRouting.Hardware.OutOnline_l | libaudio2/deprecated/libaudio/AudioHardware.cpp:1277-1347 | going online carries out the request, except after NEW_RATE_REQ, and keeps the output settled |
| AudioRouting.Hardware.Write | libaudio2/deprecated/libaudio/AudioHardware.cpp:1141-1167 | a settled output is configured as last requested, at 8000 if Bluetooth is enabled and at 44100 otherwise; any output ends with something else enabled if and only if its request was lost before; which rate the driver has |
| AudioRouting.Hardware.OutStandby | libaudio2/deprecated/libaudio/AudioHardware.cpp:1349-1382 | standby keeps the output settled |
| AudioRouting.Hardware.SetOutDevices | libaudio2/deprecated/libaudio/AudioHardware.cpp:1426-1448 | new output devices keep the output settled, and what becomes of its state |
| AudioRouting.Hardware.InOnline_l | libaudio2/deprecated/libaudio/AudioHardware.cpp:1718-1784 | the capture driver learns the rate, except after NEW_RATE_REQ, when the input is settled only if the rate was the same |
| AudioRouting.Hardware.Read | libaudio2/deprecated/libaudio/AudioHardware.cpp:1602-1637 | if nothing comes between, read() goes on if and only if the input then runs at its own rate, and to standby otherwise; a configured input is left as it is |
| AudioRouting.Hardware.StartRead | libaudio2/deprecated/libaudio/AudioHardware.cpp:1602-1637 | the part of read() up to the look at the rates |
| AudioRouting.Hardware.FailRead | libaudio2/deprecated/libaudio/AudioHardware.cpp:1664-1668 | the standby of a read() that failed |
| AudioRouting.Hardware.InStandby | libaudio2/deprecated/libaudio/AudioHardware.cpp:1679-1715 | an input's standby keeps the output settled and drops the echo cancellation request |
| AudioRouting.Hardware.SetInDevices | libaudio2/deprecated/libaudio/AudioHardware.cpp:1849-1878 | more than one device is refused; what becomes of the input's devices, flags and state; the output stays settled |
| AudioRouting.Hardware.CloseOutputStream | libaudio2/deprecated/libaudio/AudioHardware.cpp:222-235 | the closed output is in standby and routes nothing |
| AudioRouting.Hardware.CloseInputStream | libaudio2/deprecated/libaudio/AudioHardware.cpp:269-284 | the standby of the removed input keeps the output settled |
| AudioRouting.Hardware.PerformAll | libaudio2/deprecated/libaudio/AudioHardware.cpp:660-852 | over any run of requests a settled output stays so until it is closed, so NEW_RATE_REQ is not entered, and every input not in standby runs at its own rate, known to the capture driver, unless a read() that failed is still to put it in standby |
| AudioRouting.OutputRequestLost | libaudio2/deprecated/libaudio/AudioHardware.cpp:1050-1060 | a run in which a write() does not carry out the request, and the next one does once it is repeated |
| AudioRouting.ConfigRequestReplaced | libaudio2/deprecated/libaudio/AudioHardware.cpp:1571-1578 | a run in which setDriver_l() replaces CONFIG_REQ by NEW_RATE_REQ, and the read after it fails |
| EchoDownlink.ReleaseBound | libaudio2/deprecated/libaudio/AudioPostProcessor.cpp:424-478 | a writer of W bytes that finds s scratch bytes is released by exactly max(1, (s+W)/b) uplink calls |
| EchoDownlink.FramesAreTheWrite | libaudio2/deprecated/libaudio/AudioPostProcessor.cpp:424-478 | the frames of these calls and the new scratch are the old scratch and the buffer, in order, and the frames are full if one can be |
| EchoDownlink.NextConserves | libaudio2/deprecated/libaudio/AudioPostProcessor.cpp:439-478 | each call keeps every byte in order, and a writer still blocked afterwards has a whole frame left |
| EchoDownlink.ZeroTail | libaudio2/deprecated/libaudio/AudioPostProcessor.cpp:492-497 | when the padded frame is the gathered bytes with a zero tail, exactly |
| EchoDownlink.WholeSamples | libaudio2/deprecated/libaudio/AudioPostProcessor.cpp:492-497 | it always is while frames and writes are whole samples, which the scratch then is too |
| EchoDownlink.MisplacedPadding | libaudio2/deprecated/libaudio/AudioPostProcessor.cpp:492-497 | a write of one byte, which the padding wipes out |
| EchoDownlink.Downlink.WriteDownlink | libaudio2/deprecated/libaudio/AudioPostProcessor.cpp:339-346 | the buffer is added to what was given and its writer waits |
| EchoDownlink.Downlink.ApplyUplink | libaudio2/deprecated/libaudio/AudioPostProcessor.cpp:408-497 | all bytes given are the bytes gathered, the scratch and the unread rest, in order; the scratch is below a frame, the memory-leak branch is not reached, and the frame is padded over what the buffer held before |
| EchoDownlink.Downlink.ToStereo | libaudio2/deprecated/libaudio/AudioPostProcessor.cpp:510-517 | every sample twice, converted in place |
| InputEventReader.InputEventCircularReader.Fill | sensors/InputEventReader.cpp:52-75 | the events read are appended to the log the ring stands for, none unread is overwritten, and the error results |
| InputEventReader.InputEventCircularReader.Store | sensors/InputEventReader.cpp:56-70 | where the events go in the ring, also when they run over its end |
| InputEventReader.InputEventCircularReader.ReadEvent | sensors/InputEventReader.cpp:77-82 | an event is available if and only if one is unread, and it is the oldest |
| InputEventReader.InputEventCircularReader.Next | sensors/InputEventReader.cpp:84-91 | exactly the oldest unread event is consumed |
| AkmSensor.OutConcat | sensors/AkmSensor.cpp:178-219 | what a stream reports is what its first part reports, then what the rest does from what was left pending |
| AkmSensor.SyncResumes | sensors/AkmSensor.cpp:198-213 | a synchronisation event visited again goes on where it was interrupted |
| AkmSensor.AkmSensor.ProcessEvent | sensors/AkmSensor.cpp:221-268 | exactly one bit and one reading of one event for each of ten codes; other codes change nothing |
| AkmSensor.AkmSensor.ReportSync | sensors/AkmSensor.cpp:199-208 | reports as much of a synchronisation event as fits, and what remains is still pending |
| AkmSensor.AkmSensor.Drain | sensors/AkmSensor.cpp:190-218 | at most count events, fewer only with an empty ring, and no event lost, repeated or reordered; the loop ends |
| AkmSensor.AkmSensor.ReadEvents | sensors/AkmSensor.cpp:178-219 | all calls together have written the beginning of what the log says is to be reported, and all of it once the log has been read; the error results |
| AkmSensor.OutIsReported | sensors/AkmSensor.cpp:190-268 | at each EV_SYN exactly the enabled sensors with a reading since the one before are reported, in order, with the last value of each axis and that event's time |
| AkmSensor.ReportedUnique | sensors/AkmSensor.cpp:190-268 | that law determines every report |
| AkmSensor.ChunkingInvariance | sensors/AkmSensor.cpp:178-219 | however two runs cut the same input into calls, once drained they have reported the same |
| PollEvents.ReadAkm | sensors/AkmSensor.cpp:178-219 | the compass driver meets the contract the multiplexing loop relies on |
| PollEvents.VisitKeepsTrack | sensors/nusensors.cpp:175-185 | visiting a sensor loses track of its ring if and only if it had both a pending event and a ring |
| PollEvents.PollContext.ReadAll | sensors/nusensors.cpp:174-186 | drivers are visited in order while there is room; all passed have an empty ring and no mark, those not reached are as they were |
| PollEvents.PollContext.PollEvents | sensors/nusensors.cpp:167-209 | entries written are those counted, within the request and at least one; no sensor with unread events loses its mark, and if there was room to spare none has any and none is marked; it never blocks while holding events, and drops some only if a poll() fails |
| PollEvents.FailureDropsEvents | sensors/nusensors.cpp:193-196 | a call that reads an event and then returns an error |
| WhisperCrc.CalculateCrc | whisper/SHA_Comm.c:39-60 | the loops compute Crc of the first count bytes |
| WhisperCrcAlgebra.CrcIsRemainder | whisper/SHA_Comm.c:39-60 | with every bit of the message at its place and the terms of the divisor written out, a word is the CRC if and only if it is the remainder of the message times x^16 modulo x^16+x^15+x^2+1 |
| WhisperCrcAlgebra.CheckValue | whisper/SHA_Comm.c:39-60 | the CRC of the single byte 0x80 is 0x8005 |
| WhisperCrcAlgebra.RemainderUnique | whisper/SHA_Comm.c:39-60 | quotient and remainder are determined |
| WhisperCrcAlgebra.CrcLinear | whisper/SHA_Comm.c:39-60 | the CRC of the exclusive or is the exclusive or of the CRCs |
| WhisperCrcAlgebra.RunParity | whisper/SHA_Comm.c:39-60 | the CRC has the parity of the message |
| WhisperCrcAlgebra.OddErrorsDetected | whisper/SHA_Comm.c:39-60 | messages that differ in an odd number of bits have different CRCs |
| WhisperCrcAlgebra.BurstsDetected | whisper/SHA_Comm.c:39-60 | messages that differ only within 16 consecutive bits have the same CRC if and only if they are equal |

## Left out

- RefBase callbacks: they do nothing here, except that the object may refuse to be revived; `onLastWeakRef`, `forceIncStrong`, `extendObjectLifetime` and the DEBUG_REFS lists are not modelled. Step order is that of sequentially consistent atomics.
- VectorImpl.Vectors.InsertVectorAt: excludes a vector that owns its storage alone and is inserted into itself other than at the end within its capacity (`SourceStays`); the elements it is about to read have then been moved away or freed.
- VectorImpl.Vectors.Insert: items come from outside the vector, and allocations succeed; constructing default items is inserting given ones.
- VectorImpl.Vectors.ReplaceAt: the prototype is given by value, so the case of a prototype that is the replaced item itself is its no-op.
- SortedVector.Merge: a non-empty vector is not merged into an empty one, for which the code compares with an item that is not there, nor a vector with itself.
- Size overflow aborts, and the element-wise `do_copy`, `do_move_forward` and so on, which are in a header that is not part of this model; `Construct`, `Destroy` and `Move` state what they do as a whole, and a move counts neither as a construction nor as a destruction. Bytewise resizing of trivial elements counts nothing.
- AudioRouting: device ids, gains, ioctl results and the echo canceller's buffers; transfers that fail. What happens under the hardware lock is taken one section at a time; a state that changes between the first, unlocked look of `read()` or `write()` at it and the stream's lock is not modelled.
- AudioLocks: which branch is taken is free, so data that would exclude some interleavings is not used; a stream is not used after it was closed.
- EchoDownlink: waits that time out, restarts of the echo canceller and changes of frame size; noise suppression alone; the vendor's signal processing. Buffers are bytes, the stereo conversion works on an array of samples.
- AkmSensor: `mEnabled` is fixed while the stream is read, and values stay raw integers instead of scaled floats.
- PollEvents.PollContext.PollEvents: driver reads succeed; drivers are values with the contract that `ReadAkm` shows of the compass driver, and what devices deliver and poll() finds is given as any schedule. That a blocking poll() returns only with something ready is assumed.
- InputEventReader: the destructor, and reads that end in the middle of an event leave the buffer unchanged.
- WhisperCrc.CalculateCrc: without the byte flip of big-endian builds. `SHAC_SendAndReceive` and the UART bit codec are not modelled.
- The near-identical older `AudioHardware.cpp` in the `deprecated` directory, the accelerometer, gyro, light and pressure drivers, hwc, lights, power and USB audio, and the whisper daemon: simpler variants or glue around system calls.
