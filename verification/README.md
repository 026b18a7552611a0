# Verification of the sample drivers and servers

This project models the stateful algorithms of the sample programs and proves what they are for.

- **xHCI host** (`XhciTrb`, `TrbRing`, `XhciRing`, `EventRing`, `XhciPort`, `XhciHost`, `CommandPath`).
  A producer ring has a cycle bit and a link TRB that toggles it; the controller is the other party,
  with a dequeue pointer and a consumer cycle state (section 4.9 of the xHCI specification, revision
  1.2). Driver writes, link toggles and controller fetches are separate steps that interleave freely.
  `Ring`, `Hcd` and `Port` are the driver's objects with their fields; their methods are proved against
  the ring values, and the theorems are about those. `CommandPath` puts the command ring, the event
  ring, the interrupt handler and the waiting thread together, again one write or flag at a time.
- **GPIO character devices** (`GpioPins`, `GpioFs`, `GpioDriver`, `GpioEvents`). Slot tables, pin masks
  as bit-vectors, requests, closes; event FIFOs with a poll signal and the client that drains them.
- **Stream machines** (`UartLoopback`, `StreamTransfer`, `EscapeDetector`, `HashDrivers`, with `Chunks` and `Division`).
- **Codec, loader, table** (`Base64`, `PasswordMap`, `CommandTable`).

What the environment decides (controller timing, results of `send`, `recv`, FIFO reads, registration of
device paths, answers of the hash library, hash functions) is a parameter, so the theorems range over it.

## Where the code is right only under a condition

- **A ring that is not full can still strand the controller.** A write needs the usual count: fewer than
  `num_trb - 1` TRBs outstanding (`WriteIsExact`, `RoomByCount`). But a write that reaches the link is
  followed by a toggle, and the toggle is seen if and only if the controller has followed the link of the
  previous lap by then (`ToggleIsExact`); otherwise it stops there with TRBs in flight
  (`ParkedControllerStrands`). A fetch between write and toggle is enough (`FetchBetweenWriteAndToggle`).
  `FifoRefinement` holds for exactly the runs whose writes and toggles meet these two conditions, with any
  fetches in between. For an enqueue with no fetch inside, and for a burst of them, `Room` and `BurstRoom`
  say the same in terms of the two indices (`RoomIsExact`, `BurstRoomIsExact`).
- **One command at a time** always finds room for its write, and its toggle is seen in every ring of three
  slots or more; in a ring of two the controller has to fetch once first (`WriteFindsRoom`, `ToggleIsSeen`,
  `ToggleIsSeenAfterFetch`).
- **The default-address pointer** (`xhci.c:390`) starts at the ring's first slot with the current cycle
  state, so it replays the current lap; it is right if and only if nothing was written on that lap
  (`DefaultWordReplaysLap`). The other two pointer words are always right (`ResyncSkipsAndResumes`).
- **A completion handled before the wait begins is lost.** The doorbell is rung before `event_wait` is
  set, so safety holds always, but a waiting call can return if and only if its completion was not
  handled before that (`WaitReturnsIffNotLost`). The very first command can lose its wake-up
  (`WakeUpCanBeLost`); a wait that is not lost ends in every continuation (`EveryContinuationReturns`).
  The handshake also needs the handler to test and set the flags in one piece
  (`DelayedStoreWakesNextWait`).
- **Bias flags of event requests** are tested after a mask that already refuses them; the tests never
  decide anything (`EventFlagsMeaning`).
- **Removing from a full command table.** With 20 names, removing any but the last moves a row in from
  behind the table. `StepKeepsClean` says exactly when that does harm, `ForeignRow` what follows, and
  `ForeignRowIsReachable` that twenty adds lead there; the rows in use stay sorted all the same
  (`AlwaysInOrder`).
- **The loopback loses bytes** exactly when the transmit FIFO accepts less than it is offered, and then by
  as much (`ThrottleSafety`, `ByteCanBeLost`); the code logs and drops them.

## Model

| member | source | states |
|---|---|---|
| XhciTrb.ControlWordRoundTrip | samples/dwc3_host/src/xhci_def.h:22-39 | the type, flag and cycle fields partition the control word: splitting and joining any word gives it back |
| XhciTrb.ControlWordParts | samples/dwc3_host/src/xhci_def.h:22-39 | the type is bits 10 to 15, the cycle state bit 0, the flags everything else |
| XhciTrb.TypeNumbers | samples/dwc3_host/src/xhci_def.h:89-116 | the type codes are the shifted numbers of Table 6-91 of the xHCI specification |
| XhciTrb.LinkTrbCloses | samples/dwc3_host/src/xhci.c:190-194 | the link written by the initialisation addresses the start of the ring, toggles, and starts with cycle state 0 |
| XhciTrb.StampOrsCycleBit | samples/dwc3_host/src/xhci.c:462-465 | or-ing the cycle bit into a control word without one changes the cycle state and nothing else |
| XhciTrb.PointerWordDecodes | samples/dwc3_host/src/xhci.c:392-397 | a pointer word over an aligned ring decodes to the slot and the cycle state it was built from |
| TrbRing.Initial | samples/dwc3_host/src/xhci.c:179-197 | an initialised ring satisfies the cycle partition: slots before the write index carry the cycle bit, all later ones and the link its complement |
| TrbRing.InitialContents | samples/dwc3_host/src/xhci.c:179-194 | the data slots are cleared, and the link holds the ring's own address, its type and the toggle flag, nothing else |
| TrbRing.WriteTrb | samples/dwc3_host/src/xhci.c:211-215 | the write alone keeps the partition, also in the state before the link is toggled |
| TrbRing.ToggleLink | samples/dwc3_host/src/xhci.c:219-225 | the toggle restores the resting form of the partition for the next lap |
| TrbRing.Enqueue | samples/dwc3_host/src/xhci.c:209-226 | an enqueue leads from resting partition to resting partition, wherever it wraps |
| TrbRing.RoomByCount | samples/dwc3_host/src/xhci.c:209-226 | a write finds room iff fewer than `n-1` are outstanding; an enqueue with no fetch inside needs fewer than `n-2` when the controller is parked on the link |
| TrbRing.WriteAppends | samples/dwc3_host/src/xhci.c:211-215 | a write that overruns nothing appends its TRB to what is in flight and disturbs nothing there |
| TrbRing.ToggleKeeps | samples/dwc3_host/src/xhci.c:219-225 | toggling a link whose predecessor was followed changes nothing in flight |
| TrbRing.EnqueueAppends | samples/dwc3_host/src/xhci.c:209-226 | with room, an enqueue appends exactly its TRB to what is in flight |
| TrbRing.FetchTakesOldest | samples/dwc3_host/src/xhci.c:179-226 | a controller fetch takes the oldest TRB in flight, or follows the link, or there is none; every fetch but an idle one makes progress |
| TrbRing.DrainsInFlight | samples/dwc3_host/src/xhci.c:179-226 | left alone the controller takes exactly what is in flight, in order |
| TrbRing.WriteIsExact | samples/dwc3_host/src/xhci.c:211-215 | a write is delivered behind everything in flight iff it overruns nothing; otherwise the controller finds nothing to take |
| TrbRing.ToggleIsExact | samples/dwc3_host/src/xhci.c:219-225 | after a toggle the controller takes what is in flight iff it had followed the previous link; otherwise it takes nothing |
| TrbRing.FetchBetweenWriteAndToggle | samples/dwc3_host/src/xhci.c:209-226 | whenever an enqueue lacks room only for its toggle, one fetch between write and toggle makes it delivered |
| TrbRing.RoomIsExact | samples/dwc3_host/src/xhci.c:209-226 | an enqueue with no fetch between write and toggle is delivered behind everything in flight iff there is room; without room the controller finds nothing to take |
| TrbRing.ParkedControllerStrands | samples/dwc3_host/src/xhci.c:217-225 | a ring state with fewer than `n-1` outstanding in which the next enqueue is not delivered |
| TrbRing.FifoRefinement | samples/dwc3_host/src/xhci.c:179-226 | over all interleavings of writes, toggles and fetches in which no write overruns and no toggle overtakes the controller on the previous link, the controller has taken a prefix of the enqueued TRBs and takes the rest in order |
| TrbRing.ResyncIsCoherent | samples/dwc3_host/src/xhci.c:392-397 | a controller loaded with the resync word has nothing in flight and room for the next enqueue |
| TrbRing.ResyncSkipsAndResumes | samples/dwc3_host/src/xhci.c:429-440 | after a resync none of the earlier and all of the later TRBs are taken, in every interleaving |
| TrbRing.DefaultWordReplaysLap | samples/dwc3_host/src/xhci.c:390 | the default-address pointer makes the controller take the current lap again; it is harmless iff the write index is 0 |
| TrbRing.NextPosition | samples/dwc3_host/src/xhci.c:214-225 | counting TRBs, index and lap advance as remainder and quotient by `n-1` |
| TrbRing.EnqueueAdvances | samples/dwc3_host/src/xhci.c:209-226 | write index and cycle bit are always the remainder and the lap parity of the number of enqueues |
| TrbRing.BurstCarriesLaps | samples/dwc3_host/src/xhci.c:454-498 | TRBs built one after another with the ring's current cycle bit each carry the parity of the lap they land in |
| TrbRing.BurstRoomIsExact | samples/dwc3_host/src/xhci.c:454-498 | the room for a burst, read off the indices, is exactly that every enqueue of it finds room |
| TrbRing.BurstLandsInLaps | samples/dwc3_host/src/xhci.c:454-498 | a burst with room, up to a completely full ring, lands on consecutive positions across the wrap and is in flight in order behind what was there |
| XhciRing.Ring.constructor | samples/dwc3_host/src/xhci.c:179-197 | the initialised transfer or command ring is the initial ring value |
| XhciRing.Ring.EnqueueTrb | samples/dwc3_host/src/xhci.c:209-226 | the in-place enqueue is the enqueue of ring values |
| XhciRing.Ring.DequeueWord | samples/dwc3_host/src/xhci.c:429-435 | the word sent with Set TR Dequeue Pointer is the resync word of the ring |
| XhciRing.ControlStages | samples/dwc3_host/src/xhci.c:454-498 | two or three stages, none a link, in the order of the transfer |
| XhciRing.StatusOpposesData | samples/dwc3_host/src/xhci.c:474-495 | the status stage runs against the data stage, and inwards without one |
| XhciRing.SetupWordsDecode | samples/dwc3_host/src/xhci.c:462-463 | the two words of the setup stage give every field of the setup packet back |
| XhciRing.ControlStagesMean | samples/dwc3_host/src/xhci.c:454-498 | the stages in terms of the request alone: types, order and number, the packet in the setup stage with length 8, buffer and length in the data stage, and every flag of each, with the direction of bit 7 of bmRequestType |
| XhciRing.BulkStageMeans | samples/dwc3_host/src/xhci.c:577-594 | type, buffer, length and flags of a bulk transfer's TRB in either direction |
| XhciRing.QueueControl | samples/dwc3_host/src/xhci.c:454-498 | the in-place code enqueues exactly those stages, each stamped with the cycle bit current when it is built |
| XhciRing.QueueBulk | samples/dwc3_host/src/xhci.c:577-594 | the in-place code enqueues exactly the one TRB of a bulk transfer |
| XhciRing.ControlTransferArrives | samples/dwc3_host/src/xhci.c:454-498 | wherever the wrap falls among the stages, and on any ring they fit on, the controller takes them in order, each with its lap's cycle state |
| EventRing.AdvanceByRemainder | samples/dwc3_host/src/xhci.c:149-151 | the index advance by remainder is the wrap to 0 |
| EventRing.WalkStops | samples/dwc3_host/src/xhci.c:124-154 | for any contents of the ring the handler's loop stops within `n` iterations |
| EventRing.WalkExtends | samples/dwc3_host/src/xhci.c:124-154 | one more iteration handles the slot at the read index and advances |
| EventRing.PostAppends | samples/dwc3_host/src/xhci.c:124-154 | posting with fewer than `n` pending appends the event |
| EventRing.AdvanceTakesOldest | samples/dwc3_host/src/xhci.c:126-151 | the loop's test succeeds iff an event is pending, and an iteration takes the oldest |
| EventRing.WalkTakesPending | samples/dwc3_host/src/xhci.c:124-154 | a run of the loop handles exactly what is pending and leaves nothing, including a completely full ring |
| EventRing.PostIsExact | samples/dwc3_host/src/xhci.c:124-154 | a post is seen behind all others iff fewer than `n` events were pending |
| EventRing.EventsHandledInOrder | samples/dwc3_host/src/xhci.c:112-164 | over all interleavings of posts and loop iterations each event on record is handled once, in order, and one more run handles the rest |
| EventRing.RunPostsEvents | samples/dwc3_host/src/xhci.c:112-164 | the record of a run is exactly the events it posts, in order |
| EventRing.EventRefinement | samples/dwc3_host/src/xhci.c:112-164 | from the initialised ring, handled so far and by one more run is exactly what the run posted, each event with the cycle state of its lap |
| EventRing.InitialEventInv | samples/dwc3_host/src/xhci.c:705-720 | the initialised event ring is in step with a controller at its start |
| XhciPort.WaitsReturnOnTheirOwnCompletion | samples/dwc3_host/src/xhci_port.c:19-32 | in every interleaving the flag is up only during a wait, and every wait that returned had a completion since it began |
| XhciPort.SpinLeavesIffRaised | samples/dwc3_host/src/xhci_port.c:26-32 | the spin loop is left iff a completion came after the wait began, and then the wait finishes with both flags down |
| XhciPort.DelayedStoreWakesNextWait | samples/dwc3_host/src/xhci_port.c:19-24 | with test and store split by another core, the next wait returns on no completion |
| XhciPort.Port.EventComplete | samples/dwc3_host/src/xhci_port.c:19-24 | wakes a waiter and is forgotten without one |
| XhciPort.Port.EventWait | samples/dwc3_host/src/xhci_port.c:26-32 | against any schedule of interrupts it returns iff one of them strikes during the wait, and leaves both flags down |
| XhciHost.BatchKeepsLastWaker | samples/dwc3_host/src/xhci.c:130-147 | a batch wakes the waiter iff it holds a completion or transfer event and someone waits; the last such event is the one kept, and without one the old event stays |
| XhciHost.Hcd.HandleEvent | samples/dwc3_host/src/xhci.c:129-147 | completions and transfer events are kept and wake, port status and other events do neither |
| XhciHost.Hcd.AdvanceRead | samples/dwc3_host/src/xhci.c:149-151 | index and cycle bit advance together |
| XhciHost.Hcd.UpdateDequeuePointer | samples/dwc3_host/src/xhci.c:156-163 | the pointer register addresses the slot at the read index afterwards, also when the update is skipped, with the busy bit set and the bits below it kept |
| XhciHost.Hcd.Isr | samples/dwc3_host/src/xhci.c:112-164 | one run ends, handles exactly the matching events from the read index on in order, delivers them, and leaves the pointer register in step, after exactly `n` events too |
| CommandPath.CallsReturnTheirCompletions | samples/dwc3_host/src/xhci.c:228-238 | in every interleaving, with port events in between, the i-th call returned the completion of the i-th command |
| CommandPath.WriteFindsRoom | samples/dwc3_host/src/xhci.c:228-238 | the write of a command always finds room, on rings of any size |
| CommandPath.ToggleIsSeen | samples/dwc3_host/src/xhci.c:228-238 | the toggle after it is seen in every ring of three slots or more |
| CommandPath.ToggleIsSeenAfterFetch | samples/dwc3_host/src/xhci.c:228-238 | in a ring of two it is seen once the controller has fetched |
| CommandPath.WakeUpCanBeLost | samples/dwc3_host/src/xhci.c:228-238 | a concrete run on rings of any size that loses the wake-up of the first command |
| CommandPath.LostForever | samples/dwc3_host/src/xhci.c:228-238 | a lost wake-up stays lost whatever happens |
| CommandPath.LostNeverReturns | samples/dwc3_host/src/xhci_port.c:26-32 | after a lost wake-up no continuation lets the call return |
| CommandPath.WaitCanFinish | samples/dwc3_host/src/xhci.c:228-238 | otherwise controller, handler and thread can always bring the call to its return |
| CommandPath.WaitReturnsIffNotLost | samples/dwc3_host/src/xhci_port.c:19-32 | a waiting call may return iff its completion was not handled before `event_wait` was set |
| CommandPath.RankFalls | samples/dwc3_host/src/xhci.c:228-238 | every productive step of thread, controller or handler lowers what is left to do; only a posted port event raises it |
| CommandPath.EveryContinuationReturns | samples/dwc3_host/src/xhci_port.c:26-32 | from a waiting state that is not lost, in every continuation the productive steps are bounded by what was left plus the port events posted, and when none is possible any more the call has returned |
| GpioPins.SetPin | samples/gpio_fs/src/gpio_fs.c:217 | or-ing a pin's bit into a mask adds that pin to the set of taken pins and no other |
| GpioPins.ClearPin | samples/gpio_fs/src/gpio_fs.c:240 | clearing a pin's bit removes that pin and no other, and with a repeated pin does no further harm |
| GpioPins.PinIsBit | samples/gpio_fs/src/gpio_fs.c:340 | pin `p` is bit number `p` of the mask |
| GpioFs.EventFlagsMeaning | samples/gpio_fs/src/gpio_fs.c:595-640 | an event request passes all flag tests iff it says nothing beyond input, active low and the two edges |
| GpioFs.EventFlagsValues | samples/gpio_fs/src/gpio_fs.c:595-640 | so four values of the handle flags pass, and any of the four combinations of edges |
| GpioFs.LineFlagsMeaning | samples/gpio_fs/src/gpio_fs.c:347-372 | a line request passes all flag tests iff, active low aside, it says nothing, input, output, or output with one open drive |
| GpioFs.FirstFree | samples/gpio_fs/src/gpio_fs.c:119-128 | the slot allocated is the first free one |
| GpioFs.OpenKeeps | samples/gpio_fs/src/gpio_fs.c:202-227 | opening an object on unclaimed pins keeps masks equal to what live objects own, owners disjoint |
| GpioFs.CloseKeeps | samples/gpio_fs/src/gpio_fs.c:229-251 | closing keeps the same invariant |
| GpioFs.CloseReleasesOnlyItsOwn | samples/gpio_fs/src/gpio_fs.c:496-518 | a close gives back exactly the object's own pins; every other object keeps its pins and their bits |
| GpioFs.PerformKeeps | samples/gpio_fs/src/gpio_fs.c:319-410 | every request, granted, refused or failing half-way, keeps the invariant |
| GpioFs.OwnershipAlways | samples/gpio_fs/src/gpio_fs.c:595-668 | pin ownership holds in every run of creates, failed opens and closes from boot |
| GpioFs.LineGrantedIff | samples/gpio_fs/src/gpio_fs.c:319-410 | a line request is granted iff well formed, its pins owned by nobody, a slot free, and registration and open succeed |
| GpioFs.LineRequestEffect | samples/gpio_fs/src/gpio_fs.c:319-410 | a granted line takes the first free slot and its pins and changes nothing else; a refused one changes nothing, and the outcome names what was missing |
| GpioFs.EventRequestEffect | samples/gpio_fs/src/gpio_fs.c:595-668 | the same for event requests |
| GpioFs.EventGrantedIff | samples/gpio_fs/src/gpio_fs.c:595-668 | an event request is granted iff its pin exists and is owned by nobody, it says nothing beyond input, active low and edges, a slot is free, and registration and open succeed |
| GpioFs.ClosedLineCanBeRequestedAgain | samples/gpio_fs/src/gpio_fs.c:229-251 | what a line held can be requested again after its close |
| GpioDriver.Driver.AnyTaken | samples/gpio_fs/src/gpio_fs.c:337-345 | the mask test refuses exactly the requests with a pin some object owns |
| GpioDriver.Driver.SetPins | samples/gpio_fs/src/gpio_fs.c:215-221 | the loop of bit updates adds exactly the requested pins to the chip's set |
| GpioDriver.Driver.ClearPins | samples/gpio_fs/src/gpio_fs.c:238-242 | the loop of bit updates removes exactly the object's pins from the chip's set |
| GpioDriver.Driver.LineHandleCreate | samples/gpio_fs/src/gpio_fs.c:319-410 | the in-place code is the line request of the model, whose runs keep ownership |
| GpioDriver.Driver.LineEventCreate | samples/gpio_fs/src/gpio_fs.c:595-668 | the in-place code is the event request of the model |
| GpioDriver.Driver.LineClose | samples/gpio_fs/src/gpio_fs.c:229-251 | the in-place code is the close of the model |
| GpioDriver.Driver.EventClose | samples/gpio_fs/src/gpio_fs.c:496-518 | the in-place code is the close of the model |
| GpioEvents.PutIsAllOrNothing | samples/gpio_fs/src/gpio_fs.c:412-446 | a buffer of whole records takes a record whole or not at all |
| GpioEvents.ReadTakesOldest | samples/gpio_fs/src/gpio_fs.c:520-524 | a record-sized read takes the oldest record, or nothing from an empty buffer |
| GpioEvents.HappenKeeps | samples/gpio_fs/src/gpio_fs.c:412-446 | every step of interrupts and reader keeps: a record buffered means signal up, about to be raised, or owed a drain |
| GpioEvents.PollNeverSleepsOnData | samples/gpio_fs/src/main.c:338-373 | for any number of descriptors and any interleaving, a blocked reader with a record buffered finds the signal up or being raised |
| GpioEvents.RoundDeliversAll | samples/gpio_fs/src/main.c:338-373 | left alone, one round of poll and reads delivers every buffered record of every descriptor in order, and the reader blocks again |
| GpioEvents.ReadingOnceSleepsOnData | samples/gpio_fs/src/gpio_fs.c:526-579 | without draining to a short read the reader sleeps on data |
| GpioEvents.IrqIsPutThenRaise | samples/gpio_fs/src/gpio_fs.c:412-446 | an undisturbed interrupt is the put step and the raise step of the interleaving model |
| GpioEvents.UpdateIsReaderSteps | samples/gpio_fs/src/gpio_fs.c:561-577 | an undisturbed poll update is one reader step, or two with the reset of the signal |
| GpioEvents.EventFile.Irq | samples/gpio_fs/src/gpio_fs.c:412-446 | the in-place handler does put and raise to its line, keeps whole records in order, and accepts the record iff fewer than 16 are buffered |
| GpioEvents.EventFile.Read | samples/gpio_fs/src/gpio_fs.c:520-524 | the read splits off the oldest bytes; record by record it is the model's read of the oldest record |
| GpioEvents.EventFile.PollUpdate | samples/gpio_fs/src/gpio_fs.c:561-577 | the in-place update is the model's, and reports POLLIN iff a record is buffered |
| GpioEvents.EventFile.DrainAll | samples/gpio_fs/src/main.c:358-370 | the client's loop reads exactly all buffered records, in order, and ends |
| UartLoopback.ThrottleSafety | samples/mcp2221/src/main.c:151-211 | over all interrupt sequences: throttled implies full, data implies transmit on, nothing received is missing from taken plus buffered, and sent plus buffered falls short of received by exactly what the FIFO was offered and did not accept, so they are equal iff it accepted all |
| UartLoopback.FullRingThrottles | samples/mcp2221/src/main.c:157-167 | with receive data waiting, a full ring disables reception, throttles and ends the iteration |
| UartLoopback.ReceivesWhatFits | samples/mcp2221/src/main.c:157-176 | otherwise as much is received as there is, fits the ring and fits 64 bytes; nothing when throttled, not ready or failing |
| UartLoopback.TransmitsTheFront | samples/mcp2221/src/main.c:186-206 | up to 64 bytes leave the front of the ring and the FIFO gets as many of the first of them as it accepts |
| UartLoopback.EmptyRingDisablesTransmit | samples/mcp2221/src/main.c:191-195 | an empty ring switches the transmit interrupt off |
| UartLoopback.FullRingMovesOn | samples/mcp2221/src/main.c:151-211 | with a ready transmitter a full ring moves on within two iterations |
| UartLoopback.QuietRingDrains | samples/mcp2221/src/main.c:151-211 | without input a ready transmitter empties the ring at 64 bytes an iteration |
| UartLoopback.LostIsShortfall | samples/mcp2221/src/main.c:186-206 | an iteration loses exactly what the FIFO does not accept of a chunk of the ring as it is after reception |
| UartLoopback.LostInTotal | samples/mcp2221/src/main.c:151-211 | the losses of a run are the sum of these shortfalls |
| UartLoopback.WholeChunksSuffice | samples/mcp2221/src/main.c:151-211 | a FIFO that takes a whole chunk whenever it is ready never falls short |
| UartLoopback.ByteCanBeLost | samples/mcp2221/src/main.c:201-206 | a byte that is received and then neither sent nor buffered |
| UartLoopback.TransmissionUnthrottles | samples/mcp2221/src/main.c:196-199 | a throttled port recovers with the next transmission and a full ring then has a chunk free |
| UartLoopback.Bridge.Receive | samples/mcp2221/src/main.c:157-183 | the put into the ring never drops a byte |
| UartLoopback.Bridge.Transmit | samples/mcp2221/src/main.c:186-208 | the transmit part of the iteration |
| UartLoopback.Bridge.InterruptHandler | samples/mcp2221/src/main.c:151-211 | the loop in place is the run of iterations and keeps the invariant |
| StreamTransfer.FillPattern | samples/af_unix_test/src/main.c:71-75 | fills the whole buffer with the pattern of the seed |
| StreamTransfer.VerifyPattern | samples/af_unix_test/src/main.c:78-91 | counts the bytes that differ from the pattern |
| StreamTransfer.NoMismatchIffPattern | samples/af_unix_test/src/main.c:78-91 | the count is 0 iff the bytes are the pattern |
| StreamTransfer.PatternCounts | samples/af_unix_test/src/main.c:71-75 | the pattern starts at the seed and counts up, wrapping after 255 |
| StreamTransfer.NothingLostNothingStuck | samples/af_unix_test/src/main.c:154-162 | for any capacity and any short sends and receives: received plus in pipe is the sent prefix, one side can move until all is delivered, and the number of moves is bounded |
| StreamTransfer.DeliveredPatternVerifies | samples/af_unix_test/src/main.c:113-134 | the receiver's check passes at any time on what it has, and at the end on everything |
| StreamTransfer.SendLoop | samples/af_unix_test/src/main.c:154-162 | the bytes on the wire are the data from the start to the total, and the total is the start plus the results up to the first that stops the loop, the last capped by what was left |
| StreamTransfer.EverythingIsSent | samples/af_unix_test/src/main.c:154-162 | with one successful call per byte left, at the latest, everything is sent |
| StreamTransfer.StopsMean | samples/af_unix_test/src/main.c:154-162 | the plain loop stops on an error only, the resuming one on zero too |
| StreamTransfer.StoppedShort | samples/af_unix_test/src/main.c:241-248 | an error, or a zero where it counts as one, ends the loop there |
| StreamTransfer.SendMsgThenResume | samples/af_unix_test/src/main.c:218-254 | after a short two-buffer send the loop resumes behind it and, with successful calls, sends all the rest; the wire is the data up to the total, also inside the second buffer |
| StreamTransfer.ReadLoop | samples/af_unix_test/src/main.c:113-134 | the buffer holds the chunks read in order, and the verdict is PASS iff they are the whole pattern |
| EscapeDetector.OneByteSuffices | samples/bhs_bmc_ready_shell_module/src/main.c:316-328 | remembering one byte is enough: the stream first contains the pair with this chunk iff the callback's test succeeds |
| EscapeDetector.EscapeKeys | samples/bhs_bmc_ready_shell_module/src/main.c:313-314 | the pair is ctrl-x ctrl-q |
| EscapeDetector.EscapeStays | samples/bhs_bmc_ready_shell_module/src/main.c:316-338 | a pair in a prefix of the chunks is a pair of the stream |
| EscapeDetector.Bypass.SetBypass | samples/bhs_bmc_ready_shell_module/src/main.c:292-311 | a second start is refused, everything else toggles the use |
| EscapeDetector.Bypass.Callback | samples/bhs_bmc_ready_shell_module/src/main.c:316-341 | escapes iff the pair is in the chunk or across its front edge, and remembers the last byte |
| EscapeDetector.Bypass.Session | samples/bhs_bmc_ready_shell_module/src/main.c:316-354 | for any split into non-empty chunks bypass ends with the first chunk that completes the pair in the stream, and never without one |
| HashDrivers.StateIsOfTheBytesFed | samples/mbedtls_hash/src/main.c:34-61 | for any hash whose update respects concatenation, the state depends only on the bytes fed, empty updates included |
| HashDrivers.SessionsAgreeWithReference | samples/mbedtls_hash/src/main.c:34-61 | every session that succeeds has the digest of the reference, for any such hash |
| HashDrivers.HashRef | samples/mbedtls_hash/src/main.c:34-61 | the reference: one update with everything, each call only after success of the one before |
| HashDrivers.XorshiftFromOne | samples/mbedtls_hash/src/main.c:23-32 | the generator's first numbers from seed 1 |
| HashDrivers.XorshiftNeverStalls | samples/mbedtls_hash/src/main.c:23-32 | from a seed other than 0 it never falls to 0 |
| HashDrivers.DrawMeans | samples/mbedtls_hash/src/main.c:128-138 | a chunk is one more than the remainder of the number drawn by `max_chunk`; bit 8 asks for the empty update |
| HashDrivers.AlternatingSizes | samples/mbedtls_hash/src/main.c:183 | the sizes are 1024 and 1 in turn, 1024 first |
| HashDrivers.TableSizes | samples/mbedtls_hash/src/main.c:230 | the sizes of a table are taken in order, over and over |
| HashDrivers.FollowsMeans | samples/mbedtls_hash/src/main.c:182-196 | every update has the size its driver says, or all that is left |
| HashDrivers.SplicedMeans | samples/mbedtls_hash/src/main.c:137-153 | a spliced chunk is an empty update and then the chunk |
| HashDrivers.RandomMax | samples/mbedtls_hash/src/main.c:63-105 | ends for every seed and length; on success the chunks, each of the drawn size or to the end, make up the data with one finish; on failure the calls are a prefix of that, ending in the failing one, whose answer is returned |
| HashDrivers.RandomZeroSplice | samples/mbedtls_hash/src/main.c:113-166 | the same, with an empty update before a chunk exactly where the draw asks for it and data was fed already |
| HashDrivers.Alternating | samples/mbedtls_hash/src/main.c:168-208 | the same with chunks of 1024 and 1 in turn, each in full or up to the end |
| HashDrivers.Stepping | samples/mbedtls_hash/src/main.c:210-256 | the same for every driver that cycles through a table of positive sizes |
| HashDrivers.Sha256Mode | samples/hash_sha256/src/main.c:55-95 | in both branches whole steps are updated, the rest or last step is computed, once, and together they are the input; an empty input is one empty computation |
| HashDrivers.StepsAgreeWithOneUpdate | samples/hash_sha256/src/main.c:55-95 | the digest computed so is that of the whole input |
| Base64.AlphabetPositions | samples/https_server_post/src/main.c:77 | the alphabet of the decoder is Table 1 of RFC 4648, and looking a character up inverts it |
| Base64.EncodingKeepsTheNumber | samples/https_server_post/src/main.c:75-92 | the encoding of section 4 of RFC 4648, read as a number in base 64, is the data read in base 256 with zero fill bits |
| Base64.AccumulatorStep | samples/https_server_post/src/main.c:84-89 | for any accumulator, overflown or not, the byte emitted and the bits kept are exactly the bits pending and the six new ones |
| Base64.PendingEmits | samples/https_server_post/src/main.c:84-89 | what was emitted and what is pending stay the number of the characters read |
| Base64.Base64Decode | samples/https_server_post/src/main.c:75-92 | for any text whose characters before the first `=` are in the alphabet, writes all whole bytes of its number and nothing else |
| Base64.RoundTrip | samples/https_server_post/src/main.c:75-92 | for every byte sequence, an output is what decoding its encoding demands iff it is that sequence |
| Base64.EncodedLength | samples/https_server_post/src/main.c:75-92 | encodings are padded to four characters for every three bytes begun, as section 4 of RFC 4648 has it |
| Base64.DecodeEncoded | samples/https_server_post/src/main.c:75-92 | the decoder run on the encoding of any bytes writes exactly those bytes |
| PasswordMap.PrintedFormLoads | samples/echoserver/echoserver.c:1847-1887 | the printed form of any pairs, followed by anything, loads as those pairs and then what follows |
| PasswordMap.LoadedPrintsBack | samples/echoserver/echoserver.c:1847-1887 | for any text: what loads prints back as the text up to a tail without a record, and loading reports success iff that tail is empty |
| PasswordMap.EnteredIsReversed | samples/echoserver/echoserver.c:1716-1739 | the list holds the pairs in reverse, names under 32 bytes whole |
| PasswordMap.TruncateMeans | samples/echoserver/echoserver.c:1725-1731 | names keep their first 31 characters |
| PasswordMap.LastLoadedWins | samples/echoserver/echoserver.c:2187-2196 | a lookup finds the pair loaded last for the (cut) name, and without one what was there before |
| PasswordMap.StrChr | samples/echoserver/echoserver.c:1865-1875 | the search stays inside the string and finds the first occurrence |
| PasswordMap.PwMapList.PwMapNew | samples/echoserver/echoserver.c:1716-1739 | prepends one record with the name cut to 31 bytes and the hash of the secret |
| PasswordMap.CutLine | samples/echoserver/echoserver.c:1864-1879 | cutting in place reads off the first record and leaves the rest of the text untouched |
| PasswordMap.LoadPasswordBuffer | samples/echoserver/echoserver.c:1847-1887 | builds the reversed list of the loadable records in front of the old one, also when it then fails with -1, and handles missing list and buffer |
| PasswordMap.CountersCount | samples/echoserver/echoserver.c:2097-2101 | after any requests the retry counter is down by the wrong passwords seen, the block counter by the requests put off |
| PasswordMap.RetryBudget | samples/echoserver/echoserver.c:2206-2216 | in any session a request is told INVALID_PASSWORD iff it is a wrong password for a known user after fewer than two others, REJECTED iff after two or more; any other answer is independent of the history |
| PasswordMap.SuccessIff | samples/echoserver/echoserver.c:2190-2210 | a request succeeds iff it is not put off and the first record for its name and kind holds the hash of the password or public key the method names, in any state of the retry counter |
| PasswordMap.KnownUserAnswer | samples/echoserver/echoserver.c:2192-2226 | every answer to a request whose name and kind have a record, and what it does to the counters |
| PasswordMap.OtherAnswers | samples/echoserver/echoserver.c:2092-2108 | put off, unknown method, and unknown user: the answers and the counters |
| PasswordMap.PublicKeyLogsIn | samples/echoserver/echoserver.c:2117-2120 | a public key is let in iff it hashes like the one on record, and costs no retry otherwise |
| PasswordMap.TwoRetriesAtMost | samples/echoserver/echoserver.c:2206-2216 | a session has as many INVALID_PASSWORD answers as wrong passwords, capped at two |
| PasswordMap.PrintedUserLogsIn | samples/echoserver/echoserver.c:2190-2229 | from file to login: success iff the password hashes like the last one printed for the name |
| PasswordMap.AuthServer.Session | samples/echoserver/echoserver.c:1449-1454 | from the start of a worker on, the callback's answers are those of a session with the full budget, to which the budget theorems apply |
| PasswordMap.AuthServer.UserAuth | samples/echoserver/echoserver.c:2084-2230 | the callback in place gives the answers and counters of the model, every outcome included |
| CommandTable.InsertKeepsAscending | samples/bhs_bmc_ready_shell_module/src/dynamic_cmd.c:68-71 | putting a new name in its place keeps strict order and adds just that name |
| CommandTable.LessIsLexicographic | samples/bhs_bmc_ready_shell_module/src/dynamic_cmd.c:23-27 | the order is decided by the first difference, or by the end of the shorter string |
| CommandTable.AlnumCodes | samples/bhs_bmc_ready_shell_module/src/dynamic_cmd.c:49-56 | digits, capital and small letters, by their codes |
| CommandTable.CleanAddAllowed | samples/bhs_bmc_ready_shell_module/src/dynamic_cmd.c:36-63 | on a clean table a name is accepted iff there are fewer than 20, it has 1 to 32 alphanumeric characters and is new |
| CommandTable.SortAllSorts | samples/bhs_bmc_ready_shell_module/src/dynamic_cmd.c:23-27 | what stands for `qsort` with `strcmp` gives a sorted permutation of any rows |
| CommandTable.AddKeeps | samples/bhs_bmc_ready_shell_module/src/dynamic_cmd.c:29-73 | an accepted add keeps rows in use sorted, distinct and alphanumeric, adds that name, and leaves the rows behind |
| CommandTable.RemoveKeeps | samples/bhs_bmc_ready_shell_module/src/dynamic_cmd.c:93-118 | a removal keeps the same and takes out that name, whatever lies behind the table |
| CommandTable.StepKeepsOrder | samples/bhs_bmc_ready_shell_module/src/dynamic_cmd.c:29-118 | the names change exactly as the answer says; a removal succeeds iff the name is there |
| CommandTable.StepKeepsClean | samples/bhs_bmc_ready_shell_module/src/dynamic_cmd.c:93-118 | rows not in use stay empty in a step iff it does not move foreign bytes in from behind a full table |
| CommandTable.TableRefinesSet | samples/bhs_bmc_ready_shell_module/src/dynamic_cmd.c:29-118 | a clean table answers and changes like a set of at most 20 names, so the empty name is always refused |
| CommandTable.AlwaysInOrder | samples/bhs_bmc_ready_shell_module/src/dynamic_cmd.c:29-118 | in every run without exception the rows in use are strictly sorted names |
| CommandTable.RunRefinesSet | samples/bhs_bmc_ready_shell_module/src/dynamic_cmd.c:29-118 | in every run without such a move, the table is the set of adds minus removes |
| CommandTable.ForeignRow | samples/bhs_bmc_ready_shell_module/src/dynamic_cmd.c:99-110 | after such a move the foreign string is refused as a duplicate though it is no name, and the empty name is accepted |
| CommandTable.ForeignRowIsReachable | samples/bhs_bmc_ready_shell_module/src/dynamic_cmd.c:29-118 | twenty adds fill a clean table, and a removal from it then moves such a row in |
| CommandTable.CompletionAscends | samples/bhs_bmc_ready_shell_module/src/dynamic_cmd.c:138-156 | completion gives the names in order: those before an entry are exactly the smaller ones |
| CommandTable.CompletionRank | samples/bhs_bmc_ready_shell_module/src/dynamic_cmd.c:138-156 | entry number `i` is the name with `i` smaller ones, up to the number of names |
| CommandTable.DynamicCommands.CmdAdd | samples/bhs_bmc_ready_shell_module/src/dynamic_cmd.c:29-73 | the in-place add is the add of the model, every refusal included |
| CommandTable.DynamicCommands.CmdExecute | samples/bhs_bmc_ready_shell_module/src/dynamic_cmd.c:75-91 | succeeds iff the name is in the table |
| CommandTable.DynamicCommands.CmdRemove | samples/bhs_bmc_ready_shell_module/src/dynamic_cmd.c:93-118 | the in-place removal is the removal of the model |
| CommandTable.DynamicCommands.CmdGet | samples/bhs_bmc_ready_shell_module/src/dynamic_cmd.c:138-156 | gives the name with `idx` smaller ones, and none iff there are no more names than `idx` |

## Left out

- Registers other than the event ring's dequeue pointer, cache maintenance, port reset polling, device and scratchpad tables: hardware plumbing.
- Endpoint indices, context offsets and the Context Entries field: a small finite domain, and the field is overwritten rather than raised.
- `xhci_cmd_reset_device` (`samples/dwc3_host/src/xhci.c:685-695`): it puts type and cycle bit into the status word, so it does not meet what the enqueue demands of a TRB.
- Torn TRB copies: a TRB write is one step; that the controller may see half of a structure copy is not modelled.
- Decoding of transfer results and the stall recovery sequence around the resync pointer.
- Transfer events between a command and its completion: they overwrite the kept event, so `CommandPath` admits only port and other events in between.
- Doorbells as what starts a controller: the model's controller may fetch at any time.
- XhciPort.Port.EventWait: does not promise to return, because the spin loop does not end without an interrupt; a schedule of interrupts cuts it off.
- The return value of line and event creation: the source inverts the result of registration, so a failed one is reported as success; the outcome is modelled as what happened.
- The window between the mask test and the lock in line creation: a request is one step.
- Reopening a line by name, edge selection, event timestamps and the values of lines.
- GpioFs.OwnershipAlways: requires chips of at most 32 pins, the width of the mask.
- UartLoopback.Bridge.InterruptHandler: runs over a finite script of iterations, because whether interrupts stay pending is the port's choice.
- StreamTransfer.SendLoop: runs over a finite script of results; sleeping and retrying on a full pipe are not modelled.
- Printing of mismatches, throughput and received bytes.
- The buffer addresses that select the DMA path in the aligned and unaligned drivers, and the hash functions themselves.
- Base64.Base64Decode: requires characters of the alphabet before the first `=`, because the source looks others up with a null result; the rest of the text may be anything.
- Failing allocations while loading records, public key records and certificates.
- PasswordMap.AuthServer.UserAuth: does not model the width of the retry counter.
- Names of 65536 bytes or more in the command table, whose length the source cuts to 16 bits; the shell's line is shorter.
- SSH, TLS and HTTP sessions, flash, sensors and the other device samples: no algorithm of their own.
