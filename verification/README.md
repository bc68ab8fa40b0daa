# Verified model of the VME-SAM3X firmware's protocol and driver logic

The project models the parts of the firmware where state, interleaving and
arithmetic meet, and proves what they are for.

**Xilinx Virtual Cable server** (`src/xvc/xvc_server.c`)

- `XvcProtocol` is an XVC 1.0 receiver that takes one byte at a time; it is the
  specification. `XvcRequests` has the encoder, the round trip, and what becomes of
  every request under every condition, failures included.
- `XvcChains` is the reading of a name from a chain of pieces, copy by copy.
  `XvcReception` is the one-byte receiver on chains, with the places where the
  network stack stops. `XvcConnection` is the connection state as a class, updated
  in place: for every reception, replies, port, state and verdict are those of
  `XvcReception`, and it stops exactly where that does. `Valid()` of `Connection`
  is the invariant between calls (fewer than 8 bytes of an unfinished name, fewer
  than 4 of a number, fewer than both vectors of a shift of 1 to 4096 bits).
- `JtagPort` is the shift loop on its array, in place and one bit ahead;
  `JtagWaveform` compares it, for an arbitrary device, with one clock per bit
  and describes every level of every pin of the port, store by store.
- `XvcLock` is the seven-state lock: any number of tasks, one step per critical
  section and per other shared access, and cables that come and go at any
  point. `XvcCables` keeps a note of what each task has read on the two cable lines
  and says, over every interleaving, what the operations make of it; for a task that
  runs alone it has the whole table of states and results.
- `Bits` holds the bit and byte vocabulary of these, `Numbers` what all modules share.

**Ethernet DMA rings** (`src/ASF/sam/drivers/emac/emac.c`)

- `EmacRing` has the index macros with the C remainder. `EmacRx` describes what
  one pass over the receive ring finds and compares it with an independent
  notion of a complete frame; `EmacRxDevice` is the read function on its
  descriptor and buffer arrays.
- `EmacTx` interleaves the writing task, the controller (which sends byte by
  byte) and the interrupt handler step by step; `EmacTxDevice` has the
  functions themselves on their arrays, tied to those steps.

**Clocks, timer and two-wire interface**

- `ClockTree` and `ClockSleep` (`src/ASF/sam/drivers/pmc/sleep.c`): registers
  written in place while oscillators and PLLs become stable at arbitrary times.
- `TcDivisor` (`src/ASF/sam/drivers/tc/tc.c`), `TwiSpeed`, `TwiTransfer`,
  `TwiStatus` and `TwiDevice` (`src/ASF/sam/drivers/twi/twi.c`): the divisor searches
  and the DMA transfers. `TwiStatus` says from the status readings and waits alone
  how each waiting loop ends.

The environment is a parameter. What the network accepts, when the server is
found enabled, when an interrupt wait ends, how many bytes the DMA controller
moves before the next status reading: all of these are arbitrary functions or
arbitrary finite lists of events, and the theorems hold for every one of them.
Where a list of events ends the run simply stops there.

## Where the code falls short of its description

- A command name may be cut anywhere between two receptions, but not between two
  pieces of one reception (`XvcChains.EveryCutStops`). The bytes are copied from as
  many pieces as it takes, and then only the first piece is shortened. If it has
  not as many bytes, `pbuf_header`
  (`src/ASF/thirdparty/lwip/lwip-1.4.0/src/core/pbuf.c:502`) runs `LWIP_ERROR`,
  whose `LWIP_PLATFORM_ASSERT` is an endless loop in this port
  (`src/ASF/thirdparty/lwip/lwip-port-1.4.0/sam/include/arch/cc.h:91`), and
  `LWIP_NOASSERT` does not switch that off. This happens exactly when more pieces
  follow and there are, with what was kept, fewer than 8 bytes that begin with "g",
  fewer than 7 that begin with "se", or fewer than 6 (`XvcChains.ReadAcrossExact`,
  `XvcReception.ChainStopsIff`), whether they are a name or not. A reception in one
  buffer never stops (`XvcConnection.SplitInvarianceOfBuffers`).
- A frame start inside an open receive frame makes the pass look at the last
  discarded descriptor instead of the new first one; the first complete frame
  is delivered exactly when no start precedes it in the ring and it does not
  fill the ring (`EmacRx.DeliveredIff`).
- The head of the transmit ring, as the C is written, is stored past the end before
  it is stored as 0 (it is not volatile, so a compiler may make one store of it). If the handler is entered between the two stores when everything has been
  drained, it deals with every slot of the ring once more
  (`EmacTx.GapCallRepeatsAll`). A run that comes there exists for every ring size
  (`EmacTx.GapReached`), and a call of the handler is sound exactly when it does
  not come there (`EmacTx.NextCallIff`).
- The transmit load and free space are right as tests, but as numbers only while
  the remainder is not negative (`EmacRing.CircCountsIff`).
- The lowest suitable timer divisor is found for all clocks exactly when the
  board's own divisor is 2, 8, 32 or at least 128 (`TcDivisor.PromiseIff`), and
  the documented bounds hold with both quotients cut off (`TcDivisor.SuitsIff`).
- The bus clock is set as meant exactly for master clocks from 8 times the bus clock
  to below 65544 times (`TwiSpeed.TimedIff`); outside, a subtraction wraps or a field
  is cut off, and success is reported all the same: too fast a bus clock gets the
  slowest setting there is (`TwiSpeed.OutOfRange`).
- A DMA piece that times out while it progresses is waited for, but if it is
  complete at the next status reading the time-out is returned
  (`TwiTransfer.FinishedPieceIff`). So success implies a complete transfer, not
  the other way round.
- The wait commented as being for all restored PLLs ends with the first of two
  and never when none was on (`ClockTree.LastWaitIff`); the contract of
  `ClockSleep.Pmc.WaitMode` has the run that ends with one of two unlocked.
- After a wait mode with a bypassed crystal the RC oscillator is switched off
  without waiting for the main clock to have left it; that is safe for every
  timing exactly when the master clock is the slow clock
  (`ClockTree.BypassSafeIff`). The settings come back all the same.

The deferred disable is right in this firmware, but only because one task shifts:
`src/ASF/thirdparty/freertos/demo/lwip_sam_example/network/ethernet.c:304` starts one
server task, and the shift function is static. With two, a shift could start between the store of ENABLED and
the call of disable (`XvcLock.DefersDisableIff`).

## Model

| member | source | states |
|---|---|---|
| `JtagPort.Jtag.SetTdiTms` | src/xvc/xvc_server.c:869-884 | the first two stores of a clock: one clear and one set of the port with the masks of the two levels |
| `JtagWaveform.ClockLevels` | src/xvc/xvc_server.c:869-884 | the level of every pin after each store of a clock; after the first two, TDI and TMS have the given levels and no other pin has moved |
| `JtagPort.Jtag.GetTdo` | src/xvc/xvc_server.c:487-489 | read between the rising and the falling edge of clock `i` of a shift, it is bit `i` of the TDO that the whole run yields |
| `JtagPort.Jtag.DoShift` | src/xvc/xvc_server.c:407-485 | refuses when not enabled; otherwise performs exactly the clocks of the vectors, replaces the TDI bytes by the packed samples, leaves every other byte alone, and fails exactly when a disable was recorded meanwhile |
| `Bits.PackBit` | src/xvc/xvc_server.c:456-469 | bit `j` of byte `k` of the packed output is sample `8k+j`; padding bits are zero |
| `Bits.UnpackPack` | src/xvc/xvc_server.c:437-469 | unpacking what was packed gives the samples back |
| `Bits.PackSum` | src/xvc/xvc_server.c:456-469 | a packed byte as a number: sample `8k+j` counts `2^j`, and beyond the last sample nothing |
| `Bits.UnpackSum` | src/xvc/xvc_server.c:437-464 | the eight bits that are taken from a byte, in ascending order, are the binary digits of its value |
| `XvcRequests.ReplyIsClockedTdo` | src/xvc/xvc_server.c:407-469 | end to end, for every device: what is unpacked from the reply is the device's TDO at each of as many one-bit clocks |
| `JtagWaveform.ClockEdges` | src/xvc/xvc_server.c:433-469 | one clock: TCK rises and falls once, TDI and TMS move at most once, nothing else moves |
| `JtagWaveform.ShiftPulses` | src/xvc/xvc_server.c:433-469 | a shift of `n` bits has `n` rising edges, `n` falling edges besides the initial parking of TCK, and ends low |
| `JtagWaveform.ShiftLeavesPin` | src/xvc/xvc_server.c:433-469 | no pin of the port but TCK, TDI and TMS ever changes |
| `JtagWaveform.Waveform` | src/xvc/xvc_server.c:433-469 | every store of every clock: TDI and TMS change only while TCK is low and carry bit `i` at rising edge `i` |
| `JtagWaveform.ShiftRefinesClocks` | src/xvc/xvc_server.c:407-469 | for every device, the shift takes it where `n` one-bit clocks take it |
| `JtagWaveform.SamplesAreClockedTdo` | src/xvc/xvc_server.c:444-469 | every stored TDO bit is what the device presents after that clock's rising edge in the simple run |
| `XvcProtocol.LeRoundTrip` | src/xvc/xvc_server.c:848-867 | little-endian bytes of every uint32 decode to it |
| `XvcProtocol.LeBytesSum` | src/xvc/xvc_server.c:848-867 | the bytes of a uint32 as numbers: the first counts 1, then 256, 65536 and 16777216 |
| `XvcProtocol.RunFine` | src/xvc/xvc_server.c:491-688 | whatever the bytes: unless they are rejected, every shift found the server enabled and was not asked to make way, and every reply went out; nothing sent or stored is taken back |
| `XvcProtocol.RunConcat` | src/xvc/xvc_server.c:491-688 | receiving a concatenation is receiving one part after the other |
| `XvcProtocol.RunRejected` | src/xvc/xvc_server.c:509-520 | after a rejection nothing that follows has an effect |
| `XvcProtocol.RunName` | src/xvc/xvc_server.c:695-818 | what any number of bytes does to an unfinished name: the scan for a whole name, its rest, or a mismatch |
| `XvcProtocol.RunPeriod` | src/xvc/xvc_server.c:547-580 | four bytes of a period, however they arrive, are echoed and end the command |
| `XvcProtocol.RunLength` | src/xvc/xvc_server.c:582-628 | four bytes of a length: zero ends the command, more than 4096 is refused, anything else starts the vectors |
| `XvcProtocol.RunVectors` | src/xvc/xvc_server.c:629-672 | both vectors, however they arrive, are shifted once and answered once |
| `XvcRequests.RoundTrip` | src/xvc/xvc_server.c:523-672 | receiving the encoding of any list of requests is performing exactly that list, in order, up to the first failure |
| `XvcRequests.AllAnswered` | src/xvc/xvc_server.c:523-672 | with the connection up, and the server enabled if anything is to be shifted, the replies are those to each request in order |
| `XvcRequests.PlainAnswer` | src/xvc/xvc_server.c:523-581 | a request that does not shift is answered by its fixed reply whatever the state of the server, and touches neither port nor shifts; the connection goes on exactly if the reply went out |
| `XvcRequests.FailedShift` | src/xvc/xvc_server.c:426-484 | a shift that finds the server disabled, is asked to make way or whose reply does not go out is rejected with nothing sent; the port is untouched when the server is disabled and driven to the end otherwise; nothing after it has an effect |
| `XvcRequests.LongShift` | src/xvc/xvc_server.c:609-613 | more than 4096 bits are refused before the vectors, without any effect |
| `XvcRequests.FailedSend` | src/xvc/xvc_server.c:525-537 | a reply that does not go out ends the connection, whatever was asked for |
| `XvcRequests.StrayRefused` | src/xvc/xvc_server.c:514-521 | bytes that cannot begin a command are refused without any effect |
| `XvcRequests.ShiftAnswer` | src/xvc/xvc_server.c:582-672 | one shift request of any length under any condition: rejected with nothing sent, or shifted, answered and ready for what follows |
| `XvcRequests.ReplyToShift` | src/xvc/xvc_server.c:629-672 | a shift is answered by ceil(n/8) bytes holding the sampled bits and zero padding |
| `XvcConnection.Connection.Reset` | src/xvc/xvc_server.c:399-405 | the start state for a connection, touching neither port nor replies |
| `XvcConnection.Connection.ReadCommand` | src/xvc/xvc_server.c:695-818 | outcome, kept bytes and what is left of the piece are those of the copies across the chain, or it stops as they do |
| `XvcConnection.Connection.StepName` | src/xvc/xvc_server.c:504-521 | a name that is read is that of the receiver on chains: complete, kept, rejected, or stopped at |
| `XvcConnection.Connection.ReadUint32` | src/xvc/xvc_server.c:848-867 | exactly the missing bytes are appended, or all there are |
| `XvcConnection.Connection.ReadVectors` | src/xvc/xvc_server.c:820-846 | exactly the missing bytes of both vectors are appended, or all there are |
| `XvcConnection.Connection.HandleReceive` | src/xvc/xvc_server.c:491-688 | for every chain: it stops exactly where the receiver on chains does, having done what that has done; otherwise verdict, replies, port and new state are that receiver's, and everything is consumed unless rejected; without an error every shift in it found the server enabled and was not interrupted, and every reply went out |
| `XvcConnection.Connection.ReceiveAll` | src/xvc/xvc_server.c:1153-1190 | the same for all that arrives, until the server is found disabled, the data rejected or the network stack stopped |
| `XvcConnection.Connection.Serve` | src/xvc/xvc_server.c:1153-1197 | a connection handles what arrives until it is rejected, the server is found disabled or nothing more comes, and leaves the start state; or it stops where the receiver on chains does |
| `XvcConnection.ReceiveShift` | src/xvc/xvc_server.c:582-672 | one shift request in any pieces: too long, disabled, asked to make way or not sent gives an error and sends nothing, and the port is untouched in the first two cases; otherwise the TDO bytes are sent and the connection is ready for the next command |
| `XvcConnection.SplitInvariance` | src/xvc/xvc_server.c:491-688 | two connections in the same state receive one stream in different cuts: each stops exactly where the receiver on chains does on its pieces, and if neither does they end with the same verdict, replies, pins and state |
| `XvcConnection.SplitInvarianceOfBuffers` | src/xvc/xvc_server.c:491-688 | received in one buffer each, without any condition, the cuts make no difference |
| `XvcChains.ReadAcrossExact` | src/xvc/xvc_server.c:695-818 | the network stack stops exactly when more pieces follow and fewer bytes are there than the first letters ask for; otherwise the name is read from the first piece as the one-byte receiver reads it, whatever follows |
| `XvcChains.EveryCutStops` | src/ASF/thirdparty/lwip/lwip-1.4.0/src/core/pbuf.c:488-560 | a command name that is cut between two pieces of a chain, at any place, stops the network stack |
| `XvcReception.ChainRunDone` | src/xvc/xvc_server.c:491-688 | a chain that does not stop the receiver has been received as its bytes, however they are cut |
| `XvcReception.ChainStopsIff` | src/xvc/xvc_server.c:491-688 | a chain stops the receiver exactly when a place exists where a name is about to be read and too little is left of the piece |
| `XvcReception.ChainFine` | src/xvc/xvc_server.c:491-688 | on a chain, wherever the network stack stops: no shift and no reply has failed unless the data was rejected |
| `XvcReception.ReceiveRunDone` | src/xvc/xvc_server.c:1153-1190 | the same for all receptions of a connection |
| `XvcReception.OnePieceEach` | src/xvc/xvc_server.c:491-688 | receptions of one piece stop nothing |
| `XvcLock.ActKeepsInv` | src/xvc/xvc_server.c:886-1064 | every step of every task and every cable change keeps the ownership invariant |
| `XvcLock.OneOwner` | src/xvc/xvc_server.c:426-432 | in every reachable state a transitional state has exactly one owner and a resting state none; with nobody in an operation the state is DISABLED or ENABLED |
| `XvcLock.CheckNeverFails` | src/xvc/xvc_server.c:894-901 | the state check of the pin update cannot fail when called from enable or disable, and a disabling update completes |
| `XvcLock.PinsHeldDuringShift` | src/xvc/xvc_server.c:433-477 | while a task shifts the pins are outputs, JTAGSEL is high and nobody else is in an update |
| `XvcLock.PinsAgreeWithState` | src/xvc/xvc_server.c:907-940 | DISABLED implies input pins; ENABLED, I/O and DISABLE_REQUESTED imply output pins and JTAGSEL high, whatever the cables did and however enabling failed |
| `XvcLock.OperationsEnd` | src/xvc/xvc_server.c:886-999 | every step of an operation brings it nearer to its end whatever others do |
| `XvcLock.InterruptedShiftFails` | src/xvc/xvc_server.c:472-484 | a shift that finds a recorded disable ends in an error in every continuation; one that finds none ends well |
| `XvcLock.DisabledBeforeReturn` | src/xvc/xvc_server.c:478-484 | with one shifting task a recorded disable has been carried out before that task is idle again |
| `XvcLock.SecondShifterSlipsIn` | src/xvc/xvc_server.c:472-484 | a reachable run in which a second task starts a shift although a disable is recorded |
| `XvcLock.DefersDisableIff` | src/xvc/xvc_server.c:472-484 | no shift starts between the record of a disable and DISABLING, exactly when at most one task shifts |
| `XvcCables.ActKeepsNotes` | src/xvc/xvc_server.c:886-941 | every step of every task keeps the notes of the owner in agreement with JTAGSEL and its place in the update |
| `XvcCables.EnableByCables` | src/xvc/xvc_server.c:907-998 | over every interleaving: an enabling that has read a cable on either line fails, with the server disabled, input pins and JTAGSEL as it was; one that has read none succeeds, with the server enabled, output pins and JTAGSEL high |
| `XvcCables.JtagselByCables` | src/xvc/xvc_server.c:933-940 | over every interleaving: a disabling or a direct update leaves JTAGSEL high if it read the JTAG cable, low if it read only the USB cable, and else as it was, with input pins |
| `XvcCables.DisableByCables` | src/xvc/xvc_server.c:949-973 | over every interleaving: a disabling that has begun ends disabled with input pins and that JTAGSEL, and succeeds unless it has interrupted a shift |
| `XvcCables.WholeUpdate` | src/xvc/xvc_server.c:886-941 | a whole update with constant cable lines: result and new state |
| `XvcCables.EnableAlone` | src/xvc/xvc_server.c:975-999 | enabling from every state and with every pair of cables: result and new state |
| `XvcCables.DisableAlone` | src/xvc/xvc_server.c:949-973 | disabling from every state and with every pair of cables: result and new state |
| `XvcCables.UpdateJtagselAlone` | src/xvc/xvc_server.c:1038-1064 | the periodic update: nothing without a cable; with one, JTAGSEL high for the header and low for the adapter alone, an enabled server disabled, a shifting one asked to be |
| `XvcCables.ShiftAlone` | src/xvc/xvc_server.c:407-485 | an undisturbed shift succeeds from ENABLED only and leaves that state; one of no bits always |
| `EmacRing.CircTests` | src/ASF/sam/drivers/emac/emac.c:104-111 | with the C remainder, no space exactly when size-1 entries are queued, something to drain exactly when one is |
| `EmacRing.CircCntTest` | src/ASF/sam/drivers/emac/emac.c:748-749 | the drain loop's test is exact between the two stores of the head as well |
| `EmacRing.CircCountsIff` | src/ASF/sam/drivers/emac/emac.c:567-572 | when the two macros are right as numbers |
| `EmacRing.CircIncWraps` | src/ASF/sam/drivers/emac/emac.c:119-125 | the increment is a step round the ring, that is, +1 modulo its size |
| `EmacRx.CleanFrameFound` | src/ASF/sam/drivers/emac/emac.c:412-470 | the first frame of a ring is found with exactly its buffers, in order, and exactly it is released |
| `EmacRx.FullRingDropped` | src/ASF/sam/drivers/emac/emac.c:434-443 | a frame that takes the whole ring is dropped and all descriptors released |
| `EmacRx.DeliveredIff` | src/ASF/sam/drivers/emac/emac.c:412-470 | the first complete frame is delivered exactly when no frame start precedes it and it does not fill the ring |
| `EmacRx.DeliveredBytes` | src/ASF/sam/drivers/emac/emac.c:444-476 | success exactly when the capacity holds the frame, and then its bytes are delivered; otherwise the copied bytes are a prefix within the capacity |
| `EmacRx.FrameByte` | src/ASF/sam/drivers/emac/emac.c:444-455 | byte `k` of a frame is byte `k % 128` of the buffer of its descriptor `k / 128` |
| `EmacRx.IncompleteKept` | src/ASF/sam/drivers/emac/emac.c:412-487 | without a complete frame only leading fragments and broken-off frames are released; the frame being received stays |
| `EmacRx.ResumedFrame` | src/ASF/sam/drivers/emac/emac.c:412-487 | a frame completed after a fruitless call is found by the next one at its shifted place |
| `EmacRx.LateReadDeliversSame` | src/ASF/sam/drivers/emac/emac.c:395-488 | an early fruitless call and a late one deliver what a single late call delivers, and leave the same index, whatever the controller has put into the descriptors and buffers released early |
| `EmacRxDevice.Receiver.constructor` | src/ASF/sam/drivers/emac/emac.c:190-213 | a new receiver is in its reset state |
| `EmacRxDevice.Receiver.Reset` | src/ASF/sam/drivers/emac/emac.c:190-213 | descriptors in order over the buffer, all given to the controller, WRAP on the last only |
| `EmacRxDevice.Receiver.Read` | src/ASF/sam/drivers/emac/emac.c:395-488 | status, size, bytes and index are those of the pass; only ownership bits of the released descriptors change, never an address or WRAP; nothing is written past the capacity |
| `EmacTx.StepKeepsInv` | src/ASF/sam/drivers/emac/emac.c:503-558 | every step of writer, controller and handler, with both stores of the head, keeps the ring invariant, except the handler's entry in a gap |
| `EmacTx.RunKeepsInv` | src/ASF/sam/drivers/emac/emac.c:503-558 | so does every interleaving without such an entry |
| `EmacTx.ExactlyOnceInOrder` | src/ASF/sam/drivers/emac/emac.c:732-750 | over every interleaving without such an entry frames go out byte for byte in write order, each callback is dealt with once, in order and after its frame; accepted = dealt with + between tail and head (+ one being handed over), fewer than the ring size |
| `EmacTx.NextCallIff` | src/ASF/sam/drivers/emac/emac.c:732-750 | after any such run the next handler call deals with no more frames than were accepted, exactly when it does not come in a gap |
| `EmacTx.GapCallRepeatsAll` | src/ASF/sam/drivers/emac/emac.c:732-750 | a handler entered in a gap deals with every slot once more |
| `EmacTx.GapReached` | src/ASF/sam/drivers/emac/emac.c:119-125 | for every ring size there is a run that comes to a gap |
| `EmacTx.InFlightUntouched` | src/ASF/sam/drivers/emac/emac.c:526-550 | no step of a write changes buffer, descriptor or callback of a frame in flight |
| `EmacTx.NothingStuck` | src/ASF/sam/drivers/emac/emac.c:526-550 | a write that was let in can always go on, and the controller with any frame not yet sent |
| `EmacTx.BusyIff` | src/ASF/sam/drivers/emac/emac.c:521-525 | the ring is refused as full exactly when size-1 frames are in flight |
| `EmacTx.WriteExact` | src/ASF/sam/drivers/emac/emac.c:503-558 | one undisturbed write: the two refusals exactly and without effect, else exactly one frame that answers the request |
| `EmacTx.HandlerLeavesNothing` | src/ASF/sam/drivers/emac/emac.c:732-750 | the handler ends only when every frame sent has been dealt with, or only a half-written one remains |
| `EmacTx.DrainExact` | src/ASF/sam/drivers/emac/emac.c:732-750 | one undisturbed handler call deals with exactly the frames sent, in order, and changes nothing else |
| `EmacTxDevice.Transmitter.constructor` | src/ASF/sam/drivers/emac/emac.c:159-183 | a new transmitter is in its reset state |
| `EmacTxDevice.Transmitter.Reset` | src/ASF/sam/drivers/emac/emac.c:159-183 | all descriptors used, WRAP on the last only, empty ring |
| `EmacTxDevice.Transmitter.Write` | src/ASF/sam/drivers/emac/emac.c:503-558 | result and whole new memory are those of the steps of a write |
| `EmacTxDevice.Transmitter.Drain` | src/ASF/sam/drivers/emac/emac.c:732-750 | new memory is that of the handler's steps; the callbacks run are the ones present in the slots dealt with, in order |
| `ClockTree.TickSafe` | src/ASF/sam/drivers/pmc/sleep.c:59-161 | the passing of time makes no safe clock state unsafe |
| `ClockTree.LastWaitIff` | src/ASF/sam/drivers/pmc/sleep.c:264-265 | over the restored states, the last wait means what its comment says exactly when one PLL was on |
| `ClockTree.BypassSafeIff` | src/ASF/sam/drivers/pmc/sleep.c:182-190 | the two stores for a bypassed crystal keep the master clock running for every timing exactly when it is the slow clock |
| `ClockTree.RoundTripIff` | src/ASF/sam/drivers/pmc/sleep.c:166-265 | after a finished wait mode all saved settings are back exactly under a condition on the saved oscillator and PLLA registers |
| `ClockSleep.Pmc.Save` | src/ASF/sam/drivers/pmc/sleep.c:59-161 | returns the settings and leaves the shut-down state, field by field: RC oscillator, PLLs off, prescaler 0, no wait states; the master clock runs with its wait states after every write |
| `ClockSleep.Pmc.Restore` | src/ASF/sam/drivers/pmc/sleep.c:166-265 | for the crystal, the RC oscillator and the bypass: MCKR, UCKR and flash settings are back, PLLA runs again, and it returns when the clocks come; the master clock runs with its wait states after every write, except as `BypassSafeIff` says |
| `ClockSleep.Pmc.WaitMode` | src/ASF/sam/drivers/pmc/sleep.c:301-349 | both together, for any timing and wherever the run stops; it runs to its end when oscillators and the needed PLL become stable, and a PLL that never locks is then not locked |
| `TcDivisor.FindMckDivisor` | src/ASF/sam/drivers/tc/tc.c:487-525 | the loop's answer is that of the search from the first divisor |
| `TcDivisor.SuitsIff` | src/ASF/sam/drivers/tc/tc.c:474-476 | the documented equation, without divisions |
| `TcDivisor.PromiseKept` | src/ASF/sam/drivers/tc/tc.c:474-477 | with the divisors in order the answer is the lowest that suits, and none suits when there is no answer |
| `TcDivisor.PromiseBroken` | src/ASF/sam/drivers/tc/tc.c:474-477 | with the fifth divisor out of order there are 32-bit clocks that break the guarantee |
| `TcDivisor.PromiseIff` | src/ASF/sam/drivers/tc/tc.c:474-477 | the guarantee holds for all clocks exactly when the board's divisor is in order |
| `TcDivisor.ZeroDivisorIff` | src/ASF/sam/drivers/tc/tc.c:494-503 | when the search divides by zero |
| `TwiSpeed.Twi.SetSpeed` | src/ASF/sam/drivers/twi/twi.c:257-282 | refuses exactly speeds above 400 kHz, without effect; otherwise the dividers bring the master clock to the bus clock within one unit, with the finest unit, exactly when it lies in the range they can express; what they are outside it |
| `TwiSpeed.HalvedBounds` | src/ASF/sam/drivers/twi/twi.c:268-274 | halving keeps the value to within one unit and stops as early as it can |
| `TwiSpeed.RightIff` | src/ASF/sam/drivers/twi/twi.c:266-279 | for every 32-bit quotient, the finest setting within one unit is chosen exactly when the quotient is in 4..32771 |
| `TwiSpeed.TimedIff` | src/ASF/sam/drivers/twi/twi.c:266-279 | the same in products of the two clocks, without a division |
| `TwiSpeed.OutOfRange` | src/ASF/sam/drivers/twi/twi.c:266-279 | too fast a bus clock gets the slowest setting; too slow a one loses the high bits of the divider |
| `TwiTransfer.FinishedPieceIff` | src/ASF/sam/drivers/twi/twi.c:400-434 | a completed piece counts as success exactly when the last wait before did not time out |
| `TwiTransfer.FinishedButFailed` | src/ASF/sam/drivers/twi/twi.c:400-434 | a run in which a completed piece is reported as a time-out |
| `TwiStatus.PieceEnds` | src/ASF/sam/drivers/twi/twi.c:400-434 | how a piece ends, told from the events: refused at the first NACK, with the last wait's result once all has moved, or with a wait that failed or timed out without progress |
| `TwiStatus.PiecesEnd` | src/ASF/sam/drivers/twi/twi.c:385-468 | a transfer is past its pieces when all have succeeded, one after the other; otherwise it has ended as the first that has not |
| `TwiStatus.ReadEndsIff` | src/ASF/sam/drivers/twi/twi.c:475-539 | the end of a read is determined by the events: success exactly for a byte ready without a NACK and then a complete transfer, in time and without a failed wait; a NACK that comes first is reported |
| `TwiStatus.StopEndsIff` | src/ASF/sam/drivers/twi/twi.c:692-737 | the same for the end of a write |
| `TwiStatus.WriteEndsIff` | src/ASF/sam/drivers/twi/twi.c:660-737 | and with a byte left over, which the data register must take first |
| `TwiTransfer.ReadPiecesTile` | src/ASF/sam/drivers/twi/twi.c:385-397 | the pieces of a read are contiguous, of 1 to 65535 bytes, and are everything but the last byte |
| `TwiTransfer.WritePiecesTile` | src/ASF/sam/drivers/twi/twi.c:578-590 | the pieces of a write, and the one byte left over exactly when the length is 1 modulo 65535 |
| `TwiTransfer.ReadStopsOnce` | src/ASF/sam/drivers/twi/twi.c:374-474 | a read issues STOP once, after all pieces and before the last byte |
| `TwiTransfer.WriteStopsOnce` | src/ASF/sam/drivers/twi/twi.c:721-721 | a write issues STOP once, at its end |
| `TwiDevice.Reader.ReadPiece` | src/ASF/sam/drivers/twi/twi.c:385-464 | a piece ends as the waiting loop on its events says; the bytes moved are in place, nothing behind them is touched |
| `TwiDevice.Reader.ReadLast` | src/ASF/sam/drivers/twi/twi.c:471-537 | the last byte is taken exactly if it shows up without a refusal in time; the result is the one that the events determine |
| `TwiDevice.Reader.MasterRead` | src/ASF/sam/drivers/twi/twi.c:351-540 | the returned status is the one that the events determine, piece by piece and then for the last byte; success implies every byte was taken once, in order, into its place, with exactly the bus actions of a read; any other end is a beginning of that |
| `TwiDevice.Writer.WritePiece` | src/ASF/sam/drivers/twi/twi.c:578-655 | a piece ends as the waiting loop on its events says, and what was sent is a beginning of the data |
| `TwiDevice.Writer.MasterWrite` | src/ASF/sam/drivers/twi/twi.c:552-738 | the returned status is the one that the events determine; success implies the data went out once, in order, with exactly the bus actions of a write; any other end is a beginning of that |

## Left out

- lwIP and FreeRTOS: a send appends to the reply log or fails, a critical section is one step, a received buffer is a sequence of pieces; connection set-up and the retries of accept and receive are not modelled.
- The memory layout of the period and length words: they are read as the little-endian numbers that the SAM3X stores.
- The estimate of the achieved clock period, pin numbers, and physical timing.
- EmacRxDevice.Receiver.Read: the controller does not write to the ring during one call (while it keeps filling descriptors that the call has just released, the loop can go round more than once); between calls it may (`EmacRx.LateReadDeliversSame`).
- EmacTx.ExactlyOnceInOrder: the increment of the tail is one step, since no task runs while the handler does.
- Receive rings of one descriptor, buffers that are not 8-byte aligned, and the initialisation that refuses or adjusts them.
- The retry-limit reset in the interrupt handler, its statistics and status bits, the wakeup threshold, the receive callback, and PHY access.
- ClockSleep.Pmc.WaitMode: with a bypassed crystal and a master clock other than the slow clock no safety is claimed, since it does not hold for every timing (`ClockTree.BypassSafeIff`).
- The other sleep modes.
- The device and internal addresses of a two-wire transfer, probing, slave mode, and the polling build without FreeRTOS.
- TwiDevice.Reader.MasterRead: no claim that a transfer that moved every byte succeeds, since one can fail (`TwiTransfer.FinishedButFailed`).
- Register wrappers (pio, pmc, uart, spi, rstc, ioport, led), stdio and board configuration, which hold no state of their own, and the UDP register protocol, whose implementation is not part of this model.
