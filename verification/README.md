# Verified model of the dtmc Zephyr backends

This project models the state machines and the bounded arithmetic of the Zephyr backends in
`dtmc_zephyr_library` and proves what their protocols keep, over every input, every run and every
interleaving of interrupt and foreground steps.  Nothing was executed.

| files | system | form |
|---|---|---|
| `UartIrq.dfy`, `UartRuns.dfy` | the interrupt-driven UART stream | class `UartIrq`; runs over ISR and foreground steps |
| `Modbus.dfy`, `ModbusRuns.dfy` | the Modbus slave mailbox | class `ModbusSlave`; runs over register accesses and application calls |
| `CanBus.dfy`, `CanDriver.dfy`, `CanRuns.dfy` | the CAN byte stream | class `CanBus`; runs over callbacks and foreground steps; sender and receiver joined |
| `Tasker.dfy` | the tasker lifecycle | class `Tasker`; every atomic operation and kernel call of start, join and the thread is one step |
| `Adc.dfy`, `Interval.dfy` | the ADC scanner, the two interval timers | classes `Scanner`, `Interval`; small steps of interrupt, loop and stopper |
| `Clock.dfy` | cycle counter, alarm schedule, timestamps | classes `Cpu`, `Alarm`, `Timestamper`; machine integers written out |
| `HexParser.dfy` | the hex TLV parser | a method over an output array |
| `GpioPort.dfy` | the GPIO port table and its interrupt | class `Gpio` over 32-bit words |
| `Bytes.dfy`, `LatchedStream.dfy` | byte queues; a bounded stream with an overflow latch | shared by the stream drivers |

Each driver is a class whose methods update its fields in place and are proved against a function
on a value of its state (`Abs() == F(old(Abs()))`).  The run modules then take those functions as
the atomic steps of all threads and interrupts, add a history of what happened, and prove the
theorems over arbitrary lists of events.  `LatchedStream` carries the common invariant of the
receive paths: UART, CAN and Modbus receive refine it.

## Contracts of code outside the model

- `dtringfifo` is a bounded byte queue: a push appends the longest prefix that fits, a pop takes at
  most the requested bytes from the front, configure and reset empty it.
- `DTCORE_HELPER_INC32` and `DTCORE_HELPER_ADD32` saturate at 2147483647.
- `uart_irq_tx_ready` and `uart_irq_rx_ready` hold only while the respective interrupt is enabled;
  `uart_fifo_fill` takes a prefix of what it is given or fails; `uart_fifo_read` answers some bytes,
  none, or an error.
- `can_send` returns zero exactly when the frame was queued, else a negative code.
- `k_thread_join` returns once the current run's thread has terminated; an event wait returns once
  its bit is set or its timeout has passed; a semaphore is a counter with cap one.
- Modbus register numbers, command and status codes and size limits come from dtmc_base, which is
  not part of this model; they are the parameter `Layout` with the conditions `Sound`.  Two bytes
  share a register, the first in the high half, and an odd last byte leaves the low half zero.
- Clocks, counter readings, sample values, callbacks' answers, allocation results and driver return
  codes are parameters.

## What the code does, where its own comments say otherwise

- The hex parser's comment says that it accepts a leading "0x".  Only the `x` is skipped; the zero
  counts as a digit, so one leading "0x" makes a valid text invalid, and two of them shift the bytes
  (`HexTheorems.LeadingMarkRejected`, `HexTheorems.MarkedIff`).
- The CAN header says that a receive capacity of zero selects a default of 1024 bytes;
  `configure` refuses it (`CanDriver.CanBus.Configure`).  The comments of `read`, `write` and the
  state check say that they fail unless the controller is error-active and that logged bus errors
  make them fail; the code looks at the state only and also accepts error-passive
  (`CanSpec.Usable`).
- A CAN `write` that fails reports no byte as written, yet the frames of its earlier chunks have been
  queued; the receiver then sees them.  Only writes of at most one frame are safe from this
  (`CanTransmit.CleanFailureIff`, `CanRuns.TransparentIff`).  Before `configure` the retry count is
  zero and `write` reports success without sending (`CanTransmit.UnconfiguredWrite`).
- A UART `write` interrupted between its check and its arming of the transmitter can transmit past a
  loss (`UartRuns.GapFreeIff`, `UartRuns.NonAtomicWriteLeavesGap`).
- `pause` says that it unblocks the dispatch loop.  A pause that lands inside a callback is
  overwritten by the callback's own answer (`IntervalRuns.PauseHonouredIff`), and the loop can then
  wait for ever (`IntervalRuns.LostPauseIsReachable`).
- `start` of a task waits for ever if the entry point returns success without having announced
  itself (`TaskerRuns.StartReturnsIff`, `TaskerRuns.HangIsReachable`).
- The alarm targets wrap at 2^32; on a counter with a smaller top value the schedule reaches a target
  that the counter never shows, unless the period's grain keeps it away
  (`AlarmSchedule.TargetsShownIff`, `AlarmSchedule.AllTargetsShownIff`).
- Disposing of a GPIO object that does not own its configured pin switches that pin's edge
  interrupt off; a second dispose does so to pin 0 (`GpioRuns.PinZeroIsCutOff`).

## Model

| member | source | states |
|---|---|---|
| UartDriver.UartIrq.constructor | dtmc_zephyr_library/src/dtiox_zephyr_uartirq.c:60-79 | a new driver is neither attached, configured nor enabled, and empty |
| UartDriver.UartIrq.Configure | dtmc_zephyr_library/src/dtiox_zephyr_uartirq.c:82-126 | invalid UART settings and capacities below one are refused without a change; then each queue whose buffer can be allocated gets its capacity and is empty, receive first |
| UartDriver.UartIrq.Enable | dtmc_zephyr_library/src/dtiox_zephyr_uartirq.c:209-244 | interrupts off, queues and sticky counters cleared, then receive armed if enabling; an unattached driver is refused |
| UartDriver.UartIrq.Read | dtmc_zephyr_library/src/dtiox_zephyr_uartirq.c:247-269 | returns the front of the receive queue and removes exactly it; refused with the queue untouched while anything is latched |
| UartDriver.UartIrq.Write | dtmc_zephyr_library/src/dtiox_zephyr_uartirq.c:272-295 | accepts the longest prefix that fits and arms the transmitter exactly when it accepted something; refused while anything is latched |
| UartDriver.UartIrq.ServiceTx | dtmc_zephyr_library/src/dtiox_zephyr_uartirq__callbacks.c:32-61 | takes up to 32 bytes; tells the fate of each of them, the latched counter and when the interrupt is disabled, an empty queue included |
| UartDriver.UartIrq.ServiceRx | dtmc_zephyr_library/src/dtiox_zephyr_uartirq__callbacks.c:64-97 | the answers up to the first error, drop or empty one are received in order, and the part that fits is queued; an error or a drop raises its own counter; the semaphore is posted exactly when bytes came |
| UartDriver.UartIrq.Callback | dtmc_zephyr_library/src/dtiox_zephyr_uartirq__callbacks.c:101-129 | each side is served exactly while its interrupt is enabled and ready, transmit first: all answers up to the first error, drop or empty one are received and queued as far as they fit, the matching counter rises, and nothing else changes |
| UartSpec.RxValid | dtmc_zephyr_library/src/dtiox_zephyr_uartirq__callbacks.c:64-97 | the receive loop keeps the queue within its capacity and touches nothing of the transmit side |
| UartRuns.ChunkFates | dtmc_zephyr_library/src/dtiox_zephyr_uartirq__callbacks.c:32-61 | a served chunk is accounted for byte by byte, sent bytes first; a loss latches an error and disarms |
| UartSpec.RxReceives | dtmc_zephyr_library/src/dtiox_zephyr_uartirq__callbacks.c:64-97 | the receive loop takes in all non-empty data up to the first answer that ends it, and its counters tell which answer that was |
| UartSpec.TxServes | dtmc_zephyr_library/src/dtiox_zephyr_uartirq__callbacks.c:32-61 | what a served transmit interrupt takes, sends, counts and disables, case by case |
| UartSpec.CallbackHandles | dtmc_zephyr_library/src/dtiox_zephyr_uartirq__callbacks.c:101-129 | the handler serves exactly the sides that are ready and enabled |
| UartRuns.IsrHandles | dtmc_zephyr_library/src/dtiox_zephyr_uartirq__callbacks.c:101-129 | so does the interrupt in every run, and the histories record what it moved |
| UartRuns.FittingBytesReceived | dtmc_zephyr_library/src/dtiox_zephyr_uartirq__callbacks.c:64-97 | bytes that all find room are all received and queued in order by one interrupt, and nothing is latched |
| UartRuns.ReadUninterrupted | dtmc_zephyr_library/src/dtiox_zephyr_uartirq.c:247-269 | a read without interruption moves as much as asked for from the queue to the reader, exactly if it is allowed to |
| UartRuns.WriteUninterrupted | dtmc_zephyr_library/src/dtiox_zephyr_uartirq.c:272-295 | a permitted write without interruption accepts the longest prefix that fits and arms the transmitter exactly if that is not empty |
| UartRuns.EnableUninterrupted | dtmc_zephyr_library/src/dtiox_zephyr_uartirq.c:209-244 | an enable or disable without interruption leaves empty queues and cleared counters, with only the receiver armed and only if enabling |
| UartRuns.ReadCatchesUp | dtmc_zephyr_library/src/dtiox_zephyr_uartirq.c:247-269 | after any run with nothing latched, one read of the queue's length has delivered everything taken from the UART |
| LatchedStream.ArriveInv | dtmc_zephyr_library/src/dtiox_zephyr_uartirq__callbacks.c:84-90 | arriving bytes keep conservation, order and the meaning of the latch, also between a reader's check and its pop |
| LatchedStream.PopInv | dtmc_zephyr_library/src/dtiox_zephyr_uartirq.c:257-266 | a pop after the check keeps them |
| LatchedStream.ReaderInv | dtmc_zephyr_library/src/dtiox_zephyr_canbus.c:341-349 | a fault, the reader's check and the report keep them |
| UartRuns.DrainMirrors | dtmc_zephyr_library/src/dtiox_zephyr_uartirq__callbacks.c:64-91 | the receive loop is a list of arrivals, possibly ended by a fault, of the latched stream |
| UartRuns.StepMirrors | dtmc_zephyr_library/src/dtiox_zephyr_uartirq__helpers.c:66-99 | every step of ISR and foreground is a step of the latched stream and keeps its invariant |
| UartRuns.RxIntegrity | dtmc_zephyr_library/src/dtiox_zephyr_uartirq.c:247-269 | under every interleaving the bytes returned since enable are a prefix of the bytes taken from the UART; with nothing latched the rest is still queued |
| UartRuns.WireIsSubsequence | dtmc_zephyr_library/src/dtiox_zephyr_uartirq__callbacks.c:47-60 | the wire carries a subsequence of the bytes taken, all of them without loss, a prefix if nothing was sent after a loss |
| UartRuns.StepTxInv | dtmc_zephyr_library/src/dtiox_zephyr_uartirq__callbacks.c:32-61 | every step keeps: accepted = sent, lost and queued in order, latch = some loss, unsent bytes without a latch are armed |
| UartRuns.TxConservation | dtmc_zephyr_library/src/dtiox_zephyr_uartirq.c:272-295 | under every interleaving accepted bytes are conserved in order, the wire is a subsequence of them, and a non-empty queue without a latched error has its interrupt armed |
| UartRuns.AtomicWritesGivePrefix | dtmc_zephyr_library/src/dtiox_zephyr_uartirq.c:282-288 | if no ISR runs inside a write the wire carries a prefix of the accepted bytes, and a latched driver has stopped transmitting |
| UartRuns.GapFreeIff | dtmc_zephyr_library/src/dtiox_zephyr_uartirq__callbacks.c:32-61 | under every interleaving nothing is sent past a loss exactly when, since the last clearing, no ISR with room served a non-empty queue while an error was latched; the wire then carries a prefix |
| UartRuns.RearmSendsPastGap | dtmc_zephyr_library/src/dtiox_zephyr_uartirq.c:282-288 | how a write gets there: after a loss inside it, the next ISR sends past the gap exactly when the write accepted a byte and the queue is not empty |
| UartRuns.NonAtomicWriteLeavesGap | dtmc_zephyr_library/src/dtiox_zephyr_uartirq.c:282-288 | a reachable run in which 7 and 8 are accepted and only 8 reaches the wire |
| ModbusSpec.PackedHalves | dtmc_zephyr_library/src/dtiox_zephyr_modbus_slave__helpers.c:86 | the first byte of a register is its high half, and an odd last byte leaves the low half zero |
| ModbusSpec.UnpackPack | dtmc_zephyr_library/src/dtiox_zephyr_modbus_slave__helpers.c:45-47 | unpacking registers that begin with the packing of a blob gives the blob, for odd lengths too |
| ModbusDriver.PackBytes | dtmc_zephyr_library/src/dtiox_zephyr_modbus_slave__helpers.c:86 | the packing loop writes the packed registers and keeps those behind them |
| ModbusDriver.UnpackRegs | dtmc_zephyr_library/src/dtiox_zephyr_modbus_slave__helpers.c:45-47 | the unpacking loop |
| ModbusDriver.ModbusSlave.constructor | dtmc_zephyr_library/src/dtiox_zephyr_modbus_slave.c:50-71 | an initialised slave: no room, nothing staged, not processing |
| ModbusDriver.ModbusSlave.Configure | dtmc_zephyr_library/src/dtiox_zephyr_modbus_slave.c:74-116 | invalid settings and a capacity below one are refused without a change; then the queue is set up, and with the staging buffer overflow latch and staging slot are cleared |
| ModbusDriver.ModbusSlave.SetEnabled | dtmc_zephyr_library/src/dtiox_zephyr_modbus_slave.c:231-262 | enabling clears queue, latch, staging slot and the master's answer registers; the command state stays |
| ModbusDriver.ModbusSlave.Write | dtmc_zephyr_library/src/dtiox_zephyr_modbus_slave.c:300-338 | a negative length is refused; busy while a message is staged; otherwise stages the message, cut to the blob limit, and accepts that many bytes; an empty one is not pending |
| ModbusDriver.ModbusSlave.Read | dtmc_zephyr_library/src/dtiox_zephyr_modbus_slave.c:265-297 | a negative length is refused; an overflow is reported once and keeps the queue; otherwise exactly as many bytes as asked for and queued leave the front |
| ModbusDriver.ModbusSlave.HoldingRegRd | dtmc_zephyr_library/src/dtiox_zephyr_modbus_slave__callbacks.c:25-57 | status, length and data registers, zero at every other address, untouched while not processing |
| ModbusDriver.ModbusSlave.PutTxStagedIntoS2m | dtmc_zephyr_library/src/dtiox_zephyr_modbus_slave__helpers.c:70-103 | a poll moves the staged message into the answer registers and frees the slot, or answers that there is none |
| ModbusDriver.ModbusSlave.PutM2sIntoRxFifo | dtmc_zephyr_library/src/dtiox_zephyr_modbus_slave__helpers.c:32-64 | unpacks the blob, appends what fits, latches an overflow, posts exactly if something was appended |
| ModbusDriver.ModbusSlave.HoldingRegWr | dtmc_zephyr_library/src/dtiox_zephyr_modbus_slave__callbacks.c:61-140 | the register-write state machine: command, length, data, poll and blob consumption |
| ModbusSpec.CommandWrite | dtmc_zephyr_library/src/dtiox_zephyr_modbus_slave__callbacks.c:71-80 | a command starts a new transaction and touches nothing else |
| ModbusSpec.LengthWrite | dtmc_zephyr_library/src/dtiox_zephyr_modbus_slave__callbacks.c:83-112 | the length sets the number of data registers; it is the poll exactly behind a poll command, and then shows the staged message or none |
| ModbusSpec.DataWrite | dtmc_zephyr_library/src/dtiox_zephyr_modbus_slave__callbacks.c:116-135 | a data register is stored and counted; the blob is consumed exactly behind a put command from the last expected register on |
| ModbusSpec.IgnoredWrite | dtmc_zephyr_library/src/dtiox_zephyr_modbus_slave__callbacks.c:67-68 | no other address does anything, nor any while not processing |
| ModbusRuns.MessagesExactlyOnce | dtmc_zephyr_library/src/dtiox_zephyr_modbus_slave.c:300-338 | under every interleaving the accepted messages are the ones handed to polls, each once and in order, followed by the staged one |
| ModbusRuns.EnableStartsFresh | dtmc_zephyr_library/src/dtiox_zephyr_modbus_slave.c:242-256 | enabling establishes the hypotheses of the run theorems |
| ModbusRuns.QuietKeepsRegisters | dtmc_zephyr_library/src/dtiox_zephyr_modbus_slave__helpers.c:77-97 | between polls no application call and no blob transfer changes the answer registers |
| ModbusRuns.PollShows | dtmc_zephyr_library/src/dtiox_zephyr_modbus_slave__helpers.c:77-97 | after a poll the registers show the staged message, or none |
| ModbusRuns.SnapshotAnswer | dtmc_zephyr_library/src/dtiox_zephyr_modbus_slave__callbacks.c:25-57 | status, length and data read one by one at any times before the next poll give exactly the message staged at the poll, whatever runs in between |
| ModbusRuns.StepStream | dtmc_zephyr_library/src/dtiox_zephyr_modbus_slave.c:265-297 | every step of master and application is a step of the latched stream |
| ModbusRuns.RunStream | dtmc_zephyr_library/src/dtiox_zephyr_modbus_slave.c:265-297 | so is every run |
| ModbusRuns.BlobsAppend | dtmc_zephyr_library/src/dtiox_zephyr_modbus_slave__callbacks.c:61-140 | the blobs completed by two lists of register writes after each other |
| ModbusRuns.TransactionCompletesBlob | dtmc_zephyr_library/src/dtiox_zephyr_modbus_slave__callbacks.c:61-140 | command, length and exactly the data registers of a non-empty blob complete it once, from any earlier state |
| ModbusRuns.ConversationCompletesPuts | dtmc_zephyr_library/src/dtiox_zephyr_modbus_slave__callbacks.c:61-140 | a master that sends blobs and polls in any order completes exactly the blobs it sends, in order |
| ModbusRuns.ConsumptionCount | dtmc_zephyr_library/src/dtiox_zephyr_modbus_slave__callbacks.c:121-132 | how often a blob is consumed for any number of data writes: once per write from the last expected one on, never if its length is zero |
| ModbusRuns.OnceIffExact | dtmc_zephyr_library/src/dtiox_zephyr_modbus_slave__callbacks.c:121-132 | a blob is consumed exactly once just when its length is positive and it has exactly its data registers |
| ModbusRuns.RunOffers | dtmc_zephyr_library/src/dtiox_zephyr_modbus_slave__callbacks.c:61-140 | what the application can read depends on the master's writes only, not on the interleaving |
| ModbusRuns.BlobRoundTrip | dtmc_zephyr_library/src/dtiox_zephyr_modbus_slave__helpers.c:32-64 | for a master that sends and polls in any order and under any interleaving, bytes read and queued are the concatenation of the blobs sent if nothing overflowed, a subsequence with every lost byte counted otherwise |
| ModbusRuns.ReadCatchesUp | dtmc_zephyr_library/src/dtiox_zephyr_modbus_slave.c:265-297 | without a loss, one read of at least the queue's length delivers all that was consumed from the master |
| ModbusRuns.BlobsDelivered | dtmc_zephyr_library/src/dtiox_zephyr_modbus_slave.c:265-297 | after any run of such a master without loss, one read of at least the queue's length has delivered exactly the blobs sent |
| ModbusRuns.OfferIsAccepted | dtmc_zephyr_library/src/dtiox_zephyr_modbus_slave.c:300-338 | a message is accepted, cut to the blob limit, exactly when nothing is staged and it is not empty |
| CanDriver.CanBus.constructor | dtmc_zephyr_library/src/dtiox_zephyr_canbus.c:82-98 | a new driver: nothing started, no retries, empty |
| CanDriver.CanBus.Configure | dtmc_zephyr_library/src/dtiox_zephyr_canbus.c:104-135 | five retries in any case; a capacity below one is refused, then a failing allocation |
| CanDriver.CanBus.Enable | dtmc_zephyr_library/src/dtiox_zephyr_canbus.c:282-311 | gates reception; enabling clears queue, latch and counters; refused and counted before attach |
| CanDriver.CanBus.RxCallback | dtmc_zephyr_library/src/dtiox_zephyr_canbus_callbacks.c:47-74 | an enabled receiver takes the payload, latches and counts what does not fit |
| CanDriver.CanBus.TxCallback | dtmc_zephyr_library/src/dtiox_zephyr_canbus_callbacks.c:79-93 | remembers the last transmit error and counts errors |
| CanDriver.CanBus.Read | dtmc_zephyr_library/src/dtiox_zephyr_canbus.c:322-361 | error order started, bus state, overflow; the overflow is reported once and cleared; otherwise the front is popped |
| CanDriver.CanBus.SendFrame | dtmc_zephyr_library/src/dtiox_zephyr_canbus.c:409-447 | the loop goes on exactly as long as the bus is busy and the budget lasts; the first other attempt decides between queued and the three failures; all attempts busy is a timeout; nothing else happens while retries are allowed |
| CanDriver.CanBus.SendBuffer | dtmc_zephyr_library/src/dtiox_zephyr_canbus.c:389-454 | the chunk loop queues the specified frames and reports the specified length and error |
| CanDriver.CanBus.Write | dtmc_zephyr_library/src/dtiox_zephyr_canbus.c:372-457 | refused and counted before attach; otherwise the chunk loop |
| CanSpec.PayloadOfFrame | dtmc_zephyr_library/src/dtiox_zephyr_canbus.c:397-407 | the receiver's view of a sent frame is the chunk |
| CanTransmit.ChunksJoin | dtmc_zephyr_library/src/dtiox_zephyr_canbus.c:391-395 | the chunks join to the buffer and all but the last carry eight bytes |
| CanTransmit.ChunkDecided | dtmc_zephyr_library/src/dtiox_zephyr_canbus.c:409-447 | the same of every chunk: the attempt behind the busy ones decides, with an if-and-only-if for each outcome, and a timeout exactly when all allowed attempts were busy |
| CanTransmit.ChunkOutcome | dtmc_zephyr_library/src/dtiox_zephyr_canbus.c:409-447 | one chunk stays within its retry budget and is queued at exactly one accepted attempt |
| CanTransmit.AllOutcome | dtmc_zephyr_library/src/dtiox_zephyr_canbus.c:391-451 | the frames queued are a beginning of the buffer's frames, all of them exactly without an error |
| CanTransmit.FailureCause | dtmc_zephyr_library/src/dtiox_zephyr_canbus.c:409-447 | the error of a failing write is how one of its chunks ended, as the attempts of that chunk decide |
| CanTransmit.WriteOutcome | dtmc_zephyr_library/src/dtiox_zephyr_canbus.c:372-457 | success: everything queued and the whole length reported; failure: a proper whole-chunk beginning queued and zero reported |
| CanTransmit.WriteAttempts | dtmc_zephyr_library/src/dtiox_zephyr_canbus.c:409-435 | as many frames as accepted attempts, so no frame is queued twice; at most the retry count of attempts per chunk begun |
| CanTransmit.CleanFailureIff | dtmc_zephyr_library/src/dtiox_zephyr_canbus.c:409-447 | whatever the bus does, a failing write leaves nothing on it exactly when the buffer fits one frame |
| CanTransmit.UnconfiguredWrite | dtmc_zephyr_library/src/dtiox_zephyr_canbus.c:409-453 | without retries every byte is reported written and none is queued |
| CanTransmit.SuccessMeansQueued | dtmc_zephyr_library/src/dtiox_zephyr_canbus.c:372-457 | a successful write queued the buffer exactly when retries are allowed |
| CanRuns.StepInv | dtmc_zephyr_library/src/dtiox_zephyr_canbus_helpers.c:46-60 | every step of callbacks and foreground keeps the receive invariant |
| CanRuns.NoSilentLoss | dtmc_zephyr_library/src/dtiox_zephyr_canbus_helpers.c:46-60 | under every interleaving received = delivered + queued + dropped, order is kept, the latch is set exactly when bytes were dropped since the last report, the drop counter saturates |
| CanRuns.ReadUninterrupted | dtmc_zephyr_library/src/dtiox_zephyr_canbus.c:322-361 | a read without interruption: refused, an overflow report that keeps the queue, or exactly as much of the front as asked for |
| CanRuns.EnableUninterrupted | dtmc_zephyr_library/src/dtiox_zephyr_canbus.c:282-311 | enabling without interruption clears queue, latch and counters; disabling closes the gate and leaves them |
| CanRuns.ReadCatchesUp | dtmc_zephyr_library/src/dtiox_zephyr_canbus.c:322-361 | after any run without loss, one read of at least the queue's length has delivered everything received |
| CanRuns.CallCarries | dtmc_zephyr_library/src/dtiox_zephyr_canbus.c:372-457 | one write puts its whole buffer on the bus, or after a failure a proper beginning |
| CanRuns.BusCarries | dtmc_zephyr_library/src/dtiox_zephyr_canbus.c:372-457 | for given calls the bus carries the concatenation of the successful writes exactly when no failed call queued a frame |
| CanRuns.BusCarriesIff | dtmc_zephyr_library/src/dtiox_zephyr_canbus.c:372-457 | a list of buffers is sure to be carried that way, whatever the bus does, exactly when each fits one frame |
| CanRuns.ReceiverTakesAll | dtmc_zephyr_library/src/dtiox_zephyr_canbus_callbacks.c:47-74 | an enabled receiver takes in exactly the payloads delivered, whatever the foreground does |
| CanRuns.ReceiverGetsBus | dtmc_zephyr_library/src/dtiox_zephyr_canbus.c:322-457 | end to end over an in-order lossless bus without overflow, bytes read and queued are what the writes put on the bus, however the data is cut |
| CanRuns.StreamTransparency | dtmc_zephyr_library/src/dtiox_zephyr_canbus.c:322-457 | for writes of at most one frame each, whichever of them fail, the receiver gets the concatenation of the successful ones |
| CanRuns.TransparentIff | dtmc_zephyr_library/src/dtiox_zephyr_canbus.c:322-457 | with room for a frame the stream is transparent for a list of buffers, over all behaviours of the bus and all schedules of the receiver, exactly when each buffer fits one frame |
| TaskerDriver.Tasker.constructor | dtmc_zephyr_library/src/dttasker_zephyr.c:90-101 | initial flags, no event, status initialized |
| TaskerDriver.Tasker.Launch | dtmc_zephyr_library/src/dttasker_zephyr.c:165-221 | refused exactly while created and not exited; otherwise flags and events cleared and the thread created, or out of memory |
| TaskerDriver.Tasker.SetInfo | dtmc_zephyr_library/src/dttasker_zephyr.c:377-400 | the status is stored even if the callback fails, whose result is returned |
| TaskerDriver.Tasker.Ready | dtmc_zephyr_library/src/dttasker_zephyr.c:234-248 | the status is running in any case; the ready event is posted exactly when the status callback succeeds, and stays if it was set; nothing else changes |
| TaskerDriver.Tasker.Stop | dtmc_zephyr_library/src/dttasker_zephyr.c:252-263 | sets the stop flag only |
| TaskerDriver.Tasker.ThreadTail | dtmc_zephyr_library/src/dttasker_zephyr.c:139-162 | after the entry point: stopped, ready posted on failure, exited flag and event set |
| TaskerDriver.Tasker.BeginJoin | dtmc_zephyr_library/src/dttasker_zephyr.c:282-312 | nothing to do exactly if never started or already joined, joining the thread exactly if it has exited, else waiting for the exited event; the three loads of an uninterrupted join take the step machine there |
| TaskerDriver.Tasker.EndJoin | dtmc_zephyr_library/src/dttasker_zephyr.c:332-334 | joined set and created cleared |
| TaskerRuns.ControlInv | dtmc_zephyr_library/src/dttasker_zephyr.c:165-338 | every step of start and join keeps the invariant |
| TaskerRuns.ThreadInv | dtmc_zephyr_library/src/dttasker_zephyr.c:127-162 | every step of the current or of an older thread keeps it |
| TaskerRuns.ReachableInv | dtmc_zephyr_library/src/dttasker_zephyr.c:127-338 | so does every run |
| TaskerRuns.AtMostOneEntry | dtmc_zephyr_library/src/dttasker_zephyr.c:173-187 | under every interleaving at most one thread executes the entry point |
| TaskerRuns.OutcomesAreTrue | dtmc_zephyr_library/src/dttasker_zephyr.c:223-338 | a start that succeeded saw its own thread announce itself or fail; a join that took effect saw the current run's thread terminate |
| TaskerRuns.StartWakesIffDue | dtmc_zephyr_library/src/dttasker_zephyr.c:144-154 | a waiting start can return exactly when the thread announced itself or failed and posted |
| TaskerRuns.StartHangs | dtmc_zephyr_library/src/dttasker_zephyr.c:145-154 | an entry point that returned success without announcing itself leaves start waiting through every continuation |
| TaskerRuns.StartReturnsIff | dtmc_zephyr_library/src/dttasker_zephyr.c:127-154 | a waiting start has a continuation in which it returns exactly when its thread is in the entry point, announced itself or failed |
| TaskerRuns.HangIsReachable | dtmc_zephyr_library/src/dttasker_zephyr.c:165-225 | a run from the beginning to a start that waits through every continuation |
| TaskerRuns.ExitedMeansOutOfEntry | dtmc_zephyr_library/src/dttasker_zephyr.c:289-299 | once the exited flag is set no thread is in user code or before its exit |
| TaskerRuns.StartUninterrupted | dtmc_zephyr_library/src/dttasker_zephyr.c:165-224 | run without interruption and with memory, the steps of start from its call to its wait have the effect of Launch: refused, or one new thread |
| TaskerRuns.LaunchUninterrupted | dtmc_zephyr_library/src/dttasker_zephyr.c:184-224 | the part behind the clearing of the events, whatever the event bits are by then |
| TaskerRuns.ReadyUninterrupted | dtmc_zephyr_library/src/dttasker_zephyr.c:234-248 | a thread's call of ready, run without interruption, has the effect of Ready on the shared state, for both answers of the callback |
| TaskerRuns.ReadyLetsStartReturn | dtmc_zephyr_library/src/dttasker_zephyr.c:223-248 | behind it a waiting start returns with its next step exactly when the callback succeeded or the event was set before |
| TaskerRuns.TimedJoinReturns | dtmc_zephyr_library/src/dttasker_zephyr.c:313-332 | a join whose time is up goes on to the kernel join if the exited event is there, else reports the timeout and leaves the tasker as it was |
| TaskerRuns.StopHolds | dtmc_zephyr_library/src/dttasker_zephyr.c:252-263 | a stop request stays visible through every continuation without a new start |
| TaskerRuns.TailUninterrupted | dtmc_zephyr_library/src/dttasker_zephyr.c:139-162 | run without interruption, the steps of a thread behind its entry point have the effect of ThreadTail |
| TaskerRuns.JoinUninterrupted | dtmc_zephyr_library/src/dttasker_zephyr.c:282-299 | and those of a join behind a terminated thread the effect of EndJoin |
| TaskerRuns.StaleExitedBit | dtmc_zephyr_library/src/dttasker_zephyr.c:157-158 | a restart between the exited flag and the exited event makes a later join's event wait end while the new thread still runs; only the kernel join holds it back |
| CpuClock.Cpu.SysInit | dtmc_zephyr_library/src/dtcpu_zephyr_arm.c:36-48 | the scale is the floor of 10^6 * 2^32 / clock; without a cycle counter nothing changes |
| CpuClock.Cpu.Mark | dtmc_zephyr_library/src/dtcpu_zephyr_arm.c:51-57 | keeps the last two counter readings |
| CpuClock.Cpu.ElapsedCycles | dtmc_zephyr_library/src/dtcpu_zephyr_native.c:32-36 | for marks taken at any true cycle counts, the true distance exactly when it is below 2^32 |
| CpuClock.Cpu.ElapsedMicroseconds | dtmc_zephyr_library/src/dtcpu_zephyr_arm.c:68-74 | for marks less than 2^32 cycles apart and from 1 MHz on, never above the whole microseconds between them and at most one below |
| CpuClock.ElapsedIsTrue | dtmc_zephyr_library/src/dtcpu_zephyr_arm.c:60-65 | the difference is the true distance, also across a wrap, exactly when fewer than 2^32 cycles passed |
| CpuClock.NoOverflowIff | dtmc_zephyr_library/src/dtcpu_zephyr_arm.c:72-73 | the product fits 64 bits for all cycle counts exactly when the clock is at least 1 MHz |
| CpuClock.MicrosBound | dtmc_zephyr_library/src/dtcpu_zephyr_native.c:39-44 | never above the whole microseconds elapsed and at most one below |
| CpuClock.MicrosMonotone | dtmc_zephyr_library/src/dtcpu_zephyr_arm.c:68-74 | more cycles never give fewer microseconds |
| AlarmSchedule.Alarm.SetPeriod | dtmc_zephyr_library/src/dtinterval_zephyr_counter.c:174-187 | refused exactly if frequency or period is zero |
| AlarmSchedule.Alarm.ArmFirst | dtmc_zephyr_library/src/dtinterval_zephyr_counter.c:191-213 | first target one period from now, modulo 2^32, once the counter starts; succeeds exactly if the counter starts and accepts the alarm |
| AlarmSchedule.Alarm.OnAlarm | dtmc_zephyr_library/src/dtinterval_zephyr_counter.c:62-77 | the handler goes from the n-th to the (n+1)-th absolute target |
| AlarmSchedule.TargetStep | dtmc_zephyr_library/src/dtinterval_zephyr_counter.c:67 | wrapped additions give (start + n * period) mod 2^32 whatever the latencies |
| AlarmSchedule.DriftBound | dtmc_zephyr_library/src/dtinterval_zephyr_counter.c:181-199 | the n-th target never leads the ideal schedule; it trails by less than n ticks exactly if the period fits 32 bits, and by nothing exactly if moreover the division is exact |
| AlarmSchedule.TargetsShownIff | dtmc_zephyr_library/src/dtinterval_zephyr_counter.c:67-74 | for a given start and period a counter shows every target exactly when its top is not below the highest value congruent to the start modulo the largest power of two in the period |
| AlarmSchedule.AllTargetsShownIff | dtmc_zephyr_library/src/dtinterval_zephyr_counter.c:67-74 | it shows every target for all starts and periods exactly when it is a full 32-bit counter |
| AdcClock.Timestamper.TicksToNs | dtmc_zephyr_library/src/dtadc_zephyr_saadc.c:550-561 | one conversion: the wrap correction, the remembered reading and the returned value |
| AdcClock.AfterTracks | dtmc_zephyr_library/src/dtadc_zephyr_saadc.c:553-557 | the base counts the turns noticed, never more than passed, and all of them exactly if samples are close |
| AdcClock.TicksExact | dtmc_zephyr_library/src/dtadc_zephyr_saadc.c:553-557 | base plus reading is the true unwrapped tick count exactly when successive samples are less than top + 1 ticks apart |
| AdcClock.SplitFloor | dtmc_zephyr_library/src/dtadc_zephyr_saadc.c:559-560 | the split computation is the floor of ticks * 10^9 / freq |
| AdcClock.NanosExact | dtmc_zephyr_library/src/dtadc_zephyr_saadc.c:559-560 | the 64-bit result is that floor exactly when the floor fits 64 bits |
| AdcClock.TicksBound | dtmc_zephyr_library/src/dtadc_zephyr_saadc.c:559-560 | which it does up to 18446744073 seconds |
| AdcClock.TimestampsMonotone | dtmc_zephyr_library/src/dtadc_zephyr_saadc.c:550-561 | timestamps of one activation never decrease, even past missed wraps |
| AdcClock.StampExact | dtmc_zephyr_library/src/dtadc_zephyr_saadc.c:550-561 | from the readings alone, a stamp is the floor of the true time if no sample came a full turn after the one before; up to 1 GHz only then |
| AdcDriver.Scanner.constructor | dtmc_zephyr_library/src/dtadc_zephyr_saadc.c:203-227 | nothing armed or pending, sequence numbers from zero |
| AdcDriver.Scanner.SetUp | dtmc_zephyr_library/src/dtadc_zephyr_saadc.c:291-333 | fails exactly if frequency or period is zero or the counter does not start or accept the alarm; resets semaphore, pause flag and clock once the period is known; sequence numbers go on; the object then matches the activated step machine |
| AdcDriver.Scanner.AlarmHandler | dtmc_zephyr_library/src/dtadc_zephyr_saadc.c:531-544 | next absolute target and one token |
| AdcDriver.Scanner.SignalStop | dtmc_zephyr_library/src/dtadc_zephyr_saadc.c:387-390 | alarm cancelled, pause raised, one token given |
| AdcDriver.Scanner.ReadChannels | dtmc_zephyr_library/src/dtadc_zephyr_saadc.c:582-610 | the first read error ends the scan without taking a number; otherwise all samples under the next number |
| AdcDriver.Scanner.OnTick | dtmc_zephyr_library/src/dtadc_zephyr_saadc.c:566-616 | one scan with its callback: the clock moves first, then reads, number and hand-over, as a run of the step machine whatever alarms or stop signals come during the callback |
| AdcDriver.Scanner.OneRound | dtmc_zephyr_library/src/dtadc_zephyr_saadc.c:630-636 | one turn: waits without a token, stops if stopped while waiting, fails at the first unreadable channel or by its callback, otherwise hands over its scan and goes on |
| AdcDriver.Scanner.ReaderTask | dtmc_zephyr_library/src/dtadc_zephyr_saadc.c:618-636 | of an armed scanner every ordinary round hands over one scan, and the first odd one decides how the task ends, told by the rounds alone; scan i carries number, timestamp and samples of its own reading; the whole is a run of the step machine over a beginning of the script |
| AdcRuns.StepInv | dtmc_zephyr_library/src/dtadc_zephyr_saadc.c:618-636 | every step of interrupt, reader and controller keeps the invariant |
| AdcRuns.TickAccounting | dtmc_zephyr_library/src/dtadc_zephyr_saadc.c:566-616 | never more scans than alarms in an activation; delivered numbers are 0, 1, 2, ... over the object's life |
| AdcRuns.AtMostOneMoreScan | dtmc_zephyr_library/src/dtadc_zephyr_saadc.c:387-390 | after the pause is raised at most one more scan is delivered, and only if the reader had passed its second test |
| AdcRuns.OwnStepProgresses | dtmc_zephyr_library/src/dtadc_zephyr_saadc.c:630-636 | after the stop signal the reader's next step is always possible and brings it nearer to its exit; nothing moves it away |
| AdcRuns.ExitWithinFive | dtmc_zephyr_library/src/dtadc_zephyr_saadc.c:618-659 | five own steps after the stop signal bring the reader to its exit, whatever runs in between |
| AdcRuns.DeactivateUninterrupted | dtmc_zephyr_library/src/dtadc_zephyr_saadc.c:387-421 | a whole deactivate disarms, raises the pause and leaves one token |
| AdcRuns.AlarmLeadsToScan | dtmc_zephyr_library/src/dtadc_zephyr_saadc.c:531-544 | an alarm of an armed scanner gives the token with which a waiting reader scans under the next number |
| AdcRuns.FirstScan | dtmc_zephyr_library/src/dtadc_zephyr_saadc.c:291-333 | an activation starts afresh but for the numbers, and its first alarm brings its first scan |
| IntervalDriver.Interval.BeginCounter | dtmc_zephyr_library/src/dtinterval_zephyr_counter.c:168-213 | set-up of the counter variant with all its failures; a token left from before stays |
| IntervalDriver.Interval.AlarmHandler | dtmc_zephyr_library/src/dtinterval_zephyr_counter.c:62-77 | next absolute target and one token |
| IntervalDriver.Interval.Pause | dtmc_zephyr_library/src/dtinterval_zephyr_counter.c:237-248 | flag raised, timer stopped, one token given |
| IntervalDriver.Interval.Dispatch | dtmc_zephyr_library/src/dtinterval_zephyr_ktimer.c:148-165 | begun with its timer running, the loop calls back once for each ordinary round, and the first odd one decides, told by the rounds alone: k rounds before a callback that asks for a pause give exactly k + 1 callbacks and an ended loop, while a pause call during a callback only stops the timer; the whole is a run of the step machine over a beginning of the script |
| IntervalDriver.Interval.OneRound | dtmc_zephyr_library/src/dtinterval_zephyr_counter.c:217-226 | one turn: waits without a token, ends if paused while waiting, otherwise calls back once and keeps what the callback answered |
| IntervalRuns.RunInv | dtmc_zephyr_library/src/dtinterval_zephyr_ktimer.c:138-180 | tokens, gives and callbacks stay in balance over every run |
| IntervalRuns.CallbacksArePaidFor | dtmc_zephyr_library/src/dtinterval_zephyr_ktimer.c:148-160 | callbacks of one start are at most its semaphore gives plus one leftover token |
| IntervalRuns.PauseOutsideCallback | dtmc_zephyr_library/src/dtinterval_zephyr_counter.c:217-226 | a pause flag raised outside a callback stays and admits no further callback |
| IntervalRuns.PauseUnblocks | dtmc_zephyr_library/src/dtinterval_zephyr_counter.c:237-248 | the token of a pause outside a callback unblocks the loop; every further step keeps it so, further pauses included, and the loop's own steps lower its rank |
| IntervalRuns.PauseEndsLoop | dtmc_zephyr_library/src/dtinterval_zephyr_counter.c:215-248 | from then on two steps of the loop end it without a callback, whatever runs in between |
| IntervalRuns.PauseInsideCallbackIsLost | dtmc_zephyr_library/src/dtinterval_zephyr_counter.c:223-225 | a pause inside a callback is overwritten and its own token pays for one more callback |
| IntervalRuns.LostPauseBlocks | dtmc_zephyr_library/src/dtinterval_zephyr_ktimer.c:152-158 | the loop then waits for ever unless paused again |
| IntervalRuns.LostPauseIsReachable | dtmc_zephyr_library/src/dtinterval_zephyr_counter.c:217-226 | a run from the beginning in which a whole pause is lost and the loop waits through every continuation without a further pause |
| IntervalRuns.OverwrittenPauseCallsBack | dtmc_zephyr_library/src/dtinterval_zephyr_counter.c:223-246 | a pause whose flag is overwritten before it completes outside the callback admits one more callback as well |
| IntervalRuns.PauseHonouredIff | dtmc_zephyr_library/src/dtinterval_zephyr_counter.c:215-248 | once pause raises its flag a further callback is possible exactly when the flag is raised inside a callback |
| IntervalRuns.AnswerDecides | dtmc_zephyr_library/src/dtinterval_zephyr_counter.c:217-226 | without a pause from outside, a further callback is possible exactly when the last one asked for no pause and a token is there or the timer still runs |
| IntervalRuns.AnswerEnds | dtmc_zephyr_library/src/dtinterval_zephyr_ktimer.c:148-164 | a failing callback ends the loop at once, one that asks for a pause with the loop's next step; only a kernel timer that did not fail runs on |
| HexSpec.FirstIllegal | dtmc_zephyr_library/src/dtnetportal_coap__helpers.c:62-71 | where the parser meets its first illegal character |
| HexParser.ParseHex | dtmc_zephyr_library/src/dtnetportal_coap__helpers.c:52-87 | result, reported length and the whole output array, also after a rejection: paired digits as far as there is room, the rest untouched; which of the two errors wins |
| HexTheorems.SpellsIff | dtmc_zephyr_library/src/dtnetportal_coap__helpers.c:40-71 | the digits of a text are those of which it is a printing |
| HexTheorems.ParsesIffPrinted | dtmc_zephyr_library/src/dtnetportal_coap__helpers.c:52-87 | parsing gives a byte string exactly when the text is a printing of it in any case with skipped characters anywhere, and it fits |
| HexTheorems.SucceedsIff | dtmc_zephyr_library/src/dtnetportal_coap__helpers.c:52-87 | success exactly when all characters are digits or skipped, the digits are even in number and half of them fits |
| HexTheorems.NoSpaceIff | dtmc_zephyr_library/src/dtnetportal_coap__helpers.c:74-78 | the parser runs out of room exactly when a beginning of the text without illegal characters holds the digits of one byte more than fits |
| HexTheorems.DigitValues | dtmc_zephyr_library/src/dtnetportal_coap__helpers.c:40-49 | which characters are digits, in both cases, and their values |
| HexTheorems.SkippedAre | dtmc_zephyr_library/src/dtnetportal_coap__helpers.c:62-65 | which characters are skipped |
| HexTheorems.MarkedIff | dtmc_zephyr_library/src/dtnetportal_coap__helpers.c:62-69 | a dump whose pieces carry "0x" is accepted exactly when the marks are even in number and leave room for the extra bytes |
| HexTheorems.LeadingMarkRejected | dtmc_zephyr_library/src/dtnetportal_coap__helpers.c:55-69 | a leading "0x" makes every accepted text invalid |
| PinWords.Ctz | dtmc_zephyr_library/src/dtgpiopin_zephyr.c:478 | the position of a set bit with none below it |
| PinWords.DropLowest | dtmc_zephyr_library/src/dtgpiopin_zephyr.c:476-479 | the loop's word trick removes exactly the lowest pin, the one that ctz names |
| PinWords.BitsOr | dtmc_zephyr_library/src/dtgpiopin_zephyr.c:269 | setting a mask bit adds the pin and no other |
| PinWords.BitsAndNot | dtmc_zephyr_library/src/dtgpiopin_zephyr.c:273 | clearing a mask bit removes the pin and no other |
| GpioDriver.Gpio.constructor | dtmc_zephyr_library/src/dtgpiopin_zephyr.c:156-174 | unbound ports and unconfigured objects |
| GpioDriver.Gpio.Configure | dtmc_zephyr_library/src/dtgpiopin_zephyr.c:178-198 | pin numbers from 64 on are refused |
| GpioDriver.Gpio.Attach | dtmc_zephyr_library/src/dtgpiopin_zephyr.c:203-240 | binds the port on first use, takes the pin over, and succeeds exactly when bound before or ready, and the pin could be configured; a failure leaves owner and object as they were |
| GpioDriver.Gpio.Enable | dtmc_zephyr_library/src/dtgpiopin_zephyr.c:244-279 | edge interrupt, mask word and flag, of that pin only; the first enable leaves its own bit alone in the mask |
| GpioDriver.Gpio.Dispose | dtmc_zephyr_library/src/dtgpiopin_zephyr.c:434-462 | the edge interrupt goes off in any case, owner and mask only if it owns the pin, the object is blank |
| GpioDriver.Gpio.PortIsr | dtmc_zephyr_library/src/dtgpiopin_zephyr.c:466-496 | finds the port and makes exactly the specified calls |
| GpioDriver.Gpio.Service | dtmc_zephyr_library/src/dtgpiopin_zephyr.c:476-493 | the bit loop ends and makes the specified calls in ascending pin order |
| GpioRuns.OtherPins | dtmc_zephyr_library/src/dtgpiopin_zephyr.c:203-279 | an operation leaves owner, mask, edge interrupt and enabling of all other pins alone |
| GpioRuns.StepInv | dtmc_zephyr_library/src/dtgpiopin_zephyr.c:178-279 | every polite operation keeps the invariant |
| GpioRuns.MaskIsTrue | dtmc_zephyr_library/src/dtgpiopin_zephyr.c:203-279 | over every polite run a mask bit is set exactly when the pin's owner is interrupt-enabled, and the hardware raises its edges |
| GpioRuns.EnableKeepsMaskIff | dtmc_zephyr_library/src/dtgpiopin_zephyr.c:244-279 | the exact condition under which enabling or disabling keeps the mask true |
| GpioRuns.AttachKeepsIff | dtmc_zephyr_library/src/dtgpiopin_zephyr.c:226-236 | a successful attach keeps the invariant exactly when it is not over another object's enabled pin |
| GpioRuns.DisposeKeepsEdgesIff | dtmc_zephyr_library/src/dtgpiopin_zephyr.c:443-452 | disposing leaves the pins in use alive exactly when the object owns its pin or the pin is not in use |
| GpioRuns.SecondDisposeHitsPinZero | dtmc_zephyr_library/src/dtgpiopin_zephyr.c:443-461 | a second dispose cuts off pin 0 exactly when that pin is in use |
| GpioRuns.PinZeroIsCutOff | dtmc_zephyr_library/src/dtgpiopin_zephyr.c:434-462 | a polite run of two objects behind which one more dispose of the one cuts off the other |
| GpioRuns.SecondAttachPasses | dtmc_zephyr_library/src/dtgpiopin_zephyr.c:216-221 | after an attach that failed on a device that is not ready, the next one passes |
| GpioRuns.CallsExactly | dtmc_zephyr_library/src/dtgpiopin_zephyr.c:476-493 | calls in strictly ascending pin order, exactly one for each set bit whose owner is enabled, has a callback and can be read, rising exactly for a positive level |
| GpioRuns.NoInterruptSwallowed | dtmc_zephyr_library/src/dtgpiopin_zephyr.c:466-496 | on every polite run an interrupt for masked pins reaches the owner of each of them |

## Left out

- Memory orders: atomic operations are taken as sequentially consistent, one step each.
- Liveness under a scheduler or real time: "never stuck" is stated as an own step that is always possible.
- UartRuns.RxIntegrity: one reading task; the histories restart when `enable` clears the queues; `configure` and `attach` happen before the run.
- UartRuns.TxConservation: one writing task at a time, as for the reader.
- ModbusDriver.ModbusSlave.constructor: the staging buffer exists from the start; calls before configure and attach, which the source refuses, are left out.
- ModbusRuns.SnapshotAnswer: the master's own byte assembly is `Assemble`; a master that polls between its reads is outside, as it then asks for another message.
- ModbusRuns.ConsumptionCount: the count of written data registers is unbounded; its 32-bit overflow after two thousand million writes to one command is not modelled.
- CanDriver.CanBus.Enable: in the runs, clearing queue, latch and counters is one step after the gate is opened; an interrupt between the single stores is not modelled.
- CanRuns.ReceiverGetsBus: the bus is the assumption that the receiver gets the queued frames once and in order; identifiers are left out, and with extended identifiers the standard-frame filter of attach would pass nothing.
- CanDriver.CanBus.SendFrame: blocking times of `can_send` are left out; what each attempt meets is a parameter.
- TaskerRuns.AtMostOneEntry: one controller; `dispose` and the reuse of the stack area are left out, and a failing priority conversion counts as a failed allocation.
- TaskerDriver.Tasker.Launch: the blocking parts of start and join are in the step machine only, since a method cannot wait; the object's methods show the parts between.
- AdcRuns.ExitWithinFive: a new activation follows only once the earlier reader is gone, although the bounded wait of deactivate can give up after fifty rounds of 10 ms; setting up and starting the reader is one step.
- AdcRuns.TickAccounting: sequence numbers are unbounded; an activation while the earlier reader is still alive is excluded, because deactivate has by then freed that reader's stack and thread object and nothing is defined about what it does.
- AdcClock.TicksExact: ticks count from the counter's zero at the start of an activation.
- AlarmSchedule.DriftBound: the product of frequency and interval is below 2^64, which the 32-bit types of both ensure.
- Lock balance of the ADC's deactivate is not claimed: its wait loop can leave while holding the lock, which is then acquired again and released once.
- AdcDriver.Scanner.ReaderTask: the outside world is a script of alarms and whole stop signals; their single steps are interleaved in `AdcRuns`.
- IntervalDriver.Interval.Dispatch: a callback is set; without one `start` returns at once. The outside world is a script of timer ticks and whole pause calls; single steps of a pause are interleaved in `IntervalRuns`.
- GpioDriver.Gpio.Dispose: objects are numbered and stay addressable; freeing a heap-allocated object is left out, so the model does not capture a dangling owner.
- GpioDriver.Gpio.PortIsr: callbacks do not change the port table while the loop runs; levels are read as given at the call.
- GpioRuns.MaskIsTrue: pin mode, pull and drive flags, `read` and `write` of a pin are left out.
- HexParser.ParseHex: characters are those before the terminating zero.
- Statistics counters that gate nothing, text formatting, equality, class names, vtables, device binding, UART, CAN and Modbus device configuration, allocation of the objects themselves and error-object chains: plumbing, an error is a small datatype.
- Semaphore, lock and buffer-queue wrappers, priority table, configuration validation, busy waiting: easy by themselves.
- Bluetooth portal, CoAP and OpenThread start-up, address listing, light sensor, runtime tables, shell command, applications and build files: they drive stacks that are not shown.
