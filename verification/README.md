# A verified model of the I3C core

This project models the parts of an I3C target core in which behaviour runs over many clocks or many
actors, and proves what they promise over whole runs: the bit engine on the bus, the recovery image
transfer, the recovery packets with their error code, the temporal sequence matcher, the byte and field
encodings, the bus timers, the interrupt cell and the scoreboard of the ID filter.

Clocked modules and stateful objects are classes whose methods change their fields as the always-blocks
and statements of the source do; each method is proved equal to a step function on values, and the
theorems are about arbitrary runs of those functions (`IsRun(...)`: the state after `n` clocks, for all `n`).
A line or an input is a function of the clock cycle.

| file | content |
|---|---|
| `Wave.dfy`, `Bits.dfy`, `Bitwise.dfy` | sampled lines and clocks, groups of eight bits, bitwise operators on unbounded integers |
| `BusTx.dfy`, `BusTxSafety.dfy` | the bit transmitter, its exact windows, when it may be driven |
| `BusTxFlow.dfy`, `BusSender.dfy` | the transfer sequencer and whole transfers on SDA |
| `BusRxFlow.dfy`, `BusReceiver.dfy` | the receiver, and whole transfers of bytes and single bits on its side |
| `Detectors.dfy`, `BusMonitor.dfy`, `BusEvents.dfy`, `BusDelays.dfy` | edge and level detectors, the bus monitor, START / repeated START / STOP, and what it reports with delays of any size |
| `BusLink.dfy` | sender, monitor and receiver together: the round trip |
| `RecoveryTransfer.dfy`, `RecoveryRuns.dfy`, `RecoveryAgents.dfy` | the two-agent image transfer: steps and invariant, whole runs, the objects |
| `Pec.dfy`, `RecoveryFrame.dfy` | CRC-8, the packets in software |
| `RecoveryReceiver.dfy`, `RecoverySessions.dfy`, `RecoveryResponse.dfy` | how the hardware takes a command packet, whole sessions from reset on, and how it sends a response |
| `SequenceMatch.dfy`, `SequenceCombinators.dfy`, `SequenceIterators.dfy` | the matcher, `\|` and `&`, their iterators as objects |
| `SequenceNested.dfy` | sums, alternatives and conjunctions of each other |
| `Packing.dfy`, `CsrField.dfy` | byte lists and words, registers and fields |
| `BusTimers.dfy`, `Interrupts.dfy`, `IdFilter.dfy` | bus timers, interrupt cell, ID filter scoreboard |

## What was found

Some promises of the source hold only under a condition. Where it is given as an equivalence ("exactly"), it can be
checked before the call or from the inputs.

- The recovery executor presents a byte from a word register that is one clock behind its selector, and marks the
  last byte one clock late. What that does depends on who reads the response:
  - The core's own reader takes a byte when the target state machine enters the state in which it is sent on the bus
    (`i3c_target_fsm.sv:335`), so never in adjacent clocks. It gets the right packet
    (`RecoveryResponse.TargetGetsPacket`), as does every reader that takes no bytes in adjacent clocks
    (`RecoveryResponse.ApartGetsPacket`). In the core bytes are taken in adjacent clocks only while an aborted read is
    flushed, when nobody receives them.
  - A reader that may take bytes in adjacent clocks gets the right packet exactly when it does not take the last byte,
    or a byte that opens a word with a different first byte, in the clock after the byte before it
    (`RecoveryResponse.PacketSentIff`). Otherwise the first byte of the word before comes again
    (`RecoveryResponse.SendsStaleByte`) with a PEC that matches it (`RecoveryResponse.PecMatchesSent`), or the PEC
    never comes (`RecoveryResponse.CompletedIff`). A reader that takes everything at once meets both
    (`RecoveryResponse.GreedyOpensTooSoon`, `RecoveryResponse.GreedyNeverDone`).
- The recovery receiver passes a write on as a command exactly when it has data, and the first data byte does not come in
  the clock after the header (`RecoveryReceiver.CommandComesIff`; on the bus bytes are many clocks apart). After a write
  without data, and after one that is stopped before the last of its data, the bytes of all later packets go into the
  queue and no command is passed on any more, until another device is addressed (`RecoveryReceiver.DeafIff`,
  `RecoveryReceiver.DeafForGood`).
- Two commands in a row both arrive, even if the second START falls while the first command is still executed
  (`RecoverySessions.TwoWrites`, `RecoverySessions.BothArrive`). But bytes that come while a read is executed are
  acknowledged and kept nowhere, because the receiver has not withdrawn its readiness
  (`RecoverySessions.BusyAfterReadSwallows`); behind a write they wait (`RecoverySessions.BytesWait`).
- The library's `RecoveryInterface` leaves the address byte out of the PEC, the hardware includes it in both directions:
  the target accepts a command of the library exactly when that byte is zero, and one with a forced error exactly when the
  random byte is the PEC with the address byte in it (`RecoverySessions.TargetAcceptsIff`); the library finds a
  response right exactly when the byte is zero (`RecoveryFrame.AddressInPec`).
- The bit transmitter reports done once exactly when the hold time is zero or SCL is stable low when it ends
  (`BusTx.SinglePulseIff`); otherwise the sequencer takes one more bit off the byte in every further clock
  (`BusTxFlow.LosesBitIff`, `BusTxFlow.LosesBits`).
- `bus_tx_flow` sends a byte requested in Idle exactly when its bit counter is at rest or the byte is zero
  (`BusSender.ByteSentIff`): in the first clock after reset, and after an abort behind the first bit of a byte, it
  says it is idle and sends zeros (`BusTxFlow.AbortedThenRequested`). One idle clock is enough
  (`BusTxFlow.RestsInIdle`).
- With a setup delay of zero, a byte that follows another request starts in time exactly when its first and its last
  bit are equal, because the decision state drives the last one (`BusLink.DecisionDrivesLastBit`).
- Bytes arrive as they were sent exactly when every zero bit has a low phase that is long enough, or, with no setup delay,
  is in a byte that ends in a zero (`BusLink.BytesArriveIff`).
- The receiver answers a list of requests exactly when no rising edge comes in the two clocks in which it passes
  through Idle: at the start, and before a single bit that follows a byte (`BusReceiver.ReceivedIff`).
- Rising and falling SDA edges exclude each other exactly when both delays are zero or neither is
  (`BusEvents.EdgesExclusive`).
- The edge detector keeps its header's promise exactly when the line never leaves its level in the very clock in
  which its stability is due to be reported (`Detectors.DetectsAsPromised`); the stable-high detector reports the
  last delay plus two high samples, and nothing at the largest delay (`Detectors.StableExactly`). In the monitor that
  holds of each line, edge and level with its own delay (`BusDelays.SclEdgesExact`, `BusDelays.LevelsExact`).
- A bit requested of the receiver while it reads a byte is registered in the clock in which the byte is dropped, so its
  edges count one clock sooner than otherwise (`BusRxFlow.BitsAfterDrop`).
- The agents of the recovery transfer, run for images of any size, deliver an image exactly when it is not one of 4
  to 63 bytes, or has at least two words and ends in a zero word: the end of the slice is compared with the size in
  bytes (`RecoveryRuns.DeliversExactly`). The test itself draws sizes of 600 to 2048 bytes (`test_bypass.py:570`),
  for which the transfer is always right; this concerns the agents' code for other sizes.
- The reset of the indirect FIFO empties it but leaves the counter of the transfer under way. So if a transfer was
  broken off within a chunk, the first full chunk of the next one is flagged as available too soon
  (`RecoveryTransfer.FlaggedTooSoonIff`).
- Two wrong bits in a packet are missed exactly when they are a multiple of 127 bits apart
  (`Pec.DetectsDoubleErrors`, `RecoveryFrame.RejectsTwoBits`).
- `int2bytes` lets the value 256^width through and encodes it as zeros; of the accepted values it is the only one
  that is lost (`CsrField.RoundTrip`, `CsrField.KeptIff`).
- `|` is over exactly when one operand is, and `&` runs as the list of its conjunctions, if and only if there is no
  empty operand, or no empty list of pairs (`SequenceCombinators.OrEndsWithFirstIff`,
  `SequenceCombinators.AndRunsAsListIff`); otherwise a match is counted in one cycle whatever the other operand says.
- In `a & b`, an alternative in `a` is moved on by every call that passes, even if `b` then misses, so the two need not
  hold in one cycle, and `&` does not commute (`SequenceNested.OrderMatters`). A first operand of lists and sums waits
  for the second (`SequenceNested.PlainWaits`), and `repeat(p) & b`, the form the tests use, is `b` in the cycles in
  which `p` holds (`SequenceNested.RepeatOverIff`).
- A retry starts over exactly in a sequence without a sum or a conjunction that has something left
  (`SequenceCombinators.RetryStartsOverIff`); otherwise it skips the predicate or the pair that asked for it
  (`SequenceCombinators.RetrySkips`, `SequenceCombinators.RetrySkipsPair`).
- A bus time of zero is taken as 2^20 (`BusTimers.ElapsedExactly`), so the flags are ordered exactly when the
  shortest time is not zero, or all are (`BusTimers.OrderedIff`).
- `verify_data` judges all reads exactly when it is given a read ID for each (`IdFilter.JudgesAllIff`).

## Model

| member | source | states |
|---|---|---|
| BusTx.Transmitter.Clock | src/ctrl/bus_tx.sv:47-104 | one clock of all registers and outputs is one step of the run that the theorems are about |
| BusTx.SetupCounterRuns | src/ctrl/bus_tx.sv:64-104 | for any inputs, timings that change in mid-run included, SetupData is never occupied with a counter of 0 |
| BusTx.SetupIsLeft | src/ctrl/bus_tx.sv:132-136 | for any inputs, SetupData is left within the count it was loaded with |
| BusTx.HoldCountdown | src/ctrl/bus_tx.sv:145-151 | while driven, the hold counter loses one per clock, so it reaches 0 within its loaded count |
| BusTx.HeldForItsTime | src/ctrl/bus_tx.sv:138-151 | however the timing changes meanwhile, a bit is on SDA for exactly the hold time that was set at its falling edge, one clock at least, and done is reported in the clock after that and not before |
| BusTx.ReleasedWhenNotDriven | src/ctrl/bus_tx.sv:161-198 | in the clock after one in which it is not driven the transmitter is idle and reports nothing, whatever it was doing, and SDA is 1 if it is still not driven |
| BusTx.BitStates | src/ctrl/bus_tx.sv:106-199 | all registers in every cycle of a bit, from its first falling edge to its completion |
| BusTx.BitWindow | src/ctrl/bus_tx.sv:109-159 | SDA is released until rise plus setup time has passed, carries the bit from exactly then until exactly the hold time after the next falling edge, and done is first reported in exactly the cycle that follows from the timing |
| BusTx.BitWindowAnywhere | src/ctrl/bus_tx.sv:109-199 | the same window for a bit that begins in any clock of any run, because runs compose |
| BusTx.BitWindowOnLevel | src/ctrl/bus_tx.sv:109-131 | a bit that finds SCL low, its edge missed, has the same window, but for SDA being released in the first clock |
| BusTx.SinglePulseIff | src/ctrl/bus_tx.sv:145-151 | done is reported in that one cycle only if and only if the hold time is zero or SCL is stable low when it ends |
| BusTx.DoneLasts | src/ctrl/bus_tx.sv:186-189 | otherwise done stays up in every clock until SCL is stable low |
| BusTx.SetupDelayFits | src/ctrl/bus_tx.sv:40-53 | the setup delay is the sum of the two times if and only if the sum fits 20 bits; otherwise it is short by 2^20 |
| BusTxSafety.NeverMovesWhileHigh | src/ctrl/bus_tx.sv:109-199 | over any run with any timings, a transmitter that is started early enough in a low phase and dropped only in one never moves SDA while SCL is high |
| BusTxSafety.LateBitIsSeen | src/ctrl/bus_tx.sv:132-136 | the deadline is exact: a zero bit moves SDA while SCL is high if and only if SCL is high in the last cycle of its setup delay and the next one |
| BusTxFlow.Flow.Clock | src/ctrl/bus_tx_flow.sv:108-214 | one clock of the sequencer with the transmitter inside it is one step of the run |
| BusTxFlow.AcceptsRequestedByte | src/ctrl/bus_tx_flow.sv:94-106 | what is loaded when a byte is requested while idle: the byte if and only if the counter is at rest or the byte is zero |
| BusTxFlow.AbortedThenRequested | src/ctrl/bus_tx_flow.sv:79-106 | after an abort behind the first bit of a byte the sequencer is idle with its counter not at rest, and loads zeros for the next byte |
| BusTxFlow.AfterWithdrawal | src/ctrl/bus_tx_flow.sv:159-190 | in the clock after one without a request sequencer and transmitter are idle, done is not reported and the line is released; a clock later the bit counter is at rest |
| BusTxFlow.AfterError | src/ctrl/bus_tx_flow.sv:73-190 | a byte and a bit requested at once are an error: the sequencer is idle in the next clock, and its idle output follows when the transmitter is |
| BusTxFlow.LosesBitIff | src/ctrl/bus_tx_flow.sv:79-106 | when the hold time of a bit ends, the next bit follows if and only if SCL is stable low; otherwise it is taken off undriven |
| BusTxFlow.LosesBits | src/ctrl/bus_tx_flow.sv:79-106 | one bit of the byte is lost for each further clock in which SCL is not stable low |
| BusSender.SlotAtSucc | src/ctrl/bus_tx_flow.sv:9-19 | the order in which the bits of a list of byte and bit requests are sent |
| BusSender.SendsSlots | src/ctrl/bus_tx_flow.sv:79-214 | for any list of requests, timing and clock with long enough low phases: the state of all registers in every cycle of every bit |
| BusSender.SlotWindow | verification/cocotb/block/bus_tx/test_bus_tx.py:122-128 | the k-th bit is on SDA from the end of its setup time to the end of its hold time, most significant bit of each byte first |
| BusSender.SlotReads | src/ctrl/bus_tx.sv:132-136 | with low phases in which every bit starts, what SDA carries in every clock from then on: before the bit, the released line, or the last bit of the byte that follows another request |
| BusSender.EndsReleased | src/ctrl/bus_tx_flow.sv:186-190 | after the last bit nothing is requested and the line is released for good |
| BusSender.NeverMovesWhileHigh | src/ctrl/bus_tx_flow.sv:125-157 | over the whole run of any list of requests SDA never moves while SCL is high |
| BusSender.ByteSentIff | src/ctrl/bus_tx_flow.sv:9-19 | on SDA over a whole run: the first byte is carried in the windows of its bits if and only if the bit counter was at rest or the byte is zero |
| BusSender.OneRun | src/ctrl/bus_tx_flow.sv:79-214 | every list of requests, timing and clock has such a run |
| BusRxFlow.Receiver.Clock | src/ctrl/bus_rx_flow.sv:31-102 | one clock of the receiver is one step of the run, the four-bit counter wrapping to 15 |
| BusRxFlow.ReportsGroups | src/ctrl/bus_rx_flow.sv:104-165 | from any idle start, in held byte mode with separated rising edges the bytes on the outputs are exactly the complete groups of eight of the values one clock after each edge: none lost or doubled at the handover |
| BusRxFlow.ReportsByteAt | src/ctrl/bus_rx_flow.sv:39-102 | the k-th byte is reported once eight more bits were offered, and is those eight bits |
| BusRxFlow.ReportsBits | src/ctrl/bus_rx_flow.sv:31-64 | from any idle start, in held bit mode the value at each rising edge from clock 2 on is reported, once and in order: the value at the edge itself, where byte mode takes it one clock later |
| BusRxFlow.DroppedIsIdle | src/ctrl/bus_rx_flow.sv:132-165 | in the clock after the request was withdrawn, in whatever state, the receiver is idle and reports nothing; a clock later counter and data are those of a fresh start |
| BusRxFlow.SilentWithoutRequest | src/ctrl/bus_rx_flow.sv:161-164 | it stays idle and reports nothing as long as nothing is requested |
| BusRxFlow.BytesAfterDrop | src/ctrl/bus_rx_flow.sv:39-165 | after a withdrawal in mid-byte, the bytes reported for the next byte request are exactly the groups of eight bits offered since then |
| BusRxFlow.BitsAfterDrop | src/ctrl/bus_rx_flow.sv:31-165 | and for a bit request, exactly the values at the edges from the clock on that is given |
| BusRxFlow.ByteDataIff | src/ctrl/bus_rx_flow.sv:78-86 | what the data output shows while a byte is read, in terms of the request of the clock before |
| BusRxFlow.AtIsRun | src/ctrl/bus_rx_flow.sv:31-102 | every start and input has such a run |
| BusReceiver.RxSlots | src/ctrl/bus_rx_flow.sv:31-165 | for any list of byte and single-bit requests, from any idle start: the state of the receiver and what it has reported in every clock of every bit |
| BusReceiver.DeafClocks | src/ctrl/bus_rx_flow.sv:132-165 | a single bit asked for after a byte, or at the start, leads through Idle: two clocks in which edges make no difference |
| BusReceiver.EarlyEdgeLost | src/ctrl/bus_rx_flow.sv:132-165 | an edge in these clocks is lost, and only the bits before it were taken |
| BusReceiver.StaysBehind | src/ctrl/bus_rx_flow.sv:31-165 | from then on the receiver has always taken fewer bits than there were edges, whatever follows |
| BusReceiver.ReceivedIff | src/ctrl/bus_rx_flow.sv:31-165 | bytes and single bits requested in any order are all answered, in order and with the bits of the bus, by two clocks after the last edge if and only if no edge came in a deaf clock |
| BusReceiver.StaysAnswered | src/ctrl/bus_rx_flow.sv:132-165 | after the last answer nothing more is reported |
| BusReceiver.OneRxRun | src/ctrl/bus_rx_flow.sv:31-102 | every list of requests and pair of lines has such a run |
| Detectors.PromiseIsReported | src/ctrl/edge_detector.sv:6-11 | a line that stays stable for the delay after its edge is always reported |
| Detectors.DetectsAsPromised | src/ctrl/edge_detector.sv:6-11 | a run reports exactly the stable edges if and only if the line never leaves its level in the clock in which its stability is due to be reported: a condition on the line alone |
| Detectors.DisturbedRun | src/ctrl/edge_detector.sv:40-51 | a run in which it does: the line drops just when its rise is due to be reported, and the report stays up |
| Detectors.DisturbedLasts | src/ctrl/edge_detector.sv:36-51 | how long such a report stays up if the line stays at its level from then on: the delay and two clocks, and then not again |
| Detectors.FallsWithLine | src/ctrl/edge_detector.sv:36-51 | a report outlasts the level only if the line is back in the very next clock |
| Detectors.StableExactly | src/ctrl/stable_high_detector.sv:3-6 | the line is reported stable if and only if its last delay plus two samples were high, and never for the largest delay |
| BusMonitor.Monitor.Clock | src/ctrl/bus_monitor.sv:49-229 | one clock of the monitor, with its seven detector objects inside it, is one step of the run |
| BusEvents.PendingIsDelayedTrigger | src/ctrl/bus_monitor.sv:170-210 | for every run each pending flag, set by its trigger and kept until its clearing condition, is exactly a one-clock delay of the trigger, and START and STOP are not reported together when SDA edges exclude each other |
| BusEvents.EdgesExclusive | src/ctrl/bus_monitor.sv:95-113 | no run reports a rising and a falling SDA edge together if and only if both delays are zero or neither is |
| BusEvents.LateFallOverlaps | src/ctrl/bus_monitor.sv:95-113 | with a rise delay only: a line on which both edges are reported in one clock |
| BusEvents.LateRiseOverlaps | src/ctrl/bus_monitor.sv:95-113 | with a fall delay only: the same |
| BusEvents.RstartEnIsFrameOpen | src/ctrl/bus_monitor.sv:191-202 | the flag is set if and only if a start was detected with no stop since |
| BusEvents.EventGrammar | src/ctrl/bus_monitor.sv:225-227 | over any run: a START only with no frame open, a repeated START only within one, a STOP closes it |
| BusEvents.ZeroDelayWires | src/ctrl/bus_monitor.sv:63-168 | with the delays at zero the monitor's edges and levels are those of the sampled lines, and a falling SDA value shows one clock late |
| BusEvents.DetectsConditions | src/ctrl/bus_monitor.sv:204-210 | with zero delays detection is the condition on the bus: SDA moves between two samples at which SCL is high |
| BusEvents.SilentIffStill | src/ctrl/bus_monitor.sv:204-227 | an enabled monitor stays silent for ever if and only if SDA never moves while SCL is high |
| BusDelays.SclEdgesExact | src/ctrl/bus_monitor.sv:74-93 | for constant delays of any size: a stable edge of the sampled SCL is always reported, in the clock that follows from its own delay, and no other edge is, in any clock, if and only if the line never leaves its level in the clock in which the report is due |
| BusDelays.SdaEdgesExact | src/ctrl/bus_monitor.sv:95-113 | the same for both edges of SDA, each with its own delay |
| BusDelays.LevelsExact | src/ctrl/bus_monitor.sv:114-150 | the level outputs hold if and only if the last delay plus two samples were at the level, with the rise time for high and the fall time for low; without a delay, the last one |
| BusDelays.ValuesFollow | src/ctrl/bus_monitor.sv:151-168 | for any delays, the value given for a line is what the last reported edge left it at, rising before falling |
| BusDelays.DetectsDelayed | src/ctrl/bus_monitor.sv:204-210 | with any delays and lines that do not leave their level when a report is due: START and STOP are detected if and only if the stable edge of SDA is due while SCL has been high for its delay and no edge of SCL is due |
| BusLink.BytesArrive | src/ctrl/bus_rx_flow.sv:39-165 | the round trip: bytes sent through sequencer and transmitter, delayed by any number of clocks and seen through the monitor, are reported by the receiver equal and in order, for every clock with long enough low phases |
| BusLink.BytesArriveIff | src/ctrl/bus_rx_flow.sv:39-165 | for low phases of any length in which every bit starts: which bits are read, and that the bytes reported are those sent if and only if every bit has a long enough low phase, or is a one, or, with no setup delay, is in a byte that ends in a zero |
| BusLink.ItemsArriveIff | src/ctrl/bus_rx_flow.sv:31-165 | the round trip of any mix of bytes and single bits: every request is answered with what was sent if and only if no edge comes while the receiver is deaf |
| BusLink.SendingIsSilent | src/ctrl/bus_monitor.sv:204-227 | whatever bytes and bits are sent, a monitor on the same bus never reports START, repeated START or STOP |
| BusLink.ShortLowReadsOne | src/ctrl/bus_tx.sv:132-136 | the bound on the low phase is exact: a bit sampled earlier is read as sent if and only if it is a one |
| BusLink.DecisionDrivesLastBit | src/ctrl/bus_tx_flow.sv:151-154 | with no setup delay the decision state drives the least significant bit of the next byte for one clock, so the byte starts in time if and only if its first and last bit are equal |
| RecoveryTransfer.ChunkOfFeed | verification/cocotb/top/lib_i3c_top/test_bypass.py:633-639 | the chunks are consecutive and cover the image, but for the last word of an image of 4 to 63 bytes |
| RecoveryTransfer.StepKeepsInv | verification/cocotb/top/lib_i3c_top/test_bypass.py:584-772 | every step of either agent keeps the invariant: conservation of words, agreement of both program counters with FIFO, flags and counters, and the handshake |
| RecoveryTransfer.RulesHold | src/recovery/recovery_handler.sv:1025-1042 | whatever accesses are made to the FIFO and its control registers, in whatever order: only one side has access, the flag is up while the payload is done or an image is activated and falls with the last word otherwise, nothing moves between accesses, and what was read followed by what is held is what was accepted |
| RecoveryTransfer.FlaggedTooSoonIff | src/recovery/recovery_executor.sv:287-293 | the reset of a FIFO that was used before empties it and takes the flag away, but a full chunk is then flagged before its last word if and only if a transfer was broken off within a chunk |
| RecoveryAgents.RecoveryDevice.SettleFlags | src/recovery/recovery_executor.sv:881-894 | the payload flag, the done bit, the transfer counter and the access permissions follow the FIFO |
| RecoveryAgents.McuTask.Step | verification/cocotb/top/lib_i3c_top/test_bypass.py:584-687 | one access of the producer on the objects, the zero writes of the FIFO control registers included, is one step of the model |
| RecoveryAgents.RotTask.Step | verification/cocotb/top/lib_i3c_top/test_bypass.py:690-772 | one access of the consumer on the objects, capabilities and reason code included, is one step of the model |
| RecoveryAgents.RunFor | verification/cocotb/top/lib_i3c_top/test_bypass.py:775-784 | device and agents as objects, stepped in any order, go through the states of the run, and what was received is always a prefix of an image that is not cut short |
| RecoveryRuns.TransferIsSafe | verification/cocotb/top/lib_i3c_top/test_bypass.py:587-772 | in every state of every interleaving: received plus FIFO plus unsent is the image, no write meets a full FIFO, no read an empty one, activation only when all was received, the producer ends only after the consumer reported booting, prepares only after capabilities and reason are set and sends only after the size is |
| RecoveryRuns.RulesHoldInRun | src/recovery/recovery_handler.sv:1025-1042 | the rules hold in every state of every run, also for images that are cut short |
| RecoveryRuns.ActivatedIsRefused | verification/cocotb/top/lib_i3c_top/test_bypass.py:603-607 | on a device with an activated image the producer never gets beyond its check, and changes nothing |
| RecoveryRuns.NoDeadlock | verification/cocotb/top/lib_i3c_top/test_bypass.py:655-668 | in every state that satisfies the invariant, both agents are blocked if and only if both have finished |
| RecoveryRuns.McuProgress | verification/cocotb/top/lib_i3c_top/test_bypass.py:584-687 | a step of the producer lowers the measure, or is a poll that changes nothing |
| RecoveryRuns.RotProgress | verification/cocotb/top/lib_i3c_top/test_bypass.py:690-772 | a step of the consumer lowers the measure, or is a poll that stays blocked |
| RecoveryRuns.Finishes | verification/cocotb/top/lib_i3c_top/test_bypass.py:780-781 | from every state of every fair run both agents finish, and the state never changes again |
| RecoveryRuns.FinishedBuffer | verification/cocotb/top/lib_i3c_top/test_bypass.py:783-784 | what a finished transfer has delivered, for every image |
| RecoveryRuns.SingleWordFails | verification/cocotb/top/lib_i3c_top/test_bypass.py:27-28 | the only chunk of a single word is empty, and the writer refuses it |
| RecoveryRuns.DeliversExactly | verification/cocotb/top/lib_i3c_top/test_bypass.py:633-639 | every fair run delivers the image if and only if it is not of 4 to 63 bytes, or has at least two words and ends in a zero word |
| RecoveryRuns.AtIsRun | verification/cocotb/top/lib_i3c_top/test_bypass.py:775-778 | every schedule has such a run |
| Pec.EquationsDivide | src/recovery/recovery_pec.sv:24-34 | the parallel XOR equations are eight steps of the division by x^8 + x^2 + x + 1 |
| Pec.RecoveryPec.Clock | src/recovery/recovery_pec.sv:36-46 | the register takes the checksum of one more byte, from zero when initialised, and is cleared by a soft reset |
| Pec.CrcLinear | verification/cocotb/top/lib_i3c_top/recovery_interface.py:25-32 | the checksum of a sum of two byte lists is the sum of their checksums |
| Pec.MissedIffZero | verification/cocotb/top/lib_i3c_top/recovery_interface.py:99-102 | an error in a packet and its PEC is missed if and only if its own checksum is zero, whatever was sent |
| Pec.DetectsWrongByte | verification/cocotb/top/lib_i3c_top/recovery_interface.py:25-32 | an error confined to one byte is detected, at any length |
| Pec.DetectsBursts | verification/cocotb/top/lib_i3c_top/recovery_interface.py:25-32 | a burst of up to eight bits is detected, across byte boundaries and at any length |
| Pec.DetectsOddErrors | verification/cocotb/top/lib_i3c_top/recovery_interface.py:25-32 | the checksum has the parity of the data, so an odd number of wrong bits is detected |
| Pec.Order | verification/cocotb/top/lib_i3c_top/recovery_interface.py:25-32 | the polynomial has order 127: a bit comes back after exactly the multiples of 127 divisions |
| Pec.DetectsDoubleErrors | verification/cocotb/top/lib_i3c_top/recovery_interface.py:25-32 | two wrong bits anywhere in data of any length are missed if and only if their distance is a multiple of 127 bits |
| RecoveryFrame.CommandPacket | verification/cocotb/top/lib_i3c_top/recovery_interface.py:104-155 | a command packet carries the command, for a write the length and the data, and its PEC, or the random byte in its place when an error is forced |
| RecoveryFrame.Checksum | verification/cocotb/top/lib_i3c_top/recovery_interface.py:54-56 | the calculator's result over a byte list is the remainder of the division |
| RecoveryFrame.LengthField | verification/cocotb/top/lib_i3c_top/recovery_interface.py:112-117 | the two length bytes give back the length modulo 65536 |
| RecoveryFrame.ReadLength | verification/cocotb/top/lib_i3c_top/recovery_interface.py:69-78 | the length field is mandatory |
| RecoveryFrame.ReadData | verification/cocotb/top/lib_i3c_top/recovery_interface.py:82-89 | data is taken up to the announced length or the first stop |
| RecoveryFrame.ReadResponse | verification/cocotb/top/lib_i3c_top/recovery_interface.py:58-102 | a response is parsed to its data and the validity of its PEC, or raises when it ends early |
| RecoveryFrame.ParsesUntilStop | verification/cocotb/top/lib_i3c_top/recovery_interface.py:58-102 | whatever arrives: an exception if and only if the target stops within the length field or after the byte that is read as PEC; otherwise the data is what came up to the announced length or the first stop |
| RecoveryFrame.RoundTrip | verification/cocotb/top/lib_i3c_top/recovery_interface.py:69-102 | a response is parsed back to its data with a right PEC if and only if its length is below 65536 |
| RecoveryFrame.ParsesWithErrors | verification/cocotb/top/lib_i3c_top/recovery_interface.py:82-102 | with errors in data and PEC as many bytes are parsed, and the PEC is found right if and only if the error's checksum is zero |
| RecoveryFrame.RejectsErrors | verification/cocotb/top/lib_i3c_top/recovery_interface.py:97-102 | any change in one data or PEC byte, any burst of up to eight bits and any odd number of wrong bits fails the check, at any length |
| RecoveryFrame.RejectsTwoBits | verification/cocotb/top/lib_i3c_top/recovery_interface.py:97-102 | two wrong bits fail the check unless their distance is a multiple of 127 bits |
| RecoveryFrame.AddressInPec | verification/cocotb/top/lib_i3c_top/recovery_interface.py:97-99 | a response whose PEC includes the address byte is found right if and only if that byte is zero |
| RecoveryReceiver.CommandReceiver.Clock | src/recovery/recovery_receiver.sv:49-265 | one clock of the receiver, of the multiplexer before it and of its PEC register is one step of the run |
| RecoveryReceiver.DeafIff | src/recovery/recovery_receiver.sv:163-169 | in every run from reset, the bytes are not handed to the receiver any more if and only if a write without data, or one stopped before the last of its data, has come |
| RecoveryReceiver.DeafForGood | src/recovery/recovery_handler.sv:611-632 | it stays so, and no command is passed on, whatever comes |
| RecoveryReceiver.StageHolds | src/recovery/recovery_receiver.sv:80-146 | in every clock of a write whose bytes come at any pace: where the receiver is, what it has captured, counted and put into the queue, and its checksum |
| RecoveryReceiver.CommandArrives | src/recovery/recovery_receiver.sv:198-247 | a command that is passed on is the one of the packet, with all its data in the queue behind what was there, and the two checksums it is judged by are the last byte and that of the address byte and the rest |
| RecoveryReceiver.CommandComesIff | src/recovery/recovery_receiver.sv:110-121 | a write whose bytes are all offered is passed on if and only if it has data and the first of them does not come in the clock after the header |
| RecoveryReceiver.EverySecondClock | src/recovery/recovery_receiver.sv:110-121 | every write with data is passed on when it is sent in every second clock |
| RecoveryReceiver.EveryClock | src/recovery/recovery_receiver.sv:110-121 | and is not when it is sent in every clock |
| RecoverySessions.WakesAtFirst | src/recovery/recovery_receiver.sv:93-95 | in every run from reset, the receiver begins to listen in the clock after the first start or pending transfer, and not before |
| RecoverySessions.BusyListens | src/recovery/recovery_receiver.sv:127-148 | a start that falls while a command is executed is remembered: the receiver listens two clocks after that is done |
| RecoverySessions.SessionComesIff | src/recovery/recovery_receiver.sv:91-131 | from wherever the receiver rests, a write whose START, address byte and bytes come is passed on, in some clock, if and only if it has data and none of it comes in the clock after the header |
| RecoverySessions.SessionArrives | src/recovery/recovery_receiver.sv:198-247 | what is passed on is that packet, and the receiver rests again |
| RecoverySessions.TwoWrites | src/recovery/recovery_receiver.sv:133-148 | of two writes in a row, both arrive, wherever the second START falls behind the first command |
| RecoverySessions.BothArrive | src/recovery/recovery_receiver.sv:127-148 | any two writes with data have a run from reset in which both arrive and the second START falls while the first command is still executed |
| RecoverySessions.ReadSessionComes | src/recovery/recovery_receiver.sv:105-127 | a read is passed on two clocks after the first start that follows its two bytes, and in no clock before |
| RecoverySessions.BytesWait | src/recovery/recovery_receiver.sv:150-162 | bytes that are offered while a write is executed are not taken before the receiver listens again |
| RecoverySessions.BusyAfterReadSwallows | src/recovery/recovery_receiver.sv:150-162 | while a read is executed they are taken, and leave no trace |
| RecoverySessions.NotAddressed | src/recovery/recovery_handler.sv:611-632 | while no transfer to the device is pending, bytes go into the queue, and header and checksum stay |
| RecoverySessions.StopEndsCommand | src/recovery/recovery_receiver.sv:98-121 | a stop before a command is complete ends it, unless data are expected, and the next session is taken as any other |
| RecoverySessions.TargetTakesWrite | verification/cocotb/top/lib_i3c_top/recovery_interface.py:104-131 | a session of START, address byte and a write of the library: it arrives with its command, length and data, and is accepted if and only if its PEC is the one with the address byte in it |
| RecoverySessions.LibraryDelivers | verification/cocotb/top/lib_i3c_top/recovery_interface.py:104-131 | every write of the library that has data, below 65536 bytes, has a run from reset, with START, address byte and packet, in which it arrives |
| RecoverySessions.TargetTakesRead | src/recovery/recovery_receiver.sv:220-224 | and of a read: its two bytes and a repeated start are taken as a read command, and the second byte as its PEC |
| RecoverySessions.TargetAcceptsIff | verification/cocotb/top/lib_i3c_top/recovery_interface.py:119-147 | the target accepts what the library sends if and only if the address byte is zero; and with a forced error if and only if the random byte is the PEC with the address byte in it |
| RecoveryResponse.RecoveryTransmitter.Clock | src/recovery/recovery_transmitter.sv:61-129 | one clock of the transmitter, aborts and the flush included |
| RecoveryResponse.Readout.Clock | src/recovery/recovery_executor.sv:283-440 | one clock of the readout: data and byte counter, register selector, the word register behind it, and the registered marks of a valid length and of the last byte, aborts included |
| RecoveryResponse.ResponsePath.Clock | src/recovery/recovery_handler.sv:906-966 | readout, transmitter and PEC register clocked together are one step of the path |
| RecoveryResponse.StepKeepsInv | src/recovery/recovery_transmitter.sv:71-162 | every step, with or without an abort, keeps the invariant that ties the positions of the three machines, the selected word and the checksum to the bytes sent |
| RecoveryResponse.OneRun | src/recovery/recovery_handler.sv:906-966 | every request and every way of taking has such a run |
| RecoveryResponse.DescriptorOffered | src/recovery/recovery_transmitter.sv:125-135 | on the outputs of the path: the descriptor, with the length of the packet, is offered in every clock from the announcement until it is taken or the read is aborted, and in no other; and no byte is offered before it was taken |
| RecoveryResponse.AbortEnds | src/recovery/recovery_transmitter.sv:79-104 | behind an abort before the PEC nothing more is offered or sent, and two clocks later the transmitter is idle |
| RecoveryResponse.PecDespiteAbort | src/recovery/recovery_transmitter.sv:99-101 | when only the PEC is left, it is offered until it is taken, whatever is aborted |
| RecoveryResponse.NotDoneBefore | src/recovery/recovery_executor.sv:262-277 | the executor is not done before the last byte of the data was read out, or the read aborted |
| RecoveryResponse.ExecutorEnds | src/recovery/recovery_executor.sv:269-277 | then it reports done in exactly one clock, one clock later after an abort, and waits for the next command with its byte counter cleared |
| RecoveryResponse.WrongIffTooSoon | src/recovery/recovery_executor.sv:411-440 | a byte that is taken is the wrong one if and only if it opens a word too soon |
| RecoveryResponse.SendsStaleByte | src/recovery/recovery_executor.sv:411-440 | a word opened too soon goes out with the first byte of the word before it, and the checksum covers that byte |
| RecoveryResponse.SendsPrefix | src/recovery/recovery_executor.sv:303-440 | at any rate of taking and with aborts anywhere, what was sent is a prefix of length, data and PEC if and only if no word was opened in the clock after the byte before it with a different first byte; the descriptor announces the whole |
| RecoveryResponse.LastByteTaken | src/recovery/recovery_executor.sv:864-869 | when the last data byte is taken the transmitter goes on to the PEC, or is stuck if the byte before was taken in the clock before |
| RecoveryResponse.StuckForGood | src/recovery/recovery_transmitter.sv:94-97 | without an abort by the host, a transmitter that is stuck stays so, whatever is taken |
| RecoveryResponse.CompletedIff | src/recovery/recovery_executor.sv:851-869 | if whatever is offered is taken in the end, a packet is completed, right or wrong, if and only if the last byte is not taken in the clock after the one before it |
| RecoveryResponse.PacketSentIff | src/recovery/recovery_executor.sv:303-440 | if whatever is offered is taken in the end, the right packet is sent if and only if neither the last byte nor a byte that opens a word with a different one is taken in the clock after the byte before it |
| RecoveryResponse.ApartGetsPacket | src/recovery/recovery_executor.sv:851-869 | a reader that takes no bytes in adjacent clocks gets the right packet |
| RecoveryResponse.TargetGetsPacket | src/ctrl/i3c_target_fsm.sv:331-335 | so does the core's reader, which takes a byte when it enters the state in which it sends it, whenever it does |
| RecoveryResponse.GreedyOpensTooSoon | src/recovery/recovery_executor.sv:411-440 | a reader that takes everything at once opens a word too soon, in the clock given, if and only if it begins with another byte than the one before |
| RecoveryResponse.GreedyNeverDone | src/recovery/recovery_executor.sv:864-869 | and it gets a complete packet if and only if there is only one data byte |
| RecoveryResponse.PecMatchesSent | src/recovery/recovery_handler.sv:926-931 | whatever was sent, its PEC is that of the bytes sent; they are the data if and only if no word was opened too soon |
| RecoveryResponse.ReadsBack | src/recovery/recovery_handler.sv:926-931 | a packet the hardware sent is parsed by the test library to the bytes that were sent, its PEC found right for the zero address byte only; they are the data if and only if no word was opened too soon |
| SequenceMatch.Match | verification/cocotb/common/utils.py:265-310 | the loop gives the result of the greedy run, with a limit, or without one for calls that return |
| SequenceMatch.MatchableStep | verification/cocotb/common/utils.py:286-291 | taking the first cycle in which a predicate holds loses no match |
| SequenceMatch.MatchedIffMatchable | verification/cocotb/common/utils.py:277-310 | a match succeeds if and only if increasing cycles exist at which the predicates hold in order, all at least two below the limit |
| SequenceMatch.CountIsLongestPrefix | verification/cocotb/common/utils.py:289-291 | the count reaches k if and only if the first k predicates can be met below the limit |
| SequenceMatch.UnlimitedReturnsIffMatchable | verification/cocotb/common/utils.py:277-283 | without a limit a call returns if and only if the sequence can be met at all |
| SequenceMatch.FailedIff | verification/cocotb/common/utils.py:292-298 | for lists that may fail and do not retry: a match fails if and only if in a cycle below the limit the predicate that is waited for fails, those before it having been met in order and it only missed in between; the result has that cycle, the number of those met, and is not matched |
| SequenceMatch.MatchedIff | verification/cocotb/common/utils.py:277-310 | it matches if and only if all are met in order, each only missed until it is; and otherwise it ends at its limit |
| SequenceIterators.OrIter.constructor | verification/cocotb/common/utils.py:183-194 | a new iterator has fetched one predicate of each operand and is not over, even if an operand is empty |
| SequenceIterators.OrIter.Call | verification/cocotb/common/utils.py:196-209 | one call moves the operands as the cursor of the matcher says |
| SequenceIterators.AndIter.Call | verification/cocotb/common/utils.py:238-247 | one call moves the pairs as the cursor of the matcher says |
| SequenceCombinators.OrProgress | verification/cocotb/common/utils.py:196-209 | in `a` or `b` the progress of `a` is its progress alone, and `b` uses only the cycles that `a` leaves, for operands of any shape |
| SequenceCombinators.OrEndsWithFirst | verification/cocotb/common/utils.py:205-206 | the alternative of operands that are not empty is over exactly when one operand is |
| SequenceCombinators.OrEndsWithFirstIff | verification/cocotb/common/utils.py:183-209 | in every cycle the alternative is over exactly when one operand is, if and only if neither operand is empty |
| SequenceCombinators.OrMatches | verification/cocotb/common/utils.py:177-222 | it matches if and only if one operand is over before the limit, whenever `a` alone does and not later |
| SequenceCombinators.AndIsConjunction | verification/cocotb/common/utils.py:238-247 | the conjunction of two lists is matched as the list of the conjunctions of their predicates |
| SequenceCombinators.AndRunsAsListIff | verification/cocotb/common/utils.py:224-247 | it is matched as that list if and only if there is at least one pair |
| SequenceCombinators.AndMatches | verification/cocotb/common/utils.py:224-263 | it matches if and only if both operands are met at common increasing cycles, up to the shorter one |
| SequenceCombinators.AnyFailedIff | verification/cocotb/common/utils.py:292-298 | a match of any sequence that asks for no retry fails if and only if in a cycle below the limit its call fails, all calls before having answered |
| SequenceCombinators.OrFailsIff | verification/cocotb/common/utils.py:196-209 | a call of `a` or `b` fails exactly when, neither being over, `a` fails, or misses and `b` fails, each in its own progress |
| SequenceCombinators.AndFailedIff | verification/cocotb/common/utils.py:238-247 | a match of `a & b` fails if and only if the pair that is waited for does: `a` fails, or passes and `b` fails |
| SequenceCombinators.EmptyOperand | verification/cocotb/common/utils.py:238-247 | with an empty operand a combination takes one cycle and counts one match |
| SequenceCombinators.SumMatchable | verification/cocotb/common/utils.py:174-175 | a sum can be met if and only if the first part can and the second part after it |
| SequenceCombinators.RetryStartsOverIff | verification/cocotb/common/utils.py:299-301 | from wherever a match has got to, a retry starts over if and only if no sum or conjunction in the sequence has anything left; otherwise what was fetched is skipped |
| SequenceCombinators.CallsStayReached | verification/cocotb/common/utils.py:286-291 | every call leaves the cursor within reach of the start, which is all that the row above asks of it |
| SequenceCombinators.RestartStaysReached | verification/cocotb/common/utils.py:299-301 | and so does every retry |
| SequenceNested.Match | verification/cocotb/common/utils.py:265-310 | the matching loop over nested sequences that raise nothing: matched if and only if the sequence is over before the limit, in the first such cycle |
| SequenceNested.OfSteps | verification/cocotb/common/utils.py:196-209 | alternatives of lists, nested as deep as one likes, move on as the cursors of the matcher |
| SequenceNested.ZipSteps | verification/cocotb/common/utils.py:224-247 | a conjunction of lists moves on as the list of its pairs |
| SequenceNested.SumOverIff | verification/cocotb/common/utils.py:174-175 | a sum of any two sequences is over if and only if its second part is, begun in the cycle after the first was over |
| SequenceNested.SumAssociative | verification/cocotb/common/utils.py:174-175 | sums can be bracketed at will |
| SequenceNested.EitherOverIff | verification/cocotb/common/utils.py:196-209 | an alternative of any two sequences that raises nothing: the first does what it does alone, the second is called on its misses only, and it is over, for good, in the first cycle in which one of them is |
| SequenceNested.PlainWaits | verification/cocotb/common/utils.py:238-247 | a first operand of lists and sums of lists goes on exactly when both operands pass in one cycle |
| SequenceNested.RepeatOverIff | verification/cocotb/block/i2c_standby_controller/test_read.py:127-130 | `repeat(p) & b`, for any `b`, is over if and only if `b` is, called only in the cycles in which `p` holds |
| SequenceNested.OpenGate | verification/cocotb/block/i2c_standby_controller/test_read.py:127-130 | a check that always holds changes nothing |
| SequenceNested.OrderMatters | verification/cocotb/common/utils.py:238-247 | sequences for which `a & b` is met in no cycle in which both hold, and `b & a` never |
| Packing.BitPack | verification/cocotb/common/utils.py:313-328 | each bit of a packed word is the bit of the octet at its place |
| Packing.SplitIntoDwords | verification/cocotb/common/utils.py:313-331 | the words are the packed list, and each mask has exactly the bits of the valid octets |
| Packing.FormatWords | verification/cocotb/common/utils.py:339-350 | the or-ing loop gives the same words |
| Packing.FormatIbiData | verification/cocotb/common/utils.py:334-353 | the descriptor is followed by those words |
| Packing.DescriptorFields | verification/cocotb/common/utils.py:352-353 | byte and length can be told from the descriptor if and only if the length is below 2^24 |
| Packing.WriteOctets | verification/cocotb/top/lib_i3c_top/test_bypass.py:26-39 | the bytes path gives the same words, and refuses an empty list |
| Packing.UnpackDwords | verification/cocotb/common/utils.py:313-331 | unpacking the words of any list gives the list back |
| Packing.DwordsUnpack | verification/cocotb/common/utils.py:313-331 | packing the octets of any 32-bit words gives the words back |
| Packing.PutRxData | verification/cocotb/block/lib_hci_queues/tti_queues.py:106-123 | the bytes driven for a word are its octets, lowest first; zero is replaced by a random word |
| Packing.GetTxData | verification/cocotb/block/lib_hci_queues/tti_queues.py:89-99 | the word made by shifting four bytes in from above is the packed word |
| Packing.QueueRoundTrip | verification/cocotb/block/lib_hci_queues/tti_queues.py:86-123 | the two byte loops undo each other, for every word and every four bytes |
| CsrField.Int2Bytes | verification/cocotb/common/bus2csr.py:40-44 | the encoding, and which values are refused |
| CsrField.Bytes2Int | verification/cocotb/common/bus2csr.py:47-48 | the fold over the shifted bytes |
| CsrField.SumOfLanes | verification/cocotb/common/bus2csr.py:40-48 | decoding what was encoded gives the value modulo 256^width |
| CsrField.RoundTrip | verification/cocotb/common/bus2csr.py:40-48 | an accepted value is decoded to itself if and only if it is not 256^width, which is encoded as zeros |
| CsrField.KeptIff | verification/cocotb/common/bus2csr.py:40-48 | the values that are accepted and come back are exactly those below 256^width, and 256^width is the one that is accepted and lost |
| CsrField.LanesOfSum | verification/cocotb/common/bus2csr.py:40-48 | every byte list is encoded again from what it decodes to |
| CsrField.Register.WriteCsrField | verification/cocotb/common/bus2csr.py:99-104 | the read-modify-write through byte lists; a value that does not fit the register changes nothing |
| CsrField.Register.ReadCsrField | verification/cocotb/common/bus2csr.py:106-110 | the field is masked and shifted out |
| CsrField.GetPut | verification/cocotb/common/bus2csr.py:99-110 | a written value is read back if and only if it fits the field |
| CsrField.OtherFieldsKept | verification/cocotb/common/bus2csr.py:101-103 | a write that fits leaves every field with a disjoint mask unchanged |
| CsrField.PutGetPutPut | verification/cocotb/common/bus2csr.py:99-110 | writing back what was read changes nothing, and of two writes only the second counts |
| BusTimers.Timers.Clock | src/ctrl/bus_timers.sv:40-68 | one clock of the timers is one step of the run |
| BusTimers.NeverOverflows | src/ctrl/bus_timers.sv:38-63 | for any inputs, times that change in mid-count included, the counter stops at 2^20 + 1, so 32 bits never overflow |
| BusTimers.StopsAfterIdle | src/ctrl/bus_timers.sv:45-66 | with constant times it stops at the idle time plus one |
| BusTimers.NotTooEarly | src/ctrl/bus_timers.sv:65-67 | a condition is reported only when its time has passed since the last reset, a time of zero meaning 2^20 |
| BusTimers.StaysElapsed | src/ctrl/bus_timers.sv:49-67 | once reported it stays until the counter is reset |
| BusTimers.ElapsedExactly | src/ctrl/bus_timers.sv:40-67 | enabled timers report a condition from exactly its time on, a time of zero being 2^20, and one clock later after a reset of an idle bus |
| BusTimers.OutputsNotTooEarly | src/ctrl/bus_timers.sv:65-68 | each output of a run with its own time, whatever the inputs: free, available and idle not before their times, and busy if and only if none of them |
| BusTimers.OutputsExactly | src/ctrl/bus_timers.sv:40-67 | and with constant times, of which idle is the longest, each from exactly its own time on |
| BusTimers.DisabledHolds | src/ctrl/bus_timers.sv:40-63 | disabled timers hold their counter until it is reset |
| BusTimers.LateAfterIdle | src/ctrl/bus_timers.sv:45-47 | when that clock is lost |
| BusTimers.OrderedIff | src/ctrl/bus_timers.sv:65-68 | for ordered times idle implies available implies free if and only if the shortest is not zero, or all are |
| Interrupts.Interrupt.Clock | src/interrupt.sv:28-65 | one clock in edge or level mode, with the status register behind its write enable |
| Interrupts.StatusIff | src/interrupt.sv:50-62 | after any run the status is set if and only if an enabled trigger has had no effective clear since; a clear in the same clock loses nothing |
| Interrupts.EdgesOneToOne | src/interrupt.sv:31-42 | in edge mode the triggers are the rising edges of the combined request, one clock later and as many |
| Interrupts.ForceIsRequest | src/interrupt.sv:28-42 | a forced request is treated as one of the hardware: with the two exchanged, every run is the same |
| IdFilter.FilterWrites | verification/cocotb/block/axi_adapter_id_filter/test_bus_stress.py:24-26 | the data of the allowed writes, IDs used in turn |
| IdFilter.InTurnRepeats | verification/cocotb/block/axi_adapter_id_filter/test_bus_stress.py:24-26 | the IDs come again with the period of their number |
| IdFilter.BurstPasses | verification/cocotb/block/axi_adapter_id_filter/test_bus_stress.py:24-26 | a burst with one ID passes as a whole or not at all |
| IdFilter.CheckReads | verification/cocotb/block/axi_adapter_id_filter/test_bus_stress.py:28-35 | the loop accepts if and only if every read is the next allowed word, or zero when it is not allowed, and raises if and only if all reads up to one are and that one has no word or no data |
| IdFilter.VerifyData | verification/cocotb/block/axi_adapter_id_filter/test_bus_stress.py:22-35 | when the scoreboard accepts, when it raises, and that it fails an assertion otherwise |
| IdFilter.HoldsRest | verification/cocotb/block/axi_adapter_id_filter/test_bus_stress.py:24-33 | the FIFO holds what was let through and not yet taken |
| IdFilter.AcceptsExactly | verification/cocotb/block/axi_adapter_id_filter/test_bus_stress.py:22-35 | for every interleaving with equal counts and no allowed read of an empty FIFO, the scoreboard accepts exactly the results of the filtered FIFO |
| IdFilter.ChecksOnlyAsManyAsIds | verification/cocotb/block/axi_adapter_id_filter/test_bus_stress.py:28-31 | reads beyond the number of read IDs are not looked at |
| IdFilter.JudgesAllIff | verification/cocotb/block/axi_adapter_id_filter/test_bus_stress.py:28-31 | accepted results are the only ones that would be accepted if and only if there is an ID for each read |

## Left out

- BusTxFlow.Flow.Clock: the error outputs that are tied to constants, and the open-drain selection that is only
  passed through, are not part of the state.
- BusReceiver.ReceivedIff: a request is kept until it is answered; one that is withdrawn before is in
  `BusRxFlow.BytesAfterDrop` and `BusRxFlow.BitsAfterDrop`.
- BusSender.SendsSlots: SCL edges reach the sender with zero rise and fall delays, the configuration that
  doc/source/phy.md:66 asks for.
- BusLink.BytesArrive: the clock runs for ever, and the synchronisers between two chips are a fixed delay of `lag`
  clocks; metastability, pad delays and open-drain electrical behaviour are not modelled.
- RecoveryAgents.RecoveryDevice.SettleFlags: the flags of the recovery handler settle within the access that changes
  the FIFO, where the hardware takes a clock or two; the agents poll many clocks apart.
- RecoveryAgents.McuTask.Step: a field write is one access, the reset field of the FIFO clears itself within it, and
  random waits are arbitrary interleaving.
- RecoveryRuns.Finishes: fairness is assumed of the order of the steps, where the test relies on simulated time.
- RecoveryResponse.Readout.Clock: the registers that are read keep their contents during a response.
- RecoveryResponse.PacketSentIff: a run that is fair has no abort by the host, after which nothing is due; what is sent
  before one is in `SendsPrefix`, and what happens behind it in `AbortEnds`.
- BusDelays.SclEdgesExact: the delays are constant over a run; delays that change under way are in the step function and
  in the class only.
- RecoveryTransfer.FlaggedTooSoonIff: words are written as long as the FIFO is not full; how a write waits while only the
  reader has access is not modelled.
- SequenceMatch.Match: predicates answer by the clock cycle alone; a call without a limit that never returns is not
  modelled, and tracing and the choice between returning and raising on failure are left out.
- SequenceIterators.OrIter.Call: operands are lists; nested ones are covered on values in `SequenceNested.dfy`. An
  endless operand stands for a list as long as the match can use.
- SequenceNested.Match: predicates that raise; they are in the matcher of lists, alternatives and conjunctions of lists.
  An iterator that is used in two places is not modelled.
- CsrField.Int2Bytes: the logarithm of the range check is exact, where floating point rounds for widths above six bytes.
- IdFilter.AcceptsExactly: the FIFO is not bounded, and the error response to a refused access is not modelled.
- Interrupts.Interrupt.Clock: the status register is the usual one with a write enable; its software side is not
  modelled.
- RecoveryReceiver.CommandReceiver.Clock: the device stays selected; addressing another one resets the receiver, and the
  additional clock in which the PEC register is fed when the device is selected anew (`recovery_handler.sv:208-219`) is
  not modelled, so a packet starts with the checksum of its address byte.
- The rest of the core: target and controller state machines, common command codes, queues, width converters and bus
  adapters.
- The controller-side drivers, register generation, tools and configuration scripts of the repository.
