# Battery-cell node firmware: model and proofs

The firmware runs one battery-cell node on a shared half-duplex serial bus. This project models its five cores
and proves what they promise over all inputs, all interleavings of interrupts with the main loop, and all runs.

* **Wire path.** `Crc` and `CrcDetection` hold the checksum: the bit loop, its linearity, and the fact that a block
  checks exactly when the generator x^8 + x^2 + x + 1 (section 5.9.1 of RFC 3095, here with a zero preset) divides it.
  `Packet` defines frames and what a whole byte stream means. `Receiver` is the byte-at-a-time parser with its one
  buffer. `Custody` interleaves the parser with the main loop, step by step, and shows that streaming and scanning
  agree; `PacketTimeout` adds the clock. `Serial` is the ring and the duplex switch, `Link` is sending and the way
  from one node to another.
* **Timers.** `Timers` is the schedule in true, unbounded time; `TimerList` is the linked list and the 16-bit clock
  that implement it.
* **Command and configuration.** `Config` and `ConfigModule` are the parameter block in RAM and in EEPROM, on values
  and in place; `Command` and `CommandModule` are the dispatch and the command processor,
  `CommandLaws` what the commands are for; `Bus` is any number of nodes.
* **Shunt and application.** `Shunt` is the regulator, `StaleRanges` what becomes of its laws when settings change during
  a session, `ShuntRuns` its behaviour over whole sessions. `AppStates` and `AppModule` are the application state
  machine, `AppLaws` what its states promise, `ShuntTurns` the sessions inside it. `NodeTurns`, `NodeRuns` and
  `NodeModule` put command processor, timers and state machine together into the main loop of a node; `NodeLaws` says
  what a whole node makes of what it is told.
* **ADC.** `Adc` is the smoothing filter.

Each module whose source changes state step by step is a class with the source's variables; every method is proved
equal to a step on plain values, and the theorems over runs are about those steps. A `View()` is the class seen as
such a value.

Conventions: a byte is its eight bits, most significant first, and `ToByte`/`FromByte` convert to numbers. Values in
`uint16_t` variables are written `Wrap16`. True time is an unbounded number of ticks, of which the firmware keeps the
lowest 16 bits. `Quot` is unsigned division (`QuotIsDivision`). An interrupt schedule lists the transmit interrupts
that arrive before each turn of the copying loop.

## Where the code and its documentation differ

* The note at `cfg_set` (src/cfg.h:155) says that EEPROM is not updated; the code stores at once (src/cfg.c:258).
  The model stores, and `Config.AlwaysWriteThrough` depends on it.
* Temperatures are signed but `shunt_run` keeps them in an unsigned variable (src/shunt.c:176), so a reading below
  zero counts as hot. `Shunt.TargetIsMinimum` gives the exact extent.
* The documentation says that 13 preamble bytes return the parser to searching (doc/packet.md:77-80). They end any
  packet; with one byte to spare the parser already waits for the sync byte (`Receiver.Resynchronise`). Twelve are
  not enough.
* The 5 s packet timeout is meant for the packet being received, but it outlives it. `PacketTimeout.FullTimeIff` says
  exactly which packets have their full time.
* The ranges cached at `shunt_start` are not refreshed when SETPARM changes the limits (src/shunt.c:107-109). Until
  the next start the target law is lost, also for temperature; `StaleRanges.StaleTargetIff` says exactly when it is
  not. The clamp can be needed (`StaleRanges.StaleClampIff`), and a session started with equal limits can divide by
  zero (`Shunt.StaleRangesDivide`).
* A set cut short by power loss is harmless over a valid stored block, but not after a factory reset, which leaves an
  invalid one (`Config.SetsAreAtomicIff`).
* TESTMODE drives the shunt in whatever state the application is (`AppStates.TestmodeCoupling`).

## Model

| member | source | states |
|---|---|---|
| `Crc.Crc8CcittUpdate` | test/util/crc16.c:9-29 | the bit loop computes the update function that all CRC theorems are about |
| `Crc.UpdateLinear` | test/util/crc16.c:14-27 | the update of a sum is the sum of the updates |
| `Crc.UpdateZero` | test/util/crc16.c:14-27 | the update gives zero only when register and data agree, so no change of a byte goes unnoticed at once |
| `Crc.FoldLinear` | src/pkt.c:189-207 | CRCs over two equally long streams add up to the CRC of their difference |
| `Crc.UndetectedIff` | src/pkt.c:317-328 | an altered block passes the check exactly when the error pattern alone has CRC zero |
| `CrcDetection.FoldFeedsBits` | test/util/crc16.c:9-29 | the byte-wise CRC is the bit-serial shift register, fed the stream's bits in order |
| `CrcDetection.CheckedIffDivisible` | src/pkt.c:317-328 | a block passes the check if and only if the generator polynomial divides it |
| `CrcDetection.BurstDetected` | src/pkt.c:317-328 | every error burst of at most eight consecutive bits is detected, anywhere in the block |
| `CrcDetection.OddDetected` | src/pkt.c:317-328 | every odd number of altered bits is detected |
| `CrcDetection.OneByteDetected` | src/pkt.c:317-328 | every change confined to one byte is detected |
| `CrcDetection.GeneratorEscapes` | src/pkt.c:317-328 | and the limit: an error in the pattern of the generator itself, nine bits long, passes the check, on any two adjacent bytes |
| `Packet.ScanFrames` | src/pkt.c:225-335 | scanning printed frames gives back the packets, in order, whatever follows |
| `Packet.FramesInjective` | src/pkt.c:171-222 | different packet lists never print to the same bytes |
| `Packet.ScanBlock` | src/pkt.c:272-329 | a block sized by its own length byte yields its packet exactly when the CRC agrees; scanning resumes right behind it |
| `Packet.DamagedFrameDropped` | src/pkt.c:317-328 | a frame damaged by a short burst or an odd number of bits, its length byte intact, delivers nothing and costs nothing of what follows |
| `Packet.FrameLayout` | src/pkt.c:183-211 | the frame byte by byte: four times 0x55, 0xF0, flags, address, command, length, payload, CRC |
| `Receiver.PktModule.IsActive` | src/pkt.c:97-110 | active exactly when the buffer is in use, a packet waits, or the parser is inside a packet |
| `Receiver.PktModule.Reset` | src/pkt.c:113-121 | back to searching, buffer free, no packet ready; nothing else changes |
| `Receiver.PktModule.RxFree` | src/pkt.c:124-130 | the buffer is free; nothing else changes |
| `Receiver.PktModule.RxAlloc` | src/pkt.c:133-150 | hands out the buffer exactly when it was free, and marks it used |
| `Receiver.PktModule.Ready` | src/pkt.c:153-162 | hands out the completed packet once, and clears the slot |
| `Receiver.PktModule.Parser` | src/pkt.c:225-335 | one byte moves state, buffer, index, CRC and ownership flags exactly as the step function of the run theorems, and stays inside the buffer |
| `Receiver.PktModule.Receive` | src/ser.c:171-185 | the receive interrupt, byte after byte, is the run of those steps |
| `Receiver.Resynchronise` | src/pkt.c:233-334 | from any parser state, exactly how many preamble bytes end the packet and reach the sync state |
| `Receiver.ThirteenPreambles` | doc/packet.md:77-80 | 13 preamble bytes end any packet, 14 reach the sync state |
| `Receiver.TwelvePreamblesTooFew` | doc/packet.md:77-80 | 12 do not: after a header announcing twelve bytes the parser is still inside a packet |
| `Receiver.BusyBufferIgnoresPacket` | src/pkt.c:246-262 | a packet that begins while the buffer is in use is ignored, and after its sync byte nothing but a new preamble is heard |
| `Custody.ActKeepsInv` | src/pkt.c:113-162 | every act of interrupt or main loop keeps single ownership, CRC bookkeeping and the delivery count |
| `Custody.ByteKeepsInv` | src/pkt.c:245-333 | a received byte never changes a packet that is ready or held |
| `Custody.EveryInterleavingIsSafe` | src/pkt.c:61-70 | over every interleaving: one owner, writes inside the buffer, each packet released exactly once, and a held packet is still the one handed out |
| `Custody.FrameArrives` | src/pkt.c:233-329 | a frame that comes in while the buffer is free is, byte for byte, a packet that awaits pickup |
| `Custody.ActiveIff` | src/pkt.c:97-110 | the packet module counts as active exactly as long as the buffer has an owner |
| `Custody.StreamingIsScanning` | src/pkt.c:225-335 | for every stream and interleaving with a client that frees the buffer before each packet, and no timeout that resets the parser outside its search, the packets delivered are exactly those a whole-stream scan finds, in order |
| `Custody.FramesAreRecovered` | src/pkt.c:225-335 | under the same two conditions, exactly the packets that were framed are recovered |
| `Custody.DamagedFrameIsLostAlone` | src/pkt.c:317-328 | under the same two conditions, a damaged frame among good ones is lost, and only it |
| `Custody.EagerKeepsUp` | src/main.c:478-491 | polling and freeing once per byte is always fast enough, so the theorems above apply |
| `Custody.EagerReceives` | src/main.c:478-491 | and this client's run receives the whole stream, byte for byte |
| `PacketTimeout.LookCutsIff` | src/cmd.c:348-358 | in a prompt main loop, a look at the timeout cuts the packet being received if and only if a timeout runs and was started at least 5000 ms of true time ago, whichever packet it was started for |
| `PacketTimeout.FullTimeIff` | src/cmd.c:348-370 | a packet is safe from the timeout for its full 5000 ms, whatever the loop does and however bytes come, if and only if no timeout was running when it began, or one was started in that very millisecond |
| `PacketTimeout.StalledPacketIsFreed` | src/cmd.c:348-370 | a packet that stops half-way never keeps the buffer longer than 5000 ms and two loop periods |
| `PacketTimeout.StaleTimeoutCutsNewerPacket` | src/cmd.c:348-370 | the failure with clock values: a packet dies of a bad header, the loop comes round every millisecond, the next packet begins 5000 ms later and the very next turn cuts it |
| `PacketTimeout.StreamWithinTheLimit` | src/cmd.c:348-370 | in any run shorter than 5000 ms from a moment with no timeout running, a client that frees the buffer in time is handed exactly what a whole-stream scan finds |
| `PacketTimeout.StreamUnderTheClock` | src/cmd.c:348-370 | so it is in runs of any length, if no timeout runs when a preamble announces a packet, and every packet under way when the timeout is looked at began less than 5000 ms ago |
| `Serial.Ser.BufCnt` | src/ser.c:43-47 | the count is below the ring size, and the head is that far ahead of the tail |
| `Serial.Ser.IsActive` | src/ser.c:116-130 | active exactly when bytes are queued, a transmit interrupt is enabled, or a byte was received |
| `Serial.Ser.Enqueue` | src/ser.c:143-147 | store, advance and wrap add the byte at the end of the queue and disturb none |
| `Serial.Ser.SerWrite` | src/ser.c:138-154 | with interrupts between turns, takes the bytes that the specification takes, queues them in order, and turns the bus to transmitting |
| `Serial.Ser.DreIsr` | src/ser.c:189-215 | moves the oldest queued byte to the wire, or stops asking when there is none |
| `Serial.Ser.TxcIsr` | src/ser.c:217-241 | turns the bus around exactly when nothing is queued |
| `Serial.WriteTakesPrefix` | src/ser.c:138-154 | whatever interrupts come, a write takes a prefix of its bytes behind all earlier ones, all of them unless it met a full ring, and leaves a transmission under way |
| `Serial.RoomSuffices` | src/ser.c:143-147 | where the bytes fit at the start, all are taken, whatever interrupts come |
| `Serial.QuietCopyCount` | src/ser.c:143-147 | without interrupts the count is exactly what fits in 31 slots |
| `Serial.BytesConserved` | src/ser.c:138-241 | in every run of writes and interrupts, sent plus queued bytes are the accepted bytes in order; occupancy stays at most 31; queued bytes imply both interrupts and the transmitter on; receiver off implies transmit-complete on |
| `Serial.EverythingIsSent` | src/ser.c:189-241 | enough data-register interrupts, mixed with others, put every queued byte on the wire, and the next transmit-complete turns the receiver on |
| `Serial.TransmitterGoesQuiet` | src/ser.c:189-241 | one data-register interrupt more, mixed with any others, turns that interrupt off, and the next transmit-complete leaves the port idle: nothing queued, no interrupt, transmitter off, receiver on |
| `Serial.ActiveIff` | src/ser.c:116-130 | the port counts as active exactly as long as one of its interrupts has something left to do |
| `Link.Sender.FillFrame` | src/pkt.c:183-211 | the transmit buffer holds the frame of the packet: preambles, sync, header, payload and its CRC |
| `Link.Sender.PktSend` | src/pkt.c:171-222 | an oversized payload is refused with nothing queued; otherwise one frame is written, and success means all of it was |
| `Link.RoomForAnyPacket` | src/pkt.c:213-221 | with at most nine bytes queued, any packet can be sent, whatever interrupts come |
| `Link.FailedSendTruncates` | src/pkt.c:213-221 | a failed send has queued a proper prefix of the frame |
| `Link.SendsQueueFrames` | src/pkt.c:171-222 | in every run of sends that succeed, with interrupts anywhere, sent plus queued bytes are the frames in order |
| `Link.EndToEnd` | src/pkt.c:171-335 | packets sent successfully and drained are recovered exactly, in order, by any idle receiver whose client keeps up and whose packets no timeout cuts |
| `TimerList.ListAdd` | src/list.c:30-35 | the node is linked right behind the head; the rest of the chain stays |
| `TimerList.ListRemove` | src/list.c:38-53 | the walk ends; the node is unlinked if it is there, otherwise no link changes |
| `TimerList.MatchesWithout` | src/list.c:38-53 | unlinking a node from the chain is removing its entry, and only that, from the schedule |
| `TimerList.TmrModule.TickIsr` | src/tmr.c:43-47 | true time moves by one, and the 16-bit tick stays its remainder |
| `TimerList.TmrModule.TmrSet` | src/tmr.c:77-80 | the wrapped deadline |
| `TimerList.TmrModule.TmrSchedule` | src/tmr.c:89-100 | the linked, wrapped list becomes the schedule with this timer in front in true time |
| `TimerList.TmrModule.TmrUnschedule` | src/tmr.c:104-107 | the linked list becomes the schedule without this timer |
| `TimerList.TmrModule.TmrProcess` | src/tmr.c:114-143 | returns the timer that the schedule's own processing returns; list and links follow |
| `Timers.ExpiredIsExact` | src/tmr.c:83-86 | the 16-bit comparison agrees with true time if and only if the wrapped lateness is on the right half of the dial |
| `Timers.LateTimerMissed` | src/tmr.c:83-86 | a timer looked at 32768 ticks late is missed |
| `Timers.UnscheduleRemovesOnlyThat` | src/tmr.c:104-107 | exactly the named timer goes; the others stay as they are, in order |
| `Timers.ScheduleMovesToFront` | src/tmr.c:89-100 | the timer is in front with its deadline, exactly once; the others are unchanged |
| `Timers.ProcessReturnsFirstDue` | src/tmr.c:114-143 | within the window, the first timer whose true deadline has passed is returned, one-shots go, periodics advance, all others stay; none is returned exactly when none is due |
| `Timers.PeriodicNeverDrifts` | src/tmr.c:114-143 | over any run and any number of wraps, a periodic timer polled until quiet has fired once per elapsed period, and its next deadline is a whole number of periods after the start |
| `Config.AlwaysWriteThrough` | src/cfg.c:113-262 | over every run of set, store, reset and power cycle, the parameters in RAM are what a load from EEPROM would rebuild |
| `Config.PowerCycleLosesNothing` | src/cfg.c:113-161 | from any EEPROM contents and after any run, a power cycle changes no parameter |
| `Config.SetThenGet` | src/cfg.c:223-309 | a successful set is read back, every other parameter is unchanged, a refused set changes nothing, and exactly when it is refused |
| `Config.ResetGivesDefaults` | src/cfg.c:168-184 | after a factory reset every parameter reads its default, also after a power cycle |
| `Config.DefaultValues` | src/cfg.c:146-158 | the defaults in numbers, parameter by parameter |
| `Config.LoadIff` | src/cfg.c:128-143 | a stored block is loaded exactly if it says 26 bytes and type 2 and ends in its CRC, else the defaults |
| `Config.StoreKeepsParameters` | src/cfg.c:186-190 | storing changes no parameter and leaves a valid block |
| `Config.CorruptByteLoadsDefaults` | src/cfg.c:128-160 | any change of one byte of a valid stored block loads the defaults |
| `Config.SetsAreAtomicIff` | src/cfg.c:223-262 | power loss during a set, whichever bytes had been written: no mixture of old and new block ever loads, if and only if the stored block was valid (`ValidBlock(s.ee)`) |
| `Config.TornSetIsAtomic` | src/cfg.c:223-262 | from a valid stored block, a set cut short leaves the old block, the new one, or an invalid one |
| `Config.TornSetUndoesReset` | src/cfg.c:168-184 | the failing case at its simplest: after a factory reset, a set of which only the CRC byte was written brings the parameters from before the reset back |
| `Config.ParmTableEntry` | src/cfg.c:204-221 | the table gives each parameter the place the closed formula gives it |
| `Config.ParmsArePacked` | src/cfg.h:43-61 | the parameters lie in the order of their IDs without gaps and fill the block between header and CRC |
| `Config.GetIff` | src/cfg.c:269-309 | a parameter is answered exactly if its ID is legitimate and the buffer holds ID and value |
| `Config.PutSlot` | src/cfg.c:241-255 | writing one parameter changes its own bytes and no other parameter's |
| `ConfigModule.CfgModule.ComputeCrc` | src/cfg.c:78-87 | the CRC over as many bytes as the block's own length says, less one, reading on behind the block if need be |
| `ConfigModule.CfgModule.CfgLoad` | src/cfg.c:113-161 | RAM becomes the stored block if valid, else the defaults; true exactly when valid |
| `ConfigModule.CfgModule.CfgCommit` | src/cfg.c:168-184 | RAM and EEPROM hold the block with a good CRC, or after a reset the defaults over a block that does not check |
| `ConfigModule.CfgModule.CfgSet` | src/cfg.c:223-262 | RAM, EEPROM and result are those of the set whose laws are proved |
| `ConfigModule.CfgModule.CfgGet` | src/cfg.c:269-309 | the value goes behind the ID, nothing else in the buffer changes; zero and an untouched buffer when refused |
| `Command.TransmitsIff` | src/cmd.c:255-328 | exactly when a node transmits: ADDR with its UID, UID to address 0 while unassigned, or an answered command to its address |
| `Command.SilentUnchanged` | src/cmd.c:234-328 | a node that does not reply keeps its configuration |
| `Command.DispatchWritesThrough` | src/cmd.c:255-328 | no command leaves RAM and EEPROM apart |
| `Command.AddressCommand` | src/cmd.c:108-130 | ADDR sets the address of the node whose UID it carries and changes nothing elsewhere |
| `Command.SetAddress` | src/cmd.c:171-180 | a set changes the node's address exactly when it names parameter 1 with one value byte |
| `Command.ReplyFits` | src/cmd.c:63-198 | no reply exceeds the payload limit |
| `CommandLaws.CommandsSetParameters` | src/cmd.c:108-180 | for all messages and parameters: a SETPARM of the right length for this node and an ADDR with its UID set the parameter they name, and no message but a FACTORY changes any other |
| `CommandLaws.FactoryResets` | src/cmd.c:319-322 | a FACTORY for this node restores the defaults, also after a power cycle, and leaves it unassigned |
| `CommandLaws.ReplyContents` | src/cmd.c:63-198 | what the reply to each command carries, and that it is marked as a reply and repeats the command |
| `CommandLaws.SetparmThenGetparm` | src/cmd.c:171-198 | a GETPARM after a SETPARM is answered with the ID and exactly the value that was set |
| `CommandLaws.GetparmAnswers` | src/cmd.c:183-198 | a GETPARM is answered with the value, or with the ID alone exactly if there is no such parameter |
| `CommandLaws.UidThenAddr` | src/cmd.c:91-130 | a node addressed by the UID in its own UID reply takes the address and confirms it |
| `CommandLaws.ResetNodeAnswersUid` | src/cmd.c:261-269 | a node that was reset tells its UID to whoever asks address 0 |
| `CommandLaws.HandledExactly` | src/cmd.c:234-344 | for all messages: the main loop is given exactly the packets whose reply went out whole and other nodes' DFUs, the boot loader is entered exactly on an own DFU, and the transmitter takes the reply's frame and nothing else |
| `Bus.HearsWhenever` | src/cmd.c:255-328 | the same condition for every received packet; an address command names to each node the UID completed from the bytes left in its buffer |
| `Bus.BothTransmitIff` | src/cmd.c:255-328 | for all packets: two nodes with distinct addresses both answer if and only if it is an address command that names to each its own UID |
| `Bus.AtMostOneTransmits` | src/cmd.c:255-328 | with distinct UIDs and addresses no two nodes answer a packet that names one UID |
| `Bus.FullUidIsOneClaim` | src/cmd.c:111-115 | a packet names one UID whenever it carries four bytes, or the nodes heard the same packets before |
| `Bus.ShortAddressAnsweredTwice` | src/cmd.c:111-117 | the limit: every address command with fewer than four bytes is answered by both of two suitable nodes |
| `Bus.ReplyHeardInSilence` | src/cmd.c:63-198 | for all packets: another node answers the reply if and only if a set-parameter command has just given the replier that node's address |
| `Bus.OneReplyThenSilence` | src/cmd.c:234-328 | with distinct addresses before and after, the one reply makes no node transmit |
| `Bus.DuplicateAddressEchoes` | src/cmd.c:171-180 | two nodes with one address answer each other's set-parameter replies with the same packet, for ever |
| `Bus.AddressesAreLastClaimed` | src/cmd.c:108-130 | after any address commands of any length and any power cycles, every node has the address of the last one that named its UID to it, or its first address |
| `Bus.AddressesAreLastAssigned` | src/cmd.c:108-130 | when the commands carry full UIDs, that is the last command with the node's UID |
| `CommandModule.MessageIsPacket` | src/pkt.c:279-327 | the message in the buffer is the received packet over stale payload bytes |
| `CommandModule.TakenUpIsDelivered` | src/cmd.c:236-244 | what a poll picks up is the next packet of the delivery sequence |
| `CommandModule.CmdModule.CmdAddr` | src/cmd.c:108-130 | configuration and reply are those of the address command |
| `CommandModule.CmdModule.CmdSetparm` | src/cmd.c:171-180 | configuration as set, and a reply with the parameter ID from the node's new address |
| `CommandModule.CmdModule.CmdGetparm` | src/cmd.c:183-198 | a reply with the ID and the value, or the ID alone if refused; the configuration stays |
| `CommandModule.CmdModule.Execute` | src/cmd.c:255-328 | configuration, reply and boot loader entry are those of the dispatch function |
| `CommandModule.CmdModule.WatchTimeout` | src/cmd.c:348-370 | buffer and `pkt_timeout` change as the timeout theorems assume at this tick |
| `CommandModule.CmdModule.CmdProcess` | src/cmd.c:234-373 | one call, with received bytes anywhere in between: message, configuration, transmitter, reply, custody of the buffer and `pkt_timeout` are all those of the value-level call; the packet is kept exactly if a reply went out whole or it is another node's DFU |
| `CommandModule.CallIsRun` | src/cmd.c:234-373 | a call, and the freeing of a kept packet, is a run of the custody machine, so every interleaving theorem covers it |
| `CommandModule.CallIsPlay` | src/cmd.c:234-373 | and a run of the machine with a clock, so every timeout theorem covers it |
| `CommandModule.CallReceivesAll` | src/cmd.c:234-373 | no byte that arrives during a call, or while the main loop holds a packet, is lost or received twice |
| `Shunt.TargetIsMinimum` | src/shunt.c:174-230 | for all settings and all signed readings: the target is the smaller of the signed voltage and temperature laws if and only if the signs are as the unsigned comparisons need them; then LIMIT exactly when temperature lowered it; IDLE exactly at or below the lower voltage |
| `Shunt.SaneLimitsReadRight` | src/shunt.c:206-229 | for limits in order and not below zero that condition is: the reading is not below zero, or the voltage asks for nothing |
| `Shunt.ColdReadingsStopShunting` | src/shunt.c:176-211 | a reading below zero stops the shunt, though the law would let it run |
| `Shunt.TargetMonotone` | src/shunt.c:178-230 | for all settings and all cached ranges but one case, more voltage never lowers the target and more heat, as the code compares it, never raises it |
| `Shunt.MonotoneIff` | src/shunt.c:178-230 | that case is exact: an upper limit below zero, a lower one not, and a range cached for other limits |
| `Shunt.SyncedIsMonotone` | src/shunt.c:178-230 | ranges of the settings in force are never that case |
| `Shunt.ScaledDifference` | src/shunt.c:220-222 | for all settings: with limits of one sign the scaled difference does not overflow; otherwise it is below the wrapped range, so the quotient is zero |
| `Shunt.VoltageStepIsLaw` | src/shunt.c:178-201 | for all settings, while the cached range is theirs, the voltage law stays in 0..255, so the clamp is never needed |
| `Shunt.StartedTargets` | src/shunt.c:80-112 | for all settings, a regulator just started cannot divide by zero, and its targets are the smaller of the two laws exactly where the readings are read right; for limits in order and readings not below zero, everywhere |
| `Shunt.CanDivideIff` | src/shunt.c:198-222 | the condition used below is exact: it holds if and only if no pair of readings makes the code divide by zero |
| `Shunt.StaleRangesDivide` | src/shunt.c:107-109 | the ranges cached at the start allow every later division, whatever the settings become, if and only if neither pair of limits was equal at the start |
| `Shunt.EqualLimitsDivideByZero` | src/shunt.c:107-109 | both divisions by zero, at concrete limits and readings |
| `StaleRanges.StaleClampIff` | src/shunt.c:198-199 | with a stale range the clamp is needed exactly when the voltage is past the lower limit by at least that range |
| `StaleRanges.VoltageKeptIff` | src/shunt.c:191-200 | for all settings, under a stale range the voltage law holds at every voltage if and only if no voltage lies between the limits or `vrange - vrange/256` equals `d - d/256` for their distance `d` |
| `StaleRanges.StaleTargetIff` | src/shunt.c:174-230 | for all settings, the target is that of fresh ranges at all signed readings if and only if: the voltage range has the same top (or the upper temperature is zero), and the temperature range is the distance of the limits (or, for limits of two signs, above 65280; or nothing lies between them, or no voltage asks for anything) |
| `StaleRanges.StaleLawIff` | src/shunt.c:174-230 | for limits not below zero, the target is the smaller of the two documented laws at all readings not below zero if and only if that condition holds |
| `StaleRanges.StaleRangesErr` | src/shunt.c:107-109 | for all settings and readings, stale ranges no longer than the fresh ones never shunt too little, no shorter ones never too much |
| `StaleRanges.StaleVoltageLosesLaw` | src/shunt.c:107-109 | an input: with the upper voltage raised during the session the target is 255 where the laws give 128 |
| `StaleRanges.StaleTemperatureLosesLaw` | src/shunt.c:107-109 | an input: with the upper temperature raised during the session the shunt is full on and reports ON where the laws give 128 |
| `Shunt.QuotIsDivision` | src/shunt.c:198 | the repeated subtraction used for proofs is unsigned division |
| `Shunt.ShuntModule.ShuntStart` | src/shunt.c:80-112 | PWM zero, IDLE, first pass due next tick, idle timeout 30 s ahead, ranges cached |
| `Shunt.ShuntModule.ShuntStop` | src/shunt.c:115-127 | PWM zero and OFF; timeouts and ranges stay |
| `Shunt.ShuntModule.ShuntGetStatus` | src/shunt.c:138-144 | returns the status and pushes the idle timeout back |
| `Shunt.ShuntModule.ShuntRun` | src/shunt.c:153-254 | off, waiting, a pass, or a pass and the idle shutdown, as the value-level run says |
| `ShuntRuns.SlewReaches` | src/shunt.c:232-244 | with a constant target the PWM arrives after exactly the distance, not before, and stays |
| `ShuntRuns.PassesReachTarget` | src/shunt.c:164-244 | with constant readings and any cached ranges this takes at most 255 passes of the whole loop, and the target does not move |
| `ShuntRuns.StepKeepsInv` | src/shunt.c:80-254 | every tick, loop call and status read keeps the session invariant in true time |
| `ShuntRuns.LoopEffect` | src/shunt.c:153-254 | a call changes the PWM by at most one toward the target, and reports the target's status, only when due, and turns off exactly when the true idle time is over at a pass |
| `ShuntRuns.SessionIsSafe` | src/shunt.c:153-254 | with the loop called at least every D <= 100 ms and settings changing at will: PWM never exceeds the largest target so far, and the shunt is off 30000 + 100 + D ms after the last status read |
| `ShuntRuns.WatchedNeverTimesOut` | src/shunt.c:138-144 | a session asked for status within every 30000 ms never times out |
| `ShuntTurns.SessionFollows` | src/main.c:275-319 | a turn of the main loop in the shunt state is a step of the session, and ends the state exactly on a SHUNTOFF or when a regulating turn finds the idle time over |
| `ShuntTurns.EntryObeysLaws` | src/main.c:281-286 | from the turn that enters the shunt state, the regulator runs, its PWM is zero, and its targets are those of the documented laws |
| `ShuntTurns.UnaskedShuntEnds` | src/main.c:275-319 | with a regulating turn at least every D <= 100 ms, the application is in the shunt state less than 30000 + 100 + D ms after its entry or the last STATUS command |
| `ShuntTurns.AskedShuntStays` | src/main.c:275-319 | asked for status less than every 30000 ms and never told SHUNTOFF, it stays in the shunt state |
| `ShuntRuns.OverTemperatureRampsDown` | src/shunt.c:206-244 | over any sequence of passes at or above the upper temperature, whatever the voltages, the settings and the ranges, each pass lowers the PWM by one, down to zero |
| `AppStates.KissmKeepsInv` | src/kissm.c:58-72 | every step of the state machine keeps the coupling of state, regulator and state timer |
| `AppStates.EveryTurnIsCoupled` | src/main.c:448-491 | in every TESTMODE-free run, at each top of the loop: shunt state exactly when the regulator runs, PWM zero elsewhere, and a running timer in powerup, idle and dfu |
| `AppStates.TimedStatesEnd` | src/main.c:124-269 | in a turn within the clock window, powerup, idle and dfu end exactly if their deadline is reached, idle also otherwise if disturbed |
| `AppStates.TurnsKeepTimerAhead` | src/main.c:124-491 | in every run with turns at most 32768 ms apart, the state timer lies at most 8000 ms ahead after each turn, so the next one is in that window |
| `AppStates.TimedStateIsLeft` | src/main.c:124-269 | powerup and dfu, whatever is said on the bus, and idle, when nothing is, are left in the first turn at or after their deadline, within one loop period |
| `AppStates.PowerupAndDfuEnd` | src/main.c:124-269 | from the turn that enters it, powerup ends within 1000 ms and one loop period, dfu within 8000 ms and one |
| `AppLaws.BootEntersPowerup` | src/kissm.c:44-55 | the first turn enters powerup, for a second |
| `AppLaws.IdleTurn` | src/main.c:156-230 | without a timer event, DFU, SHUNTON and TESTMODE lead out of idle and nothing else does, and any packet or activity puts sleep off by a second |
| `AppLaws.IdleSleepsAfterASecond` | src/main.c:156-230 | in every run, idle falls asleep in the first turn 1000 ms or more after the last packet or activity, so within one loop period of that, and never earlier |
| `AppLaws.SleepTurn` | src/main.c:361-417 | sleep ends on the next turn, whatever it brings, and idle then lasts a second at least |
| `AppLaws.TestmodeTurn` | src/main.c:324-356 | the test state lasts exactly until the test module ends it, and that turns the regulator off |
| `AppLaws.TestmodeEntered` | src/main.c:194-196 | an acknowledged TESTMODE in idle leads to the test state, with the shunt at the level it asked for |
| `AppLaws.TestmodeDrives` | src/testmode.c:80-113 | what each test command does to the regulator, in any state |
| `AppLaws.ShuntoffTurn` | src/main.c:288-297 | SHUNTOFF ends the shunt state at once, with the regulator off |
| `AppStates.TestmodeCoupling` | src/cmd.c:202-231 | after a TESTMODE command the coupling survives if and only if it did not turn the shunt on outside the shunt state, nor off inside it with an acknowledgement |
| `AppStates.UnattendedPwmStays` | src/testmode.c:103-106 | a PWM that is on outside the shunt and test states stays as it is in every turn that does not enter the shunt state |
| `AppModule.Application.KissmRun` | src/kissm.c:58-72 | the handler runs; on a change of state exit and entry follow, once each |
| `AppStates.ShuntStateEntered` | src/main.c:156-230 | the shunt state is entered exactly from idle, in a turn without timer event that was given a SHUNTON packet |
| `AppStates.NoCommandNoShunt` | src/main.c:448-491 | however long it runs, a node never given a SHUNTON packet never turns its PWM on |
| `AppModule.Application.TimerEvent` | src/main.c:463-475 | an expired timer is looked for in the real linked list, and is a timeout event if its id is that of the state timer, as all of them are |
| `AppModule.Application.AfterTimer` | src/main.c:475-487 | event and state machine over the regulator's variables and the timer list are those of the coupled machines |
| `NodeTurns.DefaultsAreSane` | src/cfg.c:146-158 | the default block holds the settings 4000..4100 mV and 40..50 C, under which the regulator's laws hold |
| `NodeLaws.TurnTells` | src/cmd.c:234-344 | a turn is told of a STATUS exactly if it handled one for this node, of a test exactly if a TESTMODE, and sees the settings of the configuration after the message |
| `NodeLaws.StatusIsNoticed` | src/shunt.c:138-144 | an own STATUS, and nothing else, pushes the idle timeout back, to 30000 ms from now |
| `NodeLaws.TestmodeNeedsKey` | src/cmd.c:202-231 | a TESTMODE without the key does nothing but turn off; it is for the shunt exactly with function 3, at the level of its fourth byte if it has five |
| `NodeLaws.SettingsAreParameters` | src/cfg.h:43-61 | the regulator's settings are parameters 8, 9, 11 and 12, low byte first, temperatures signed |
| `NodeLaws.SetparmReachesRegulator` | src/cmd.c:171-180 | a SETPARM of a voltage limit takes effect in the regulator in the very turn that handles it |
| `NodeLaws.ShuntoffStopsNode` | src/cmd.c:302-305 | a SHUNTOFF for a shunting node, acknowledged in full, stops it in that turn |
| `NodeLaws.AskedNodeKeepsShunting` | src/shunt.c:138-144 | a node asked for its status in time, and never told SHUNTOFF, goes on shunting |
| `NodeLaws.BusyNodeStaysAwake` | src/main.c:215-227 | an idle node in the middle of a packet, or with bytes to send, stays awake for another second |
| `NodeLaws.MessageIsAnswered` | src/cmd.c:234-344 | with at most nine bytes queued the reply to a turn's message goes out whole, as one frame behind everything queued before |
| `NodeLaws.RequestAndReply` | src/main.c:448-491 | from frame to frame: a node at rest that is sent a packet handles it, and by the next turn exactly the reply its command calls for is found on the wire |
| `NodeTurns.ShuntNeedsAcknowledgedCommand` | src/cmd.c:302-305 | a turn brings the node into the shunt state if and only if it was idle and handled its own SHUNTON, acknowledged in full |
| `NodeTurns.OwnTestmodeOnly` | src/cmd.c:315-317 | a turn without a TESTMODE command of the node's own is one the coupling theorem covers |
| `NodeTurns.OthersTrafficIsIgnored` | src/cmd.c:255-344 | apart from ADDR and DFU, a message for another address leaves configuration, transmitter and the turn as if nothing had come |
| `NodeRuns.LoopKeepsRanges` | src/main.c:448-491 | unless it starts the regulator with equal limits, a turn leaves a regulator that can divide whatever the settings become |
| `NodeRuns.StartsApartGoes` | src/main.c:448-491 | in a run in which no session starts with equal limits no turn ever divides by zero, whatever SETPARM does in between |
| `NodeRuns.StepKeeps` | src/main.c:448-491 | every turn keeps configuration and EEPROM together and leaves no queued byte unsent |
| `NodeRuns.StepIsPlay` | src/main.c:448-491 | a turn is a run of the custody machine with a clock, so the packet timeout theorems hold of nodes |
| `NodeRuns.NodeRunIsTurns` | src/main.c:448-491 | a run of a node is a run of its application, so the theorems about applications hold of nodes |
| `NodeRuns.NodeTimerStaysAhead` | src/main.c:448-491 | in every run of a node whose turns are at most 32768 ms apart the state timer stays in the clock window |
| `NodeRuns.NodeLeavesTimedState` | src/main.c:124-269 | a node never stays in powerup or dfu past the deadline and one loop period |
| `NodeRuns.UnaskedNodeStopsShunting` | src/main.c:275-319 | idle safety of a whole node: it is in the shunt state less than 30000 + 100 + D ms after its entry or the last STATUS command, whatever else it is told and set to |
| `NodeRuns.NodeIsSafe` | src/main.c:420-491 | in every run of a whole node from power-up in which no turn divides by zero: one owner of the buffer and every packet released once, a power cycle changes no parameter, nothing accepted for sending is forgotten, and unless a TESTMODE was for it, state, regulator and timer are coupled |
| `NodeRuns.UncommandedNodeStaysOff` | src/main.c:448-491 | in every run of a whole node, whatever else is said on the bus and however address and limits change, without a SHUNTON or TESTMODE to the address it has at that moment its PWM is never on, and no turn divides by zero |
| `NodeModule.Node.LoadConfiguration` | src/main.c:424-425 | before the loop RAM is what loading the stored block gives, and nothing else changes |
| `NodeModule.Node.MainTurn` | src/main.c:448-491 | the loop body as written, with received bytes anywhere in it: clock, buffer, packet timeout, configuration, transmitter, timers and regulator are those of one step, unless the boot loader takes over |
| `NodeModule.Node.RunLoop` | src/main.c:448-491 | the loop, for any number of turns, goes through exactly the states that the run theorems speak of |
| `Adc.FilterIsSmooth` | src/adc.c:139-144 | no 16-bit overflow for ten-bit samples, and the result lies between the old value and the sample |
| `Adc.RestsExactlyNear` | src/adc.c:139-144 | the filter rests if and only if the sample is at most two below or one above the value |
| `Adc.ConstantSampleSettles` | src/adc.c:139-144 | under a constant sample the value moves one way, never overshoots, and rests for good within as many steps as the gap was wide |
| `Adc.AdcModule.Collect` | src/adc.c:176-186 | every channel gets its exactly smoothed value |
| `Adc.AdcModule.RunAdc` | src/adc.c:189-196 | sampling happens exactly when enabled and due, and moves the timeout by its period |

## Left out

- Hardware: clock, port, PWM and ADC registers, sleep and watchdog; only the transmit interrupt, transmitter and receiver bits are kept.
- Transmit interrupts are served in any order and number while enabled, which includes every order the hardware can produce; `DREIF` is taken as set when its interrupt fires.
- The copying loop stores, advances and masks `headp` in one step; interrupts fall between turns (src/ser.c:145-146), and src/ser.c:149-151 is one step.
- `ser_flush`: called once at start-up, where the ring is empty anyway.
- EEPROM driver: block read and block update over an array, except that `Config.SetsAreAtomicIff` lets power fail after any bytes.
- Memory behind the configuration block that `cfg_compute_crc` reads when the length byte is wrong: an arbitrary parameter.
- Readings, UID, board type and version: parameters; `cfg_uid` and `cfg_board_type` are constants of the board.
- `led.c`, the thermistor table, millivolt scaling and the MCU temperature formula: output and table look-up.
- Test mode internals: whether test mode has ended is a parameter of a turn, and a TESTMODE command is reduced to what it does to the regulator (`NodeTurns.TestOf`).
- Cell voltage and temperature are parameters of a turn, not tied to the ADC module.
- Boot loader: a DFU command to this node ends the model's run.
- The tick does not move inside one walk of `tmr_process`, nor inside one turn of the main loop; in the source it may, by the few ticks a turn takes.
- Bus collisions and baud rates: a transmitted byte arrives at every node that does not transmit.
- The command processor reads its message and runs the command, then the bytes that arrive meanwhile are received; the packet cannot change in between (`Custody.ByteKeepsInv`), so their order does not matter. Bytes that arrive while the state machine runs on a kept packet are received at its end, before the packet is freed.
- Deadlines further than 32768 ticks away or looked at 32768 or more ticks late: the timer theorems require the window, and `Timers.LateTimerMissed` shows why.
- `Config.TornSetIsAtomic`: requires a valid stored block (`ValidBlock(s.ee)`); `Config.SetsAreAtomicIff` shows that the promise holds exactly then, so not between a factory reset and the next set or store.
- `NodeRuns.NodeIsSafe`: runs end before the boot loader is entered, and before a turn whose readings make the code divide by zero, which has no meaning in C (`Shunt.EqualLimitsDivideByZero`); `NodeRuns.StartsApartGoes` excludes the latter for all runs in which no session starts with equal limits, and `NodeRuns.UncommandedNodeStaysOff` assumes nothing of the kind.
- The target law under stale ranges: kept exactly under `StaleRanges.StaleHarmless`; monotonicity (`Shunt.TargetMonotone`), convergence (`ShuntRuns.PassesReachTarget`), the slew limit and the ceiling (`ShuntRuns.SessionIsSafe`) do not depend on it.
- `AppStates.TestmodeCoupling` and the run theorems: with TESTMODE in play the state timer's window and idle safety are not followed further.
- `AppStates.EveryTurnIsCoupled`: no TESTMODE command; `AppStates.TestmodeCoupling` treats that command.
