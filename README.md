# SQUID_MCU motor controller — a Dafny model

SQUID_MCU is STM32F4 firmware that drives up to ten stepper motors. A Python
host sends it framed command packets over UART4; the firmware receives them
through a 64-byte DMA ring, parses them byte by byte, and runs a motor
sequencing engine. The engine sends each addressed motor a 14-byte parameter
frame over a second serial bus (USART2), pulsing that motor's key line, then
waits for every motor's status line to settle low. A simulated engine can
stand in for real drivers.

This project models, in Dafny:

- the host framing (`scripts/squid/packet.py`): `Packet.to_bytes` and
  `Packet.from_bytes` (module `HostPacket`), with `calculate_xor` as
  `Wire.XorFold`;
- the host motor record (`scripts/squid/motor.py`), four little-endian
  unsigned 32-bit words (module `HostMotor`);
- the firmware packet parser (`src/protocol.cpp`): a step function on a
  parser state, and a `PacketParser` class proved to follow it (module
  `Protocol`);
- the 16-byte motor record as the firmware decodes it, with its getters,
  setters, comparison and validity (`src/motor_settings.cpp`, module
  `Settings`);
- the key lines on GPIOB (`src/key_controller.cpp`, module `Keys`);
- the USART2 port the engine writes frames to and drains (module `Usart2`);
- the motor sequencing engine (`src/motor_driver.cpp`, module `Driver`);
- the simulated engine (`src/motor_simulator.cpp`, module `Simulator`);
- the UART4 DMA link (`src/uart_dma.cpp`, module `UartDma`).

Shared definitions sit in `wire.dfy`: the XOR checksum fold, little-endian
words (module `Wire`), and 16-bit motor masks as sets of slot indices, where
bit k stands for motor k + 1 (module `Masks`).

Each firmware class is modelled in two layers:

- A value datatype with pure step functions (`ParserState`/`Step`,
  `Engine`/`TickState`, `Sim`/`TickSim`). The lemmas about the firmware's
  behaviour are proved on this layer.
- A Dafny class with the source's fields. Each method is proved to move its
  `View()` exactly as the step function does.

The main results:

- A host frame of up to 256 bytes round-trips through the host encoder and
  the firmware parser (`Protocol.HostToFirmwareRoundTrip`).
- The parser reports a packet only after it has read a well-formed frame
  from its input (`Protocol.ParserReadsOnlyFrames`).
- Any single corrupted byte is rejected (`HostPacket.SingleByteCorruptionDetected`).
- The firmware decodes every host motor record correctly (`Settings.DecodesHostRecord`).
- Every frame the engine sends goes out while exactly the addressed
  motor's key line is raised, and no key line stays raised after it
  (`Driver.FrameGoesToItsMotor`).
- Every started sequencing command completes within a bounded number of
  ticks, with every addressed motor marked complete (`Driver.CommandCompletes`).
- The simulator stops once every budget is spent, with every active motor complete (`Simulator.StartedSimulatorStops`).
- Draining the DMA ring feeds the parser exactly the unread bytes, in ring
  order (`UartDma.UartLink.ProcessRxData`).

## Model

| member | source | states |
|---|---|---|
| Wire.XorFoldAppend | scripts/squid/packet.py:4-8 | the XOR checksum of a concatenation is the XOR of the two checksums |
| Wire.XorFoldWithChecksum | scripts/squid/packet.py:21-24 | appending a sequence's own checksum makes the checksum of the whole zero |
| Wire.XorFoldFlip | scripts/squid/packet.py:45-47 | flipping bits m of one byte flips exactly bits m of the checksum |
| Wire.LeBytes | scripts/squid/motor.py:13 | an unsigned 32-bit word packs to four bytes, struct format `<I`; reading them back with `LeWordAt` gives the word, and the reverse, by the next two rows |
| Wire.LeWordOfBytes | scripts/squid/motor.py:17 | reading four bytes written as the little-endian form of x gives back x |
| Wire.LeBytesOfWord | scripts/squid/motor.py:13 | writing the word read from four bytes gives back those four bytes |
| Masks.AllMotorsComplete | src/motor_driver.cpp:168-170 | true iff the active mask is non-empty and every active motor is completed |
| HostPacket.BigEndianSplit | scripts/squid/packet.py:17-19 | splitting a 16-bit length into high and low bytes and joining them gives the length back |
| HostPacket.BigEndianJoin | scripts/squid/packet.py:34 | joining two bytes and splitting the result gives the two bytes back |
| HostPacket.ToBytes | scripts/squid/packet.py:16-24 | the frame is STX, length, command, data, checksum: 5 + \|data\| bytes; the length field equals the frame length when it fits 16 bits; the last byte is the XOR of all bytes between STX and the checksum |
| HostPacket.FromBytes | scripts/squid/packet.py:27-49 | too short, wrong STX and length mismatch are reported in that order; a decoded packet carries byte 3 as command and \|frame\| - 5 data bytes |
| HostPacket.FromBytesAcceptsWellFormed | scripts/squid/packet.py:27-49 | decoding succeeds iff the frame is well formed: at least 5 bytes, STX first, length field equal to the length, at most 256 bytes, and checksum matching |
| HostPacket.ToBytesOfFromBytes | scripts/squid/packet.py:16-49 | every frame that decodes is re-encoded to exactly the same bytes |
| HostPacket.FromBytesOfToBytes | scripts/squid/packet.py:16-49 | every packet with at most 251 data bytes encodes to a frame that decodes to the same packet |
| HostPacket.FrameOfParts | scripts/squid/packet.py:21-24 | a frame assembled from STX, header, data and checksum is well formed and decodes to that command and data |
| HostPacket.LastByteIsChecksum | scripts/squid/packet.py:43-47 | in a well-formed frame the last byte is the XOR of the bytes between STX and it |
| HostPacket.ToBytesTooLongRefused | scripts/squid/packet.py:38-39 | a packet with more than 251 data bytes encodes to a frame that decoding refuses |
| HostPacket.SingleByteCorruptionDetected | scripts/squid/packet.py:45-47 | flipping any non-zero bit pattern in any byte after STX of a well-formed frame makes decoding fail |
| HostPacket.VersionFrameExample | tests/test_packet.py:27-69 | the VERSION packet encodes to 02 00 05 01 04, and a bad checksum byte is reported as an XOR mismatch |
| HostMotor.ToBytes | scripts/squid/motor.py:12-13 | packing succeeds iff all four fields are unsigned 32-bit values, and then gives 16 bytes |
| HostMotor.FromBytes | scripts/squid/motor.py:15-18 | unpacking fails iff fewer than 16 bytes are given; the fields it returns are unsigned 32-bit values |
| HostMotor.FromBytesOfToBytes | scripts/squid/motor.py:12-18 | unpacking a packed record gives the same record back |
| HostMotor.ToBytesOfFromBytes | scripts/squid/motor.py:12-18 | unpacking reads only the first 16 bytes, and packing the result rebuilds them exactly |
| HostMotor.FromBytesReadsHead | scripts/squid/motor.py:17 | bytes after the first 16 do not affect unpacking |
| HostMotor.DecodedFields | scripts/squid/motor.py:17 | the four unpacked fields are the little-endian words at offsets 0, 4, 8 and 12 |
| HostMotor.BasicParamsDecodeExample | tests/test_motor.py:30-37 | the sample bytes decode to number 1, acceleration 500, max speed 1000, steps 5000 |
| Protocol.Cleared | src/protocol.cpp:7-17 | reset leaves the parser waiting for STX with a 256-byte buffer |
| Protocol.Step | src/protocol.cpp:19-87 | a byte completes a packet iff the parser is waiting for the checksum and the byte equals the running XOR; completion leaves PACKET_READY; in PACKET_READY every byte is ignored |
| Protocol.StepPreservesInv | src/protocol.cpp:19-87 | every step keeps the parser invariant: the counters agree with the phase, the length is between 5 and 256 once accepted, the data index stays within the buffer, and the running XOR is the XOR of the header and data read |
| Protocol.TakeLengthLowInv | src/protocol.cpp:35-46 | an accepted total length between 5 and 256 leads to WAIT_CMD with the invariant kept |
| Protocol.Run | src/protocol.cpp:19-87 | feeding any byte sequence from a valid state keeps the invariant |
| Protocol.StepConsumed | src/protocol.cpp:19-87 | a step resynchronises to WAIT_STX, ignores the byte in PACKET_READY, or appends the byte to the frame read so far |
| Protocol.ReadyHoldsFrame | src/protocol.cpp:71-80 | in PACKET_READY the bytes consumed form a well-formed frame that the host decoder maps to the parser's command and data |
| Protocol.ConsumedFromInput | src/protocol.cpp:19-87 | from WAIT_STX, the frame being read is always a suffix of the input so far, or the parser is resynchronising |
| Protocol.ParserReadsOnlyFrames | src/protocol.cpp:19-87 | from reset, if the parser reaches PACKET_READY, the bytes it consumed are a contiguous segment of its input, are well formed, and decode to the parser's command and data |
| Protocol.RunFramePrefix | src/protocol.cpp:19-80 | fed the first k bytes of a well-formed frame, the parser is in the phase and holds the counters and data that prefix determines |
| Protocol.ParserAcceptsEveryFrame | src/protocol.cpp:19-80 | from WAIT_STX, every well-formed frame is accepted: its last byte reports completion, and the parser holds the frame's command and data |
| Protocol.HostToFirmwareRoundTrip | src/protocol.cpp:19-87 | the frame the host encodes for a packet with at most 251 data bytes makes a freshly reset parser ready, holding exactly that command and data |
| Protocol.CalculateXor | src/protocol.cpp:100-106 | the loop returns the XOR of the first `length` bytes of the array |
| Protocol.PacketParser.constructor | src/protocol.cpp:3-5 | a new parser is in the reset state |
| Protocol.PacketParser.Reset | src/protocol.cpp:7-17 | the parser returns to the reset state, its buffer zeroed |
| Protocol.PacketParser.ProcessByte | src/protocol.cpp:19-87 | the new fields and the result are those of `Step` on the old fields |
| Protocol.PacketParser.ReadStx | src/protocol.cpp:21-26 | the WAIT_STX branch moves the fields as `Step` does |
| Protocol.PacketParser.ReadLengthHigh | src/protocol.cpp:28-33 | the WAIT_LENGTH_H branch stores the high length byte, starts the XOR, and moves to WAIT_LENGTH_L |
| Protocol.PacketParser.ReadLengthLow | src/protocol.cpp:35-46 | the WAIT_LENGTH_L branch resets on an out-of-range length, and otherwise moves to WAIT_CMD, as `Step` does |
| Protocol.PacketParser.ReadCommand | src/protocol.cpp:48-59 | the WAIT_CMD branch stores the command and goes to WAIT_XOR for an empty packet, otherwise to WAIT_DATA |
| Protocol.PacketParser.ReadData | src/protocol.cpp:61-69 | the WAIT_DATA branch stores the byte in the buffer and moves to WAIT_XOR after the last data byte |
| Protocol.PacketParser.ReadChecksum | src/protocol.cpp:71-80 | the WAIT_XOR branch completes on a matching checksum and resets otherwise |
| Protocol.PacketParser.GetDataLength | src/protocol.cpp:93-98 | for a complete packet, returns the data index, at most 251 |
| Settings.RecordOffset | src/motor_settings.cpp:6 | the 8-bit offset is a multiple of 16 below 256, equal to 16 times the index for indices below 16 |
| Settings.RecordOffsetWraps | src/motor_settings.cpp:6 | index 16 wraps round to offset 0 |
| Settings.DecodeReadsRecord | src/motor_settings.cpp:5-23 | decoding record i reads only the 16 bytes at its offset |
| Settings.DecodeOfEncode | src/motor_settings.cpp:11-21 | decoding the little-endian encoding of settings gives the same settings |
| Settings.EncodeOfDecode | src/motor_settings.cpp:5-23 | encoding the decoded record rebuilds the 16 bytes it was read from |
| Settings.DecodesHostRecord | src/motor_settings.cpp:5-23 | the firmware decodes a record packed by the host to the host's four fields |
| Settings.DecodeAgreesWithHost | src/motor_settings.cpp:5-23 | the host unpacker and the firmware decoder read the same four fields from any 16 bytes |
| Settings.DecodeExample | src/motor_settings.cpp:5-23 | the sample record decodes to number 1, acceleration 500, max speed 1000, steps 5000 |
| Settings.Equal | src/motor_settings.cpp:57-62 | true iff all four fields are equal |
| Settings.NotEqual | src/motor_settings.cpp:64-66 | true iff some field differs |
| Settings.IsValid | src/motor_settings.cpp:72-86 | true iff the number is 1..10 and the acceleration and max speed are non-zero |
| Settings.AsBool | src/motor_settings.cpp:68-70 | the boolean conversion is validity |
| Settings.ValidNumberHasSlot | src/motor_settings.cpp:72-75 | a valid record addresses one of the ten motor slots |
| Settings.ValidityIgnoresSteps | src/motor_settings.cpp:72-86 | validity does not depend on the step count, and the default record is invalid |
| Settings.SettingsObject.constructor | src/motor_settings.hpp:7 | the default object is all zero, as a statically allocated record is |
| Settings.SettingsObject.FromFields | src/motor_settings.hpp:9-10 | the object holds the four given fields |
| Settings.SettingsObject.FromRecord | src/motor_settings.cpp:5-23 | the object holds the record decoded at the index's offset |
| Settings.SettingsObject.SetNumber | src/motor_settings.cpp:41-43 | only the number changes |
| Settings.SettingsObject.SetAcceleration | src/motor_settings.cpp:45-47 | only the acceleration changes |
| Settings.SettingsObject.SetMaxSpeed | src/motor_settings.cpp:49-51 | only the max speed changes |
| Settings.SettingsObject.SetSteps | src/motor_settings.cpp:53-55 | only the step count changes, so validity is unchanged |
| Keys.SetKeyBits | src/key_controller.cpp:5-15 | a motor number outside 1..10 changes nothing; otherwise the motor's bit takes the state and every other bit is kept; a 16-bit register stays 16-bit |
| Keys.ClearAllBits | src/key_controller.cpp:17-19 | the ten key bits are cleared and every higher bit is kept; a 16-bit register stays 16-bit |
| Keys.KeySet | src/key_controller.cpp:21-27 | true iff the number is 1..10 and its bit is set |
| Keys.SetKeyThenQuery | src/key_controller.cpp:5-27 | after setting a key, querying it gives the state set, and querying another key gives what it gave before |
| Keys.ClearAllReleasesEveryKey | src/key_controller.cpp:17-27 | after clearing all keys, no key reads as set |
| Keys.PulseClearsKey | src/key_controller.cpp:5-15 | setting and then clearing a key leaves only that key's bit cleared |
| Keys.KeyLines.constructor | src/key_controller.hpp:1-10 | the register starts as a given 16-bit value |
| Keys.KeyLines.SetKey | src/key_controller.cpp:5-15 | the output register becomes `SetKeyBits` of the old one and stays 16-bit |
| Keys.KeyLines.ClearAll | src/key_controller.cpp:17-19 | the output register becomes `ClearAllBits` of the old one and stays 16-bit |
| Usart2.Usart2Port.constructor | src/usart2_driver.hpp:1-12 | a new port has sent nothing and holds the given received bytes |
| Usart2.Usart2Port.Send | src/usart2_driver.cpp:4-8 | the frame is appended to the frames sent, together with the key lines raised while it goes out; nothing is received |
| Usart2.Usart2Port.ReadByte | src/usart2_driver.cpp:19-24 | returns the first received byte and removes it; nothing is sent |
| Driver.SlotOf | src/motor_driver.cpp:35-38 | the mask of a record's motor: one slot if its truncated number is 1..10, empty otherwise |
| Driver.SlotsOf | src/motor_driver.cpp:33-39 | the bits the first k records address, all among the ten motor slots |
| Driver.SlotsOfMembers | src/motor_driver.cpp:33-39 | a slot is active after k records iff one of them addresses it |
| Driver.LoadSettings | src/motor_driver.cpp:33-34 | loading keeps ten records and replaces the first `motorCount` of them |
| Driver.LoadedRecords | src/motor_driver.cpp:33-34 | record i of the loaded table encodes to bytes 16i..16i+15 of the motor data |
| Driver.ResetState | src/motor_driver.cpp:13-26 | reset leaves a stopped IDLE engine with empty masks, which does not report all complete, and keeps the records |
| Driver.StartState | src/motor_driver.cpp:28-43 | starting gives a running engine in CHECKING_RX with the loaded records, no motor pending or completed, and active motors among the ten slots |
| Driver.NextMotorState | src/motor_driver.cpp:80-93 | the send index advances by one up to the count; the engine waits for status exactly when the index reaches the count; the addressed motor becomes pending; active, completed and records are kept |
| Driver.StatusState | src/motor_driver.cpp:125-151 | the poll counts the tick, only removes pending motors, keeps the active mask, reaches COMPLETE exactly when nothing is pending, and always once the timeout is reached |
| Driver.StopState | src/motor_driver.cpp:160-166 | a stop leaves a stopped IDLE engine with nothing pending and every active motor completed |
| Driver.TickState | src/motor_driver.cpp:100-158 | a tick keeps the engine's shape: ten debounce counters and ten records |
| Driver.DriverFrame | src/motor_driver.cpp:45-64 | a driver frame is 14 bytes |
| Driver.DriverFrameFields | src/motor_driver.cpp:45-64 | the frame is DRIVER_CMD, then acceleration, max speed and steps as little-endian words, then the XOR of the first 13 bytes, so it XORs to zero |
| Driver.FramesSent | src/motor_driver.cpp:80-93 | a tick sends at most one frame |
| Driver.KeysDuringSend | src/motor_driver.cpp:66-75 | one key-line value per frame sent; what it holds is stated by the next row |
| Driver.FrameGoesToItsMotor | src/motor_driver.cpp:66-93 | when no key line is raised before a tick, a frame the tick sends is the record's driver frame, goes out with exactly the addressed motor's key raised, and no key line is left raised after it |
| Driver.ResetEstablishesInv | src/motor_driver.cpp:13-26 | reset leaves a stopped engine that satisfies the invariant |
| Driver.StartEstablishesInv | src/motor_driver.cpp:28-43 | starting gives a running engine in CHECKING_RX whose active mask holds exactly the slots the loaded records address |
| Driver.NextMotorKeepsInv | src/motor_driver.cpp:80-93 | sending the next record keeps the invariant, advances the send index, and enters WAITING_STATUS exactly when every record is sent |
| Driver.DebounceMoves | src/motor_driver.cpp:128-140 | debouncing only moves motors from pending to completed, and only those whose status line reads low |
| Driver.StatusKeepsInv | src/motor_driver.cpp:125-151 | the status poll keeps the invariant, and on COMPLETE every active motor is completed and none is pending |
| Driver.TickKeepsInv | src/motor_driver.cpp:100-158 | every tick keeps the invariant and the active mask, never loses a completed motor, and never returns to IDLE |
| Driver.StopEstablishesInv | src/motor_driver.cpp:160-166 | an emergency stop leaves a stopped engine that reports all complete iff any motor was active |
| Driver.TickDecreasesRank | src/motor_driver.cpp:100-158 | every tick of a running engine lowers a bounded rank |
| Driver.RunTicks | src/motor_driver.cpp:100-158 | any number of ticks keeps the engine's shape |
| Driver.StopsWithinRank | src/motor_driver.cpp:100-158 | a running engine stops within as many ticks as its rank |
| Driver.ActiveKept | src/motor_driver.cpp:100-158 | no sequence of ticks changes the active mask |
| Driver.CommandCompletes | src/motor_driver.cpp:28-158 | after starting, at most 2 + max(1, count) + SAFETY_TIMEOUT_MS ticks stop the engine in COMPLETE, with every active motor completed and none pending |
| Driver.MotorDriver.constructor | src/motor_driver.cpp:9-11 | a new engine is in the reset state, and all keys are released |
| Driver.MotorDriver.Reset | src/motor_driver.cpp:13-26 | the fields become `ResetState` of the old ones, and all keys are released |
| Driver.MotorDriver.ClearCounters | src/motor_driver.cpp:22-24 | all ten debounce counters become zero |
| Driver.MotorDriver.StartMotors | src/motor_driver.cpp:28-43 | the fields become `StartState` of the old ones, and all keys are released |
| Driver.MotorDriver.LoadRecords | src/motor_driver.cpp:33-39 | the record table becomes `LoadSettings`, and the active mask holds the slots the records address |
| Driver.MotorDriver.LoadRecord | src/motor_driver.cpp:34-38 | record i is decoded, other records are kept, and its slot is added to the active mask |
| Driver.MotorDriver.BuildDriverPacket | src/motor_driver.cpp:45-64 | the transmit buffer holds `DriverFrame` of the record, and the length 14 is returned |
| Driver.MotorDriver.ChecksumOf | src/motor_driver.cpp:57-60 | the loop returns the XOR of the first n transmit bytes |
| Driver.MotorDriver.CopyWord | src/motor_driver.cpp:49-55 | four bytes at the offset receive the little-endian word, and the rest of the buffer is kept |
| Driver.MotorDriver.SendCommandToDriver | src/motor_driver.cpp:66-78 | the frame of the current record is sent while the motor's key is raised on top of the old key lines; afterwards the key is released and the motor is pending |
| Driver.MotorDriver.ProcessNextMotor | src/motor_driver.cpp:80-93 | the fields become `NextMotorState` of the old ones; the frames sent, the keys raised during each, and the key lines after are those of `FramesSent`, `KeysDuringSend` and `KeysAfterTick` |
| Driver.MotorDriver.SendNext | src/motor_driver.cpp:81-87 | the send index advances; an addressed motor gets its frame, sent with its key raised, and becomes pending |
| Driver.MotorDriver.StartSending | src/motor_driver.cpp:95-98 | the send index becomes zero and the state SENDING |
| Driver.MotorDriver.DrainRx | src/motor_driver.cpp:111-115 | at most 32 received bytes are dropped from the driver bus, and nothing is sent |
| Driver.MotorDriver.PollStatus | src/motor_driver.cpp:125-151 | the fields become `StatusState` of the old ones on the ten status bits |
| Driver.MotorDriver.DebounceSlot | src/motor_driver.cpp:129-139 | one pending slot's counter is advanced or cleared, and the slot completes when it settles |
| Driver.MotorDriver.Tick | src/motor_driver.cpp:100-158 | the fields become `TickState` of the old ones; the frames sent, the keys raised during each, the bytes drained and the key lines after are those the spec functions give |
| Driver.MotorDriver.StopAll | src/motor_driver.cpp:160-166 | the fields become `StopState` of the old ones, and all keys are released |
| Simulator.Budget | src/motor_simulator.cpp:24-27 | the tick budget is at least 1 and is the number of ticks needed to cover the steps |
| Simulator.ResetSim | src/motor_simulator.cpp:9-16 | reset leaves a stopped simulator with no active or completed motors |
| Simulator.StartMotorSim | src/motor_simulator.cpp:18-31 | a number outside 1..10 changes nothing; otherwise the motor gets its budget, becomes active, and the simulator runs |
| Simulator.StartMotorsSim | src/motor_simulator.cpp:33-41 | after reset and the first k records, nothing is completed and the simulator runs iff some motor is active |
| Simulator.StartMotorsFacts | src/motor_simulator.cpp:33-41 | after starting k records, every active motor not yet complete has a budget between 1 and the largest record budget |
| Simulator.StartMotorsActive | src/motor_simulator.cpp:33-41 | after starting k records, a slot is active iff one of them addresses it |
| Simulator.TickSim | src/motor_simulator.cpp:43-63 | a tick of a stopped simulator changes nothing; it keeps the active set, never loses a completion, and stops the simulator iff all motors are complete |
| Simulator.StopSim | src/motor_simulator.cpp:65-68 | a stop marks every active motor complete and stops the simulator |
| Simulator.OperationsKeepInv | src/motor_simulator.cpp:9-68 | reset, start, tick and stop keep the invariant, and none of the last three loses a completion |
| Simulator.TickOne | src/motor_simulator.cpp:48-58 | a tick takes one off a running motor's budget, and completes it iff one was left |
| Simulator.CountsDown | src/motor_simulator.cpp:43-63 | after k ticks a motor has k fewer ticks left, and it is complete iff k equals its budget |
| Simulator.StartedMotorCompletes | src/motor_simulator.cpp:18-63 | a single motor started from reset completes after exactly its budget of ticks |
| Simulator.StoppedStays | src/motor_simulator.cpp:44-46 | ticks do not change a stopped simulator |
| Simulator.Stops | src/motor_simulator.cpp:43-72 | once every incomplete motor's budget is at most `bound`, `bound` ticks stop the simulator |
| Simulator.StopsComplete | src/motor_simulator.cpp:43-72 | a running simulator that ticks to a stop has every active motor complete |
| Simulator.StartedSimulatorStops | src/motor_simulator.cpp:33-72 | after starting a command that addresses some motor, the simulator stops within the largest budget of its records, with every active motor complete |
| Simulator.MotorSimulator.constructor | src/motor_simulator.cpp:5-7 | a new simulator is in the reset state |
| Simulator.MotorSimulator.Reset | src/motor_simulator.cpp:9-16 | the fields become `ResetSim` of the old ones |
| Simulator.MotorSimulator.StartMotor | src/motor_simulator.cpp:18-31 | the fields become `StartMotorSim` of the old ones |
| Simulator.MotorSimulator.StartMotors | src/motor_simulator.cpp:33-41 | the fields become `StartMotorsSim` of the old ones |
| Simulator.MotorSimulator.Tick | src/motor_simulator.cpp:43-63 | the fields become `TickSim` of the old ones |
| Simulator.MotorSimulator.TickSlot | src/motor_simulator.cpp:49-57 | one slot is counted down, and it completes when its budget is spent |
| Simulator.MotorSimulator.StopAll | src/motor_simulator.cpp:65-68 | the fields become `StopSim` of the old ones |
| UartDma.WritePos | src/uart_dma.cpp:88-96 | the DMA write position derived from NDTR lies in the ring |
| UartDma.RxDataLength | src/uart_dma.cpp:88-96 | the unread count is the distance from the read cursor to the write position modulo 64, and is zero iff they meet |
| UartDma.Ring | src/uart_dma.cpp:98-112 | reading n bytes round the ring from a start position gives n bytes; by the next row, byte k is the buffer byte at (start + k) mod 64 |
| UartDma.RingAt | src/uart_dma.cpp:98-112 | the k-th byte read from the ring is the byte at (start + k) mod 64 |
| UartDma.UnreadSlices | src/uart_dma.cpp:98-112 | the unread bytes are the slice between the cursors, or the tail of the ring followed by its head when the writer has wrapped |
| UartDma.RingGrows | src/uart_dma.cpp:101-108 | one more byte read from the ring appends the next byte round the ring |
| UartDma.Feed | src/uart_dma.cpp:101-108 | feeding bytes to the parser keeps its invariant |
| UartDma.FeedRuns | src/uart_dma.cpp:101-108 | the parser state after feeding is the parser's `Run` on the bytes |
| UartDma.FeedReady | src/uart_dma.cpp:101-108 | feeding raises the ready flag iff the parser was not ready and ends ready; a ready parser stays unchanged |
| UartDma.UartLink.constructor | src/uart_dma.hpp:31-37 | a new link has both cursors at zero and every flag clear |
| UartDma.UartLink.StartRx | src/uart_dma.cpp:56-63 | both cursors return to zero and the pending flag is cleared |
| UartDma.UartLink.GetRxDataLength | src/uart_dma.cpp:88-96 | the unread count is the distance from the read cursor to the NDTR write position modulo 64, and is zero iff they meet |
| UartDma.UartLink.ProcessRxBuffer | src/uart_dma.cpp:98-112 | the parser is fed the bytes from startPos round the ring up to endPos; the ready flag is raised iff one completes a packet; the cursor moves to endPos |
| UartDma.UartLink.FeedRing | src/uart_dma.cpp:100-108 | the drain loop feeds exactly the ring bytes between the two positions |
| UartDma.UartLink.ProcessRxData | src/uart_dma.cpp:114-122 | all unread bytes go to the parser in ring order, the read cursor reaches the write position, and the pending flag is cleared |
| UartDma.UartLink.HandleDmaRxIrq | src/uart_dma.cpp:124-136 | a half or full transfer marks data pending |
| UartDma.UartLink.HandleUartIdleIrq | src/uart_dma.cpp:146-155 | an idle line marks data pending |
| UartDma.UartLink.ClearRxPending | src/uart_dma.hpp:21-22 | the pending flag is cleared |
| UartDma.UartLink.HandleDmaTxIrq | src/uart_dma.cpp:138-144 | a finished transmission frees the transmitter |
| UartDma.UartLink.SendPacket | src/uart_dma.cpp:65-86 | a length of 0 or above 64 changes nothing; otherwise the bytes are copied to the transmit buffer and the transmitter is busy |

## Left out

- Register programming is not modelled: `UartDma::init`, the GPIO setup and LEDs, NVIC and the DMA stream enables. The model cannot express hardware registers.
- The busy-wait delay loops in `sendCommandToDriver` are not modelled. They have no effect on state.
- The `while (_txBusy)` wait in `sendPacket` is not modelled; the method starts from the state in which the previous transmission has finished.
- NDTR, the DMA transfer counter, is a parameter of the operations that read it. The DMA controller's writes into the receive ring happen outside the model. The ring buffer's contents are whatever the DMA left there.
- A full 64-byte burst between two drains reads as zero unread bytes, because the unread count is taken modulo 64, as in the source. The model reproduces this; it does not correct it.
- `rxHead` is only ever reset, as in the source.
- The GPIOE status register and the GPIOB key register are modelled as masks passed in or held in a field.
- `src/main.cpp` is not part of this model. It is a separate, older firmware with its own `main` and `loop`, its own register setup and its own `MotorFather` motor classes.
- `src/motor_controller.cpp` is not part of this model. All of it except the version reply in `processCommand` is compiled out with `#if 0`.
- `scripts/squid/client.py`, `transport.py` and the CLI are not part of this model. They are host I/O.
- Driver.DEBOUNCE_MS, Driver.SAFETY_TIMEOUT_MS and Driver.DRIVER_CMD are declared with their ranges only. Their values are not defined in the source files of this model, and every result holds for any value. `_debounceCounters` is likewise not declared in `motor_driver.hpp`; it is modelled as ten counters.
- Debounce counters and simulator tick counts are unbounded naturals, not 16-bit or 32-bit registers. Their wrap-around would need more than 65535 or 2^32 ticks.
- Driver.MotorDriver.StartMotors requires at most 10 records. The source writes `_settings[i]` for every i below the count into a 10-entry array, which overflows for larger counts.
- HostPacket.ToBytes: the command is a byte in the model. The source's `bytes([...])` raises `ValueError` for a command outside 0..255; that error path is not modelled.
- Usart2.Usart2Port: the USART2 register driver is abstracted to a list of frames sent, each with the key lines raised while it went out, and a queue of bytes received. `waitTransmitComplete` is folded into `Send`, and `sendByte` is not a separate operation.
- Settings.Decode reads the top byte as an unsigned word. The source shifts an `int` left by 24, which in C++ is signed; the stored `uint32_t` holds the same bits.
- Settings.SettingsObject getters are the object's fields, and are not separate methods.
- Protocol.PacketParser.IsComplete, Driver.MotorDriver.AllComplete, Driver.MotorDriver.IsRunning, Simulator.MotorSimulator.AllComplete, Simulator.MotorSimulator.IsRunning, Keys.KeyLines.IsKeySet and Usart2.Usart2Port.HasData read one field or call a modelled function. They carry no contract of their own.
- The header's getters (`getActiveMotors`, `getCompletedMotors`, `getState`, `hasPendingRxData`) are the class fields themselves.
- `motor_driver.hpp` names the waiting state WAITING_TIMEOUT, but `motor_driver.cpp` uses WAITING_STATUS. The model follows the implementation.
