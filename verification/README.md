# OpenMower V2 firmware: verified model

A Dafny model of the parts of the mower firmware whose correctness depends on more than one function
body, with proofs of what those parts are for. `dafny verify dfyconfig.toml` checks all of it.

| file | component |
|---|---|
| `CrcTheory.dfy`, `Crc32.dfy`, `ChecksumTest.dfy` | The UDP checksum responder: the shift register as polynomial division, the byte-wise feed loop over an array, the reply and its verdict ladder. |
| `PacketPool.dfy` | The packet pool: a counting semaphore and a fixed pool, each operation in two atomic steps, any number of threads, every interleaving. |
| `Io.dfy` | The I/O thread over a heap of packets and services: the intrusive service list, reception, checking, dispatch and the whole receive loop. |
| `NorFlash.dfy`, `BlockDevice.dfy` | The NOR driver over a device that ANDs bits, wraps inside a page, needs write enable before each command and is busy for an unknown time; on it the file system's block callbacks, refined to an array of blocks. |
| `DebugBridge.dfy` | The debug TCP bridge: the accept thread and any number of driver threads over two mutexes and one descriptor. |
| `JsonEscape.dfy` | The JSON string escaper, a decoder for section 7 of RFC 8259, and the bounded writer into a caller's buffer. |
| `ImuRegisters.dfy` | The IMU's three register banks behind a bus that may fail at any access, and the driver functions that route interrupts and use the banked registers. |
| `Mkdirp.dfy` | The recursive directory maker: its path buffer, cut and restored in place, against a tree of directories and files. |
| `PowerManagement.dfy` | The charger's current limits: clamping, hysteresis and remembered state over whole runs, down to the registers of the BQ2576 behind a bus that may fail, and the power service that resets it. |

Code that works step by step is modelled as methods over arrays, classes and loops, each proved against
a specification function or an explicit statement of the new state; what the firmware relies on is then
proved about those specifications. The two concurrent components are state machines whose actions are
the atomic steps of the kernel and network stack.

What the proofs say about the code, where it does not do what its surroundings suggest:

- A program call on a flash device still busy from an earlier command loses its first chunk and reports
  success if that command ends within the polling (`NorFlash.SnorProgram`, `NorFlash.BusyProgram`;
  harmless exactly under the condition of `NorFlash.SkipHarmless`). An erase on a busy device is dropped
  and reported as done; the block ends blank exactly if it was blank anyway (`BlockDevice.EraseFlash`,
  `BlockDevice.EraseAfterTimeout`). Only a timed-out write leaves the device busy
  (`BlockDevice.Run`, `BlockDevice.NoFailureNoLoss`).
- A burst of at most 32 bits is always seen inside the bytes the CRC covers or inside the crc32 field,
  but one across the boundary of the two can go unseen (`ChecksumTest.StraddlingBurstMissed`); which errors go unseen
  is stated exactly (`ChecksumTest.UndetectedIff`).
- `mkdirp` returns success when the last directory it should make is a regular file
  (`Mkdirp.FileSystem.Mkdirp`), makes `/name` itself although the comments promise only parent
  directories for a file path (`Mkdirp.TargetDropsName`), and the header's distinction by file extension
  does not exist in the code, which only looks at the last slash.
- `MASTER_CONFIG.drdy_on_int1` follows the caller's `den_drdy_int1`, not `drdy_on_int1`
  (`ImuRegisters.DrdyOnInt1`).
- A bus fault in the middle of a routing call can leave the IMU's interrupts-enable bit wrong, except for
  calls that ask for what it already says (`ImuRegisters.AnyInterruptionInt1`,
  `ImuRegisters.AnyInterruptionInt2`). One anywhere between the first and the last step of a banked call
  leaves its bank selected, and then the next routing call has no effect on the pins
  (`ImuRegisters.StrandedIff`, `ImuRegisters.FaultStrandsRoute`).
- `tilt_src_set` reads the tilt mask instead of writing it, so it is the getter.
- The comment on the checksum reply says the CRC covers the payload; the code covers the header before
  the crc32 field as well.
- Registering a service twice makes the dispatch list endless (`Io.IoThread.RegisterServiceIo`,
  `Io.EndlessNeverEnds`).
- The charger driver raises every request to 0.4 A, above the callback's minimum of 0.3 A, so the safety
  margin needs 0.35 A after the reserve, not 0.3 A (`PowerManagement.MarginKept`,
  `PowerManagement.MarginMissed`), and a configured charge current below 0.4 A is exceeded
  (`PowerManagement.ChargeHeld`).
- The callback ignores whether the charger took a request and remembers it all the same, so a lost one
  is not repeated until the limit moves (`PowerManagement.WriteRepeated`). The same happens when a failed
  monitoring access makes the power service reset and configure the charger: until the limit moves, the
  adapter current stays at its reset value and the charge current at the configured one, which the
  override lets exceed the board's limit (`PowerManagement.SaboRobot.SameSampleAfterReset`,
  `PowerManagement.OverrideExceeds`; exactly when it does not, `PowerManagement.SaboRobot.Update`).

## Model

| member | source | states |
|---|---|---|
| CrcTheory.FeedIsRemainder | src/debug/checksum_test_interface.cpp:48-51 | Feeding bits into the register computes the remainder of message·x^32 plus register·x^length under long division by the IEEE 802.3 generator. |
| CrcTheory.StepsAreBits | src/debug/checksum_test_interface.cpp:54-58 | XORing a group of up to 32 bits in at once and shifting them out equals feeding them one at a time. |
| CrcTheory.FeedInjective | src/debug/checksum_test_interface.cpp:52-61 | Two registers that agree after the same message agreed before it. |
| CrcTheory.MeetWithin32 | src/debug/checksum_test_interface.cpp:52-61 | Two registers that meet after at most 32 bits each differed beforehand exactly where those bits differ. |
| CrcTheory.BurstSeparates | src/debug/checksum_test_interface.cpp:52-61 | Messages of equal length that differ only inside 32 consecutive bits and leave the same register are equal. |
| Crc32.ShiftByteOut | src/debug/checksum_test_interface.cpp:55-58 | The branch-free inner loop makes exactly eight conditional register steps. |
| Crc32.Crc32Feed | src/debug/checksum_test_interface.cpp:52-61 | The loops over a region of the buffer compute the recursive Feed of exactly that region. |
| Crc32.FeedAppend | src/debug/checksum_test_interface.cpp:50-51 | Feed(Feed(c, a), b) is Feed(c, a ++ b): the CRC may span regions. |
| Crc32.FeedLinear | src/debug/checksum_test_interface.cpp:52-61 | Feed(c ^ d, a ^ b) is Feed(c, a) ^ Feed(d, b). |
| Crc32.GeneratorIsPoly | src/debug/checksum_test_interface.cpp:48-57 | 0xEDB88320 is the IEEE generator's coefficients in reflected order. |
| Crc32.StepFollows | src/debug/checksum_test_interface.cpp:56-57 | The 32-bit register step is the polynomial step. |
| Crc32.FeedFollows | src/debug/checksum_test_interface.cpp:52-61 | The register after any message is the polynomial register after its bits. |
| ChecksumTest.HandleDatagram | src/debug/checksum_test_interface.cpp:114-144 | For every datagram the reply carries the full length, the verdict of the ladder, and for packets with a whole header their test id and the CRC of everything but the crc32 field; zeros otherwise. |
| ChecksumTest.VerdictOnBytes | src/debug/checksum_test_interface.cpp:119-143 | Each verdict from the received bytes alone: TOO_SHORT below 16 bytes; BAD_MAGIC exactly if a longer packet does not start with "TEST"; LEN_MISMATCH exactly if the next is the third word, low byte first, that is not the number of payload bytes; CRC_MISMATCH exactly if only the fourth word is not the frame check sequence of all the other bytes. |
| ChecksumTest.NumbersOnBytes | src/debug/checksum_test_interface.cpp:121-133 | The test id echoed is the second word, low byte first, and the CRC reported is the frame check sequence due. |
| ChecksumTest.BuiltPacketAccepted | src/debug/checksum_test_interface.cpp:121-143 | A packet built with the magic, the length and that CRC gets the verdict OK and its id back. |
| ChecksumTest.AcceptedPacketIsBuilt | src/debug/checksum_test_interface.cpp:121-143 | A packet with the verdict OK is byte for byte the packet built from its id and payload. |
| ChecksumTest.OkIffBuilt | src/debug/checksum_test_interface.cpp:121-143 | OK is given to exactly the packets a sender can build. |
| ChecksumTest.CrcIsFrameCheckSequence | src/debug/checksum_test_interface.cpp:127-133 | The computed CRC is the frame check sequence of clause 3.2.9 of IEEE Std 802.3 over the covered bytes: first 32 bits complemented, 32 zeros appended, remainder complemented. |
| ChecksumTest.FieldAcceptedIff | src/debug/checksum_test_interface.cpp:139-143 | The crc32 field matches exactly if its bits, low bit first, are that frame check sequence. |
| ChecksumTest.MessageBurstDetected | src/debug/checksum_test_interface.cpp:52-61 | Different messages of equal length that agree outside 32 consecutive bits leave different registers. |
| ChecksumTest.BurstDetected | src/debug/checksum_test_interface.cpp:126-144 | Two different datagrams of equal length and equal crc32 field whose covered bits agree outside one window of at most 32 bits get different CRCs, so at most one is OK. |
| ChecksumTest.FieldErrorDetected | src/debug/checksum_test_interface.cpp:126-144 | No change of the crc32 field alone goes unseen. |
| ChecksumTest.UndetectedIff | src/debug/checksum_test_interface.cpp:126-144 | Any error goes unseen exactly if it leaves magic and length alone and changes the crc32 field by the CRC, started from zero, of its part in the covered bytes: a condition on the error alone. |
| ChecksumTest.StraddlingBurstMissed | src/debug/checksum_test_interface.cpp:126-144 | Witness, for every id: a burst of 32 bits across the end of the crc32 field that turns one accepted packet into another. |
| PacketPool.CountStep | portable/xbot/packet.cpp:18-38 | Every atomic step keeps: free packets = semaphore count + sleepers + threads past the semaphore + threads about to signal, and nobody spins. |
| PacketPool.QueueStep | ext/ChibiOS_21.11.3/os/rt/src/chsem.c:191-220 | Every step keeps the semaphore's queue: as long as the counter is negative, without repetition, exactly the threads asleep. |
| PacketPool.SlotStep | portable/xbot/packet.cpp:12-38 | Every step keeps the free and held packets together equal to the pool's 25, each once, and no packet above its size. |
| PacketPool.StepInv | portable/xbot/packet.cpp:18-56 | Every enabled step of any thread keeps the whole invariant. |
| PacketPool.InitInv | portable/xbot/packet.cpp:12-16 | The statically initialised semaphore and the pool as set up at start satisfy the invariant. |
| PacketPool.RunInv | portable/xbot/packet.cpp:18-56 | Every run of any threads keeps it. |
| PacketPool.GrantedHasPacket | portable/xbot/packet.cpp:19-24 | A thread past chSemWait always finds a packet, so the endless loop is unreachable. |
| PacketPool.PoolSafe | portable/xbot/packet.cpp:18-56 | Over every run: free and held packets number 25, none is free twice, held twice or both, the semaphore never over-promises, nothing outgrows its buffer, and no thread spins. |
| PacketPool.SleepOnlyWhenExhausted | portable/xbot/packet.cpp:19 | A thread sleeps on the semaphore only if all 25 packets are held, promised to a woken thread, or about to be signalled. |
| PacketPool.PlaceStep | ext/ChibiOS_21.11.3/os/rt/src/chsem.c:290-305 | A signal moves every sleeper up one place or wakes the first; no other step moves one. |
| PacketPool.WokenInTurn | portable/xbot/packet.cpp:19-37 | Sleepers are never overtaken: one with i others before it is woken by signal number i + 1, whatever the threads do. |
| PacketPool.HalvesComplete | portable/xbot/packet.cpp:18-38 | A thread outside can always begin an operation and sleeps exactly if the semaphore is not positive; one between two halves can always take the second: an allocating one gets the first free packet, empty, and a signalling one wakes the queue's first sleeper. |
| PacketPool.HeldPacketsArePrivate | portable/xbot/packet.cpp:18-56 | No other thread's step changes a held packet's contents or its holder. |
| PacketPool.HeldStep | portable/xbot/packet.cpp:40-49 | One step of a held packet that is not released: an append that fits adds its bytes at the end and one that does not changes nothing, a reception replaces the contents, a gift changes the holder, and no other step changes either. |
| PacketPool.ReleaseStep | portable/xbot/packet.cpp:35-38 | A released packet is held by nobody and first on the free list; everyone else keeps theirs. |
| PacketPool.HeldRun | portable/xbot/packet.cpp:18-56 | Over every run in which a held packet is not released, it is held by the last thread it was given to and holds exactly what was written to it. |
| PacketPool.AllocatedHoldsWritten | portable/xbot/packet.cpp:18-33 | Over every run: a packet allocated and not released since holds exactly what was appended to it since, or since it was last filled, and nothing of what it held before. |
| Io.Packet.AppendData | portable/xbot/packet.cpp:40-49 | Appends all of the bytes if they fit and leaves the packet alone if not; null is refused. |
| Io.Packet.GetData | portable/xbot/packet.cpp:51-56 | Returns exactly the used bytes, or fails for null. |
| Io.SelectIsFirst | portable/xbot/Io.cpp:63-73 | The selected service is the first registered one with the id that is not stopped; none is selected exactly if there is none. |
| Io.IoThread.LastService | portable/xbot/Io.cpp:83-86 | The walk to the list's tail ends and finds the service registered last. |
| Io.IoThread.RegisterServiceIo | portable/xbot/Io.cpp:82-89 | A fresh service goes to the end of the acyclic list and the order is kept; a service registered twice ties the list into a loop. |
| Io.EndlessNeverEnds | portable/xbot/Io.cpp:63 | In such a loop a scan that never matches goes on for any number of steps. |
| Io.IoThread.ReceivePacket | portable/xbot/socket.cpp:58-74 | On an error the packet is back in the pool; otherwise the pool's first packet leaves it, holding exactly the datagram. |
| Io.IoThread.TransmitPacket | portable/xbot/socket.cpp:76-88 | The packet is consumed whether or not the datagram went out, and nothing but its used bytes is sent. |
| Io.IoThread.Dispatch | portable/xbot/Io.cpp:62-73 | The scan ends and puts the packet into the inbox of the selected service and no other. |
| Io.IoThread.Process | portable/xbot/Io.cpp:43-78 | A received packet is delivered exactly if it has a header, its size is header plus payload_size and a service with its id is registered and not stopped, and then to the first of them alone; otherwise it is freed exactly once. |
| Io.IoThread.RunOnce | portable/xbot/Io.cpp:37-79 | One turn of the loop delivers exactly if a datagram arrived that is as long as the header and payload_size say, for a service that is registered and not stopped: then the pool's first packet alone moves to the end of the first such service's inbox, holding the received bytes; otherwise it is back in its place. |
| Io.IoThread.RunIo | portable/xbot/Io.cpp:35-80 | Over every series of receptions, until the pool runs dry, each ends with a delivery exactly if it is a datagram of a header and as many bytes as that announces for a registered, running service, and then to the first of them; and no packet is lost, duplicated or shared: pool and inboxes together hold what they held. |
| Io.DepositKeepsAll | portable/xbot/Io.cpp:74-77 | Whatever the outcome, pool and inboxes together are unchanged by a turn. |
| NorFlash.ProgramPageInPlace | boards/XCORE/hal_flash_device.c:198-209 | On a device whose address wraps inside a page, data that ends within its page is ANDed in place. |
| NorFlash.ProgramReadsBackIff | boards/XCORE/hal_flash_device.c:185-224 | Programming leaves old AND new in the addressed bytes and nothing else changed; the data reads back exactly if no bit of it would have to be set. |
| NorFlash.NextChunk | boards/XCORE/hal_flash_device.c:198-202 | The bitwise computation picks a chunk that is never empty, never crosses a page and, unless it is the last, ends at a page boundary. |
| NorFlash.PollStatus | boards/XCORE/hal_flash_device.c:113-135 | Succeeds exactly if the device clears its busy flag within 100 reads, and leaves what the device will hold unchanged. |
| NorFlash.ProgramChunk | boards/XCORE/hal_flash_device.c:204-215 | Write enable, program and poll: an idle device ends with exactly the chunk ANDed in and a busy one ignores it; the call succeeds on a busy device exactly if that finishes within 100 polls, and on an idle one if programming does. |
| NorFlash.SnorProgram | boards/XCORE/hal_flash_device.c:185-224 | On success an idle device holds old AND data on exactly the given range and is idle; on failure every chunk before the failing one is programmed, that one is in progress and none after it was sent. For a device busy at the start, what is skipped is stated too. It succeeds whenever every operation finishes within the polling, and fails if one already running does not. |
| NorFlash.SkipHarmless | boards/XCORE/hal_flash_device.c:195-221 | A call reaching a busy device leaves what was asked for exactly if the first chunk had no bit to clear. |
| NorFlash.BusyProgram | boards/XCORE/hal_flash_device.c:195-221 | Witness, for every byte: programming on a device busy for up to 99 more polls succeeds and leaves exactly what the running operation leaves, which is what was asked for exactly if the byte had no bit to clear. |
| NorFlash.BusyProgramLosesData | boards/XCORE/hal_flash_device.c:204-215 | A skipped byte, anywhere, is lost exactly if it had a bit to clear. |
| NorFlash.SnorStartEraseSector | boards/XCORE/hal_flash_device.c:239-250 | Starts erasing exactly that sector of an idle device; a busy one is unaffected. |
| NorFlash.SnorQueryErase | boards/XCORE/hal_flash_device.c:282-301 | Reports exactly whether the device is still busy and changes nothing of what it will hold. |
| NorFlash.SnorVerifyErase | boards/XCORE/hal_flash_device.c:252-280 | For every such buffer the loops end without underflow and report no error exactly if all 4096 bytes are 0xFF. |
| BlockDevice.ProgramRefines | src/filesystem/filesystem.cpp:38-46 | Programming the flat flash inside one block is programming that block of the abstract device and no other. |
| BlockDevice.EraseRefines | src/filesystem/filesystem.cpp:48-59 | Erasing a sector is blanking that block and no other. |
| BlockDevice.ReadFlash | src/filesystem/filesystem.cpp:31-36 | Reads exactly the bytes of the abstract block of an idle device; every address stays inside the 16 MiB device. |
| BlockDevice.WriteFlash | src/filesystem/filesystem.cpp:38-46 | Whether or not it succeeds, and whether or not the device was busy: exactly the bytes sent and not ignored are ANDed into the block and no other block changes. Success on an idle device means all of them, with the device idle again; it is certain if every operation finishes within the polling. |
| BlockDevice.EraseFlash | src/filesystem/filesystem.cpp:48-59 | Ends with an idle device and success; the block ends blank exactly if the device was idle or the block was blank anyway, and no other block changes. |
| BlockDevice.Handle | src/filesystem/filesystem.cpp:31-59 | One request from any state: what it amounts to on the abstract blocks, and whether it leaves the device busy. |
| BlockDevice.Run | src/filesystem/filesystem.cpp:31-59 | Over any sequence of requests, continued past failures, the flash equals the abstract array of 4096 blocks of 4096 bytes after what the requests amounted to, and every read of an idle device returned its contents; without failures every request amounts to itself. |
| BlockDevice.NoFailureNoLoss | src/filesystem/filesystem.cpp:31-59 | Up to the first failure of a run that starts idle, every request amounts to itself and the device stays idle. |
| BlockDevice.OtherBlocksKept | src/filesystem/filesystem.cpp:79-103 | Whatever fails in a run, blocks that no request addressed keep their contents. |
| BlockDevice.EraseAfterTimeout | src/filesystem/filesystem.cpp:48-59 | After a timed-out write that left the device busy, the next erase succeeds and its block is blank exactly if it was after what the write sent; for another block, exactly if it was before. |
| BlockDevice.ProgramReadsBack | src/filesystem/filesystem.cpp:79-103 | Erase, then program, with any requests to other blocks in between and after: a read returns the data. |
| BlockDevice.OthersLeaveAlone | src/filesystem/filesystem.cpp:79-103 | Requests to other blocks leave a block alone. |
| BlockDevice.DifferentBlocksCommute | src/filesystem/filesystem.cpp:79-103 | Requests to different blocks commute. |
| DebugBridge.StepInv | src/debug/debug_tcp_interface.cpp:51-94 | Every enabled step of any thread keeps the whole invariant. |
| DebugBridge.RunInv | src/debug/debug_tcp_interface.cpp:51-94 | Every run keeps it. |
| DebugBridge.BridgeSafe | src/debug/debug_tcp_interface.cpp:51-94 | Over every run each callback write went to a descriptor accepted and not yet closed; the client is read and its bytes fed to the driver only in raw mode, from the session's own descriptor, the only one open and published to the callback; while accepting, configuring or closing, raw mode is off and none is published. |
| DebugBridge.SessionsInOrder | src/debug/debug_tcp_interface.cpp:51-83 | Over every run the accept thread's events form sessions: accept, setsockopt, close if that failed, else raw mode on, each read of n > 0 bytes followed by feeding exactly n bytes and the next read, an empty read by raw mode off and close. Every answer of IsRawMode was right when copied. |
| DebugBridge.OutputCall | src/debug/debuggable_driver.cpp:13-19 | Over every run, one call of RawDataOutput writes nothing if no callback is set at its test; if one is set it gets to the descriptor test, and writes exactly once, to the open descriptor found there, or not at all if none is published. |
| DebugBridge.QueryCall | src/debug/debuggable_driver.cpp:27-32 | One call of IsRawMode returns the raw mode of a moment during the call and does nothing else. |
| DebugBridge.SetCall | src/debug/debuggable_driver.cpp:21-25 | After one call of SetRawDataCallback a callback is set, for good. |
| DebugBridge.NoDeadlock | src/debug/debug_tcp_interface.cpp:65-94 | In every reachable state the holder of the socket mutex can move and the holder of the driver mutex can move or waits only for it, so every thread is at most two waits from one that can move. |
| DebugBridge.HoldersAdvance | src/debug/debuggable_driver.cpp:7-33 | Every step of a mutex's holder brings its release closer by a fixed rank and nobody else's step sets it back. |
| JsonEscape.RoundTrip | src/json_utils.hpp:20-60 | Decoding the escape of any byte string by section 7 of RFC 8259 gives it back; in particular it holds no unescaped quote. |
| JsonEscape.EscapeInjective | src/json_utils.hpp:20-60 | Different strings have different escapes. |
| JsonEscape.NoControlBytes | src/json_utils.hpp:35-44 | The escape holds no byte below 0x20. |
| JsonEscape.Shortest | src/json_utils.hpp:23-50 | The escape is shortest: no shorter string of section 7 of RFC 8259 stands for the same bytes. |
| JsonEscape.PlainUnchanged | src/json_utils.hpp:45-48 | A text comes out unchanged exactly if it has no quote, no backslash and no byte below 0x20. |
| JsonEscape.SpecialEscapes | src/json_utils.hpp:27-44 | The escapes of the other bytes: the two-character ones, and \u00 with two upper-case digits for the remaining control bytes. |
| JsonEscape.CutDecodes | src/json_utils.hpp:53-59 | A cut output is a JSON string exactly if the cut does not fall inside an escape sequence, and then it stands for the characters before the cut. |
| JsonEscape.CopyReplacement | src/json_utils.hpp:53-59 | The inner loop appends the replacement, or its first bytes and a NUL where only the NUL still fits, and touches nothing beyond. |
| JsonEscape.WriteEscaped | src/json_utils.hpp:19-63 | The loops write the first min(escape length, capacity - 1) bytes of the escape, then a NUL, and touch nothing after it. |
| JsonEscape.EscapeStringInto | src/json_utils.hpp:14-64 | For every input, null included, and every capacity, zero included, the result and the whole buffer are those of the bounded escape. |
| ImuRegisters.Imu.PinInt1RouteSet | ext/LSM6DS3TR-C-PID/lsm6ds3tr-c_reg.c:2710-2824 | In whatever bank is selected and wherever a fault hits, a prefix of the five register writes took effect and nothing else changed; the call succeeds, with all five, exactly if no bus access failed. With the user bank selected, success leaves each field of the route at its own bit of its own register, the enable bit following the activity events of both pins, and every other bit of all three banks as it was. |
| ImuRegisters.Imu.PinInt2RouteSet | ext/LSM6DS3TR-C-PID/lsm6ds3tr-c_reg.c:2894-2994 | The same for the second pin and its four writes. |
| ImuRegisters.Int1Routed | ext/LSM6DS3TR-C-PID/lsm6ds3tr-c_reg.c:2721-2821 | From any register contents, the five writes leave each event at its own bit of MD1_CFG, the control byte in INT1_CTRL, den_drdy_int1 in CTRL4_C and MASTER_CONFIG, and all other bits kept. |
| ImuRegisters.Int2Routed | ext/LSM6DS3TR-C-PID/lsm6ds3tr-c_reg.c:2905-2991 | The same for MD2_CFG, INT2_CTRL and wrist_tilt in DRDY_PULSE_CFG_G. |
| ImuRegisters.Int1Order | ext/LSM6DS3TR-C-PID/lsm6ds3tr-c_reg.c:2710-2824 | Stopped after k writes, the call has finished with the first k of INT1_CTRL, MD1_CFG, CTRL4_C, MASTER_CONFIG and TAP_CFG, and touched nothing else. |
| ImuRegisters.Int2Order | ext/LSM6DS3TR-C-PID/lsm6ds3tr-c_reg.c:2894-2994 | The same for INT2_CTRL, MD2_CFG, DRDY_PULSE_CFG_G and TAP_CFG. |
| ImuRegisters.Int1Consistent | ext/LSM6DS3TR-C-PID/lsm6ds3tr-c_reg.c:2790-2816 | However the device stood before, the writes leave interrupts_enable set exactly if an activity bit is set in MD1_CFG or MD2_CFG. |
| ImuRegisters.Int2Consistent | ext/LSM6DS3TR-C-PID/lsm6ds3tr-c_reg.c:2955-2985 | The same for the second pin. |
| ImuRegisters.InterruptedInt1 | ext/LSM6DS3TR-C-PID/lsm6ds3tr-c_reg.c:2710-2824 | After a fault the bit is still consistent exactly if MD1_CFG was not reached, all writes were made, or the bit already said what was asked. |
| ImuRegisters.InterruptedInt2 | ext/LSM6DS3TR-C-PID/lsm6ds3tr-c_reg.c:2894-2994 | The same for the second pin. |
| ImuRegisters.StoppedInt1 | ext/LSM6DS3TR-C-PID/lsm6ds3tr-c_reg.c:2710-2824 | The same from any state: before the event register is reached the bit is worth what it was. |
| ImuRegisters.StoppedInt2 | ext/LSM6DS3TR-C-PID/lsm6ds3tr-c_reg.c:2894-2994 | The same for the second pin. |
| ImuRegisters.AnyInterruptionInt1 | ext/LSM6DS3TR-C-PID/lsm6ds3tr-c_reg.c:2710-2824 | The bit stays consistent whatever the fault exactly if it already says what the call asks for. |
| ImuRegisters.AnyInterruptionInt2 | ext/LSM6DS3TR-C-PID/lsm6ds3tr-c_reg.c:2894-2994 | The same for the second pin. |
| ImuRegisters.DrdyOnInt1 | ext/LSM6DS3TR-C-PID/lsm6ds3tr-c_reg.c:2784-2788 | drdy_on_int1 ends up as the caller's drdy_on_int1 exactly if den_drdy_int1 is set alike. |
| ImuRegisters.Imu.TapFieldSet | ext/LSM6DS3TR-C-PID/lsm6ds3tr-c_reg.c:3598-3615 | Such a setter changes its field of TAP_CFG and nothing else or, on a fault, possibly nothing; it succeeds exactly if no access failed. |
| ImuRegisters.TapFieldReadsBack | ext/LSM6DS3TR-C-PID/lsm6ds3tr-c_reg.c:3598-3713 | Each of these fields reads back from its own bits of TAP_CFG, cut to its width, and all other bits are kept. |
| ImuRegisters.Imu.MemBankSet | ext/LSM6DS3TR-C-PID/lsm6ds3tr-c_reg.c:1385-1402 | Selects the bank in the top three bits and keeps the rest; a fault leaves it selected or not. It succeeds exactly if no access failed. |
| ImuRegisters.Imu.BankedFieldSet | ext/LSM6DS3TR-C-PID/lsm6ds3tr-c_reg.c:5843-5869 | Wherever a fault hits, a prefix of bank selection, field write and return to the user bank took effect and nothing else changed, in particular no user register but FUNC_CFG_ACCESS, although the addresses alias user ones; the call succeeds, with all of it, exactly if no access failed. |
| ImuRegisters.Imu.BankedFieldGet | ext/LSM6DS3TR-C-PID/lsm6ds3tr-c_reg.c:5879-5900 | The same with no write in between; success returns the field of bank A. |
| ImuRegisters.FieldReadsBack | ext/LSM6DS3TR-C-PID/lsm6ds3tr-c_reg.c:5843-5900 | A banked field that was set reads back as the value given, cut to the field's width. |
| ImuRegisters.FieldLayout | ext/LSM6DS3TR-C-PID/lsm6ds3tr-c_reg.c:5843-6122 | Which register and bits of bank A each field lies in, and that setting it keeps the other bits. |
| ImuRegisters.OtherFieldsKept | ext/LSM6DS3TR-C-PID/lsm6ds3tr-c_reg.c:5994-6122 | Setting a field keeps the other fields of its register. |
| ImuRegisters.Imu.BankedBlockSet | ext/LSM6DS3TR-C-PID/lsm6ds3tr-c_reg.c:6727-6747 | The same for raw blocks of banks A and B, byte by byte. |
| ImuRegisters.Imu.BankedBlockGet | ext/LSM6DS3TR-C-PID/lsm6ds3tr-c_reg.c:6756-6776 | The same with no write; success returns exactly the banked bytes. |
| ImuRegisters.BlockRoundTrip | ext/LSM6DS3TR-C-PID/lsm6ds3tr-c_reg.c:6727-6776 | A block that was set reads back from its bank, and nothing else of the bank changed. |
| ImuRegisters.BlockLayout | ext/LSM6DS3TR-C-PID/lsm6ds3tr-c_reg.c:6132-6810 | Which bank and registers each raw block is stored in, and that nothing else of either bank changes. |
| ImuRegisters.Imu.AllSourcesGet | ext/LSM6DS3TR-C-PID/lsm6ds3tr-c_reg.c:822-880 | The same for the source registers and the tilt mask of bank B. |
| ImuRegisters.Imu.SlaveCfgRead | ext/LSM6DS3TR-C-PID/lsm6ds3tr-c_reg.c:7545-7750 | The same with three writes: address with the read bit, sub-address and operation count of slave n. |
| ImuRegisters.Imu.SlaveCfgWrite | ext/LSM6DS3TR-C-PID/lsm6ds3tr-c_reg.c:7497-7532 | The same for writing through slave 0. |
| ImuRegisters.SlaveLayout | ext/LSM6DS3TR-C-PID/lsm6ds3tr-c_reg.c:7497-7750 | Where a slave's address with its read or write bit, sub-address, operation count and data go, the other bits of the configuration kept. |
| ImuRegisters.Imu.MagOffsetSet | ext/LSM6DS3TR-C-PID/lsm6ds3tr-c_reg.c:6785-6810 | The same for the six offset bytes; after success the offset registers decode to exactly the values given. |
| ImuRegisters.Imu.MagOffsetGet | ext/LSM6DS3TR-C-PID/lsm6ds3tr-c_reg.c:6820-6845 | Success returns the values the registers decode to, so a set is read back. |
| ImuRegisters.Imu.Perform | ext/LSM6DS3TR-C-PID/lsm6ds3tr-c_reg.c:2710-2824 | Every modelled call leaves a prefix of its writes and succeeds, leaving what its specification says, exactly if no access failed; banked calls keep the user registers in any case. |
| ImuRegisters.BankedAfter | ext/LSM6DS3TR-C-PID/lsm6ds3tr-c_reg.c:1385-1402 | All steps of a banked call together are its specification. |
| ImuRegisters.PartlyBank | ext/LSM6DS3TR-C-PID/lsm6ds3tr-c_reg.c:1385-1402 | Which bank a banked call stopped after any number of its steps leaves selected, and that the user registers are kept. |
| ImuRegisters.StrandedIff | ext/LSM6DS3TR-C-PID/lsm6ds3tr-c_reg.c:1385-1402 | Started in the user bank, it ends there exactly if none or all of its steps took effect. |
| ImuRegisters.Imu.Run | ext/LSM6DS3TR-C-PID/lsm6ds3tr-c_reg.c:2710-2994 | A series of calls, continued past failures, leaves the fold of their prefixes; all succeed, leaving the series of specifications, exactly if no access failed. |
| ImuRegisters.CallKeeps | ext/LSM6DS3TR-C-PID/lsm6ds3tr-c_reg.c:1385-1402 | Each kind of call: which bank is selected afterwards, and when the enable bit is consistent afterwards. |
| ImuRegisters.RunConsistent | ext/LSM6DS3TR-C-PID/lsm6ds3tr-c_reg.c:2710-2994 | Over any run of successful calls from any state: the enable bit ends up consistent exactly if it was at the start or some call routed events in the user bank, and the user bank is selected at the end exactly if it was at the start or some call was banked. |
| ImuRegisters.CallStopped | ext/LSM6DS3TR-C-PID/lsm6ds3tr-c_reg.c:2710-2824 | Each kind of call, stopped after any number of writes: which bank is selected, and when the enable bit is right. |
| ImuRegisters.FaultyRunEnable | ext/LSM6DS3TR-C-PID/lsm6ds3tr-c_reg.c:2710-2994 | Over any run with any faults the enable bit is right at the end exactly if the last routing call that reached its event register in the user bank was completed or asked for what the bit said; without such a call, exactly if it was right before. |
| ImuRegisters.FaultyRunBank | ext/LSM6DS3TR-C-PID/lsm6ds3tr-c_reg.c:1385-1402 | Over any run with any faults the bank at the end is decided by the last banked call of which a write took effect: the user bank if it was completed, its own if not. |
| ImuRegisters.StrandedRoute | ext/LSM6DS3TR-C-PID/lsm6ds3tr-c_reg.c:2710-2824 | With another bank left selected a completed routing call changes no user register; in bank A it overwrites a sensor-hub register. |
| ImuRegisters.FaultStrandsRoute | ext/LSM6DS3TR-C-PID/lsm6ds3tr-c_reg.c:2710-2824 | A banked call started in the user bank and stopped anywhere between its first and last step leads there: the next routing call routes nothing. Stopped earlier or later, it does not. |
| Mkdirp.TargetDropsName | src/filesystem/file.cpp:32-44 | The created path is the path without its last component, unless its only slash is the leading one: then it is the whole path. |
| Mkdirp.TruncationHarmless | src/filesystem/file.cpp:28-30 | Cutting the path to 255 characters keeps what is to be created exactly if the path fits, its last slash does and is not the leading one, or the last slash is at 255 and the only other is the leading one. |
| Mkdirp.NormalisedRequests | src/filesystem/file.cpp:46-59 | For a normalised path the mkdir calls are its ancestors and itself, shortest first, once each. |
| Mkdirp.NamesAreProper | src/filesystem/file.cpp:46-59 | The names of a path are never empty and hold no slash. |
| Mkdirp.JoinsBack | src/filesystem/file.cpp:46-59 | The names of a normalised path, joined by slashes, are the path. |
| Mkdirp.ExtraSlash | src/filesystem/file.cpp:46-59 | A slash after another one or at the end does not change the names of a path. |
| Mkdirp.FileSystem.FindLastSlash | src/filesystem/file.cpp:33-38 | The scan finds the last slash, or none. |
| Mkdirp.FileSystem.MakeNext | src/filesystem/file.cpp:49-53 | One mkdir whose parent was asked for never finds the parent missing, and fails only by a fault of the file system or below a regular file. |
| Mkdirp.FileSystem.MakeCut | src/filesystem/file.cpp:48-54 | The buffer cut at a slash names exactly the ancestor before it, and only that position of the buffer changes. |
| Mkdirp.FileSystem.MakeParents | src/filesystem/file.cpp:46-57 | The loop asks for every ancestor in order, stops at the first failure with exactly the earlier ones made, and restores the buffer. |
| Mkdirp.FileSystem.MakeAll | src/filesystem/file.cpp:46-63 | Parents, then the target: without a fault it succeeds exactly if no ancestor is a regular file; then all requests were made, every ancestor is a directory, and the target is one unless it is a file. |
| Mkdirp.FileSystem.Mkdirp | src/filesystem/file.cpp:23-64 | For every path, null and relative ones included: the directories added are exactly a prefix of the target's ancestors (all on success), the tree stays prefix-closed and a missing parent is never reported; a fault is reported exactly if a mkdir failed by one, and otherwise it succeeds exactly if no ancestor of the target is a regular file. |
| Mkdirp.MadeTwice | src/filesystem/file.hpp:79-85 | After a success another call for the same path adds nothing, however far it gets. |
| PowerManagement.SaboRobot.OnPowerManagement | robots/src/sabo_robot.cpp:151-185 | A call that fails a guard asks nothing of the charger; any other follows the clamped adapter limit with hysteresis and the clamped charge limit exactly. While no access fails, a register holds the remembered limit afterwards exactly if a new one was asked for or it did before. |
| PowerManagement.LimitsMean | robots/src/sabo_robot.cpp:156-184 | The guards and limits in numbers: both currents present and positive; what the system current leaves after the DC/DC current and 0.2 A, or the nearest of 0.3 A and the board's limit; the configured charge current, or 2.5 A without one, up to the board's limit. |
| PowerManagement.Charger.SetAdapterCurrent | src/drivers/charger/bq_2576/bq_2576.cpp:249-260 | On a working bus the register takes the request, raised to 0.4 A and cut to a whole step; on a fault it may keep its value. Without a sense resistor nothing happens. |
| PowerManagement.Charger.SetChargingCurrent | src/drivers/charger/bq_2576/bq_2576.cpp:228-247 | The same for the charge current and the current pin, which may be set although the current was not. |
| PowerManagement.Charger.Init | src/drivers/charger/bq_2576/bq_2576.cpp:15-65 | Success means the chip identified itself and both registers are at their reset values; it succeeds whenever the chip identifies itself and no access fails. |
| PowerManagement.Charger.Configure | src/services/power_service/power_service.cpp:104-173 | Success means the adapter register is at its reset value and the charge register holds the code of the configured current, or of 2.5 A without one; unless overridden, of 3.9 A where that is less, so that it holds no more. |
| PowerManagement.Charger.Monitor | src/services/power_service/power_service.cpp:180-221 | Keeps the registers; succeeds if no access fails, and otherwise only if the one that failed was the read of the fault status. |
| PowerManagement.SaboRobot.UpdateCharger | src/services/power_service/power_service.cpp:98-237 | A configured charger is only monitored and its registers kept; any other is configured anew, behind the callback's back. |
| PowerManagement.SaboRobot.Update | src/services/power_service/power_service.cpp:70-77 | One tick: after a reset the adapter register is right again exactly if the limit left the 50 mA around the remembered one or the reset value happens to be right, and the charge register exactly if the limit changed or the configured current has the same code; without a reset, exactly if asked anew or right before. |
| PowerManagement.SaboRobot.SameSampleAfterReset | src/services/power_service/power_service.cpp:219-225 | Witness: after a reset with an unchanged sample the callback asks for nothing, and the registers stay at the reset value and the configured current. |
| PowerManagement.OverrideExceeds | src/services/power_service/power_service.cpp:124-140 | Witness: with the override and 20 A configured that is above every board's limit. |
| PowerManagement.SaboRobot.Run | src/services/power_service/power_service.cpp:70-77 | Over any ticks with failures and resets: the callback is reached at every tick as long as nothing fails and the charger identifies itself; every request is within the board's limits and their number bounded by the limits' total movement; until an access fails, a configured charger holds what was last asked for since its reset, or else its reset value and the configured current; and after a call that passes the guards, registers that are right are within 0.4 A and the board's limits and keep the margin exactly under its condition. |
| PowerManagement.HeldBounds | src/drivers/charger/bq_2576/bq_2576.cpp:244-259 | Both setters agree on the boards' sense resistor, need no more than 16 bits up to 10 A, and hold the request raised to 0.4 A less than one step short. |
| PowerManagement.ChargeHeld | src/drivers/charger/bq_2576/bq_2576.cpp:244-246 | The charger holds no more than was asked exactly for requests of at least 0.4 A, and exactly it for whole steps among them. |
| PowerManagement.BoardLimitHeld | src/drivers/charger/bq_2576/bq_2576.cpp:244-259 | A request within the board's limit is held within it. |
| PowerManagement.RegisterGap | robots/src/sabo_robot.cpp:165-172 | An adapter register that holds the last request is at most 50 mA above the last limit exactly if that is at least 0.35 A, and less than 100 mA below it. |
| PowerManagement.MarginKept | robots/src/sabo_robot.cpp:156-172 | After every history of limits, an adapter register that holds the last request plus the DC/DC current stays 0.15 A below the system current exactly if system - dcdc - 0.2 A is at least 0.35 A. |
| PowerManagement.MarginMissed | robots/src/sabo_robot.cpp:156-172 | Witness: with 1.5 A and 1.0 A, which leave the callback's own minimum of 0.3 A, it never does. |
| PowerManagement.WriteRepeated | robots/src/sabo_robot.cpp:169-172 | A request, lost or not, is made again exactly when the limit leaves the 50 mA around it. |
| PowerManagement.WritesAmortised | robots/src/sabo_robot.cpp:152-172 | 50 mA per adapter request plus the current gap never exceed the total variation of the computed limits from zero. |
| PowerManagement.GapBounded | robots/src/sabo_robot.cpp:169-172 | The remembered adapter current is always the last one asked for and within 50 mA of the last limit. |
| PowerManagement.WritesAreLimits | robots/src/sabo_robot.cpp:169-172 | Only computed limits are ever asked for. |
| PowerManagement.WritesApart | robots/src/sabo_robot.cpp:169-172 | Each request moves the current by more than 50 mA. |
| PowerManagement.CopiesChanges | robots/src/sabo_robot.cpp:181-184 | The remembered charge current always equals the last limit and is asked for exactly when that changes. |

## Left out

- Io.Packet.AppendData: does not model the wrap of `size + used_data` in 32 bits, because no buffer of nearly 4 GiB exists.
- Io.IoThread.RunIo: the services' stopped flags are constant during a run, and what a service does with its inbox is not modelled; reception that would block on an empty pool ends the run.
- Mkdirp.FileSystem.Mkdirp: path components `.` and `..` are ordinary names, and limits on name length are part of the unspecified faults.
- PowerManagement.SaboRobot.OnPowerManagement: currents are reals, without infinities and without float rounding, which can move a request at a step's edge to the step below; a reset by the chip's own watchdog shows only when the monitoring fails, and the wait for the end of a reset is one poll.
- DebugBridge.NoDeadlock: `accept`, `read` and `write` are steps that return; a client that never reads can block a write, and with it both mutexes, for as long as TCP waits.
- DebugBridge.OutputCall: does not model which bytes a write carries, nor writes that send only part of them.
- PacketPool.PoolSafe: the packet size is a parameter, because the service framework's configuration is not in the repository; the memory of the pool itself (`memp`) is a list of 25 slots.
- The error return of `read` in the debug bridge, which is stored in an unsigned variable: reads return a count.
- The message header's layout and size are parameters of the I/O thread, because the xbot framework is not in the repository.
- ChibiOS, lwIP, LittleFS and the WSPI and I2C transfers appear only as atomic mutexes, a counting semaphore, socket results, a tree of directories, a flash device and a register file; the LittleFS sources are not in the repository.
- The page mask's bitwise OR is computed bit by bit on unbounded integers; flash offsets stay below 2^24, so 32-bit arithmetic does not wrap.
- The flash driver's identification, reset, bulk erase and memory mapping, and the file system's sync, lock and mount.
- The flash device counts the time it is busy in status reads; the file system reads, and commands it ignores, take none of it.
- The other IMU accessors: single-register getters and setters of the user bank, reads that clear latched sources, conversions to physical units, and the set/get pairs that do not round-trip as written.
- JsonEscape.RoundTrip: the decoder takes bytes from 0x80 on as they are and does not check that they are UTF-8, as section 7 of RFC 8259 is about code points.
- src/json_stream.cpp: its parser is not in the repository.
- EEPROM checksum, board lookup, LED and heartbeat timers, boot discovery, service implementations, robot predicates and configuration headers: easy or not shown.
