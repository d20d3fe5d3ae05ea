# tc360 touchkey: the in-system-programming engine

A Dafny model of the firmware-flashing core of the CORERIVER TC360 touchkey
driver (`drivers/input/keyboard/tc360-touchkey.c`), with proofs about it.
The driver reprograms the touchkey controller over two GPIO lines that it
bit-bangs as a two-wire bus. It builds each layer on the one below:

- **Line primitives and framing** (`sclhi`, `isp_start`, `isp_stop`).
- **Byte transfer**, most significant bit first, with an acknowledge bit.
- **The 15-bit mode-entry signal** (`isp_sp_signal`).
- **Register transactions** with a shared retry budget (`isp_master_send`, `isp_master_recv`).
- **Fixed debug-instruction sequences** (`raw_dbgir3`, `raw_dbgir2`, `raw_spchl`, `isp_*_set`).
- **The three flash phases**: erase, program and verify.
- **Orchestration**: the update worker with per-phase retries, the decision to flash, and firmware load and unload.
- **Two small pieces outside flashing**: the key decode of the interrupt handler and the guards of suspend and resume.

Modules, one per layer:

- `Bits` (`bits.dfy`): fixed-width integers, the MSB-first bit order, u8 truncation and the C `|` on the error codes.
- `Wire` (`wire.dfy`): the line-level behaviour as pure functions of an oracle `Env`.
  - `Env` answers, for the k-th clock wait, whether SCL rose in time, and for the k-th sample, the SDA level.
  - Each transfer is a `Step`: its result, the `LineEvent`s it caused, and the updated wait and sample counters.
  - Lemmas state what each transfer drives and samples, its timeout condition, the byte round trip, and the retry outcome.
- `Device` (`device.dfy`): `class Tc360`, the fields of `struct tc360_data` that the core reads or writes.
  - Transport methods update the counters and the ghost line trace, and each is proved equal to its `Wire` function.
  - Every register write or read is also recorded in a ghost register-level trace `ops`.
- `Ops` (`ops.dfy`): the register-level view.
  - `Cmds` is what was asked for. `ReadVals` is what the reads returned. `Acked` says every write was acknowledged.
  - It defines the command list of every fixed sequence and of each flash phase, as functions.
- `Registers` (`registers.dfy`): the register-layer write sequences as methods. Each is proved to send its command list and to return `-EIO` exactly when a write was not acknowledged.
- `Flash` (`flash.dfy`): `tc360_erase_fw`, `tc360_write_fw` and `tc360_verify_fw` as loops. Each is proved to send exactly its phase's command list for whatever the controller answered, and to return the source's result for those answers.
- `Coverage` (`coverage.dfy`): reads the command lists back without knowing how they were built. It proves:
  - which flash addresses each phase sets;
  - that the write loads every image byte of the page-rounded length once, in order.
- `Update` (`update.dfy`): the version reads with their power-cycling retries, the retried phases, the worker, the load and unload dispatch, and `tc360_flash_fw` with its decision.
- `Keys` (`keys.dfy`): the key decode of `tc360_interrupt`, and the guards of `tc360_suspend` and `tc360_resume`.

Things outside the model become parameters:

- The bus: `Env` oracle.
- SMBus reads: `Tc360.smbus`, the answers of successive `i2c_smbus_read_byte_data` calls.
- Firmware acquisition: `Update.Fetch`.
- Build configuration: `facTk` for `SEC_FAC_TK`, `multiPcb` for `SUPPORT_MULTI_PCB`, `supportModuleVer` for `SUPPORT_MODULE_VER`.
- The uninitialised `val` of `tc360_verify_fw`: `init`, and `garbage(i)` across the worker's retries.

Behaviour of the code worth noting:

- **Success state.** A successful update sets `STATE_FLASH` (line 861), not a "normal" state.
- **Image length limits.** Neither `TC360_FW_WT_MAX_LEN` (0x3000, line 89) nor any other ceiling on `fw_len` is checked.
- **Page rounding.** Write and verify walk whole 0x20-byte pages, so they read the image past `fw_len` when the last page is partial (lines 660-680, 700-724).
- **Ignored register results.** Write ignores every register result (lines 653-677). Verify checks only the read-back value (lines 694-721). Only the erase polls a status register.
- **Write never fails.** `tc360_write_fw` always returns 0, so its retry budget is never used.
- **Factory downloads.** Under `SEC_FAC_TK`, a failed factory download is marked FAIL and the device is not torn down (lines 885-891).
- **Receive timeouts.** `isp_master_recv` returns 0 even when the byte receive timed out. The negative value is truncated into `*val` (lines 399-402).
- **Address width.** Flash addresses are `u16` (lines 595, 648, 688).

## Model

| member | source | states |
|---|---|---|
| Bits.ToU8 | drivers/input/keyboard/tc360-touchkey.c:399 | the u8 a receive result is stored as: unchanged for 0..255, and congruent to it modulo 256 otherwise |
| Bits.AssembleBound | drivers/input/keyboard/tc360-touchkey.c:321-338 | shifting in n bits from 0 gives a value below 2^n |
| Bits.AssembleMsbFirst | drivers/input/keyboard/tc360-touchkey.c:330-332 | shifting in the n MSB-first bits of x rebuilds x |
| Bits.MsbFirstAssemble | drivers/input/keyboard/tc360-touchkey.c:349-351 | the bits sent for an assembled value are the bits it was assembled from |
| Bits.ByteRoundTrip | drivers/input/keyboard/tc360-touchkey.c:317-378 | a byte goes out as 8 bits, MSB first, and shifting them in gives it back |
| Bits.BitOrZeroOrSelf | drivers/input/keyboard/tc360-touchkey.c:469-472 | `ret \| r` over results that are 0 or -EIO is 0 only when both are, and -EIO otherwise |
| Wire.BitOutLines | drivers/input/keyboard/tc360-touchkey.c:350-359 | one bit out on a clock that rose drives SDA to that bit and samples nothing |
| Wire.BitInLines | drivers/input/keyboard/tc360-touchkey.c:324-334 | one bit in on a clock that rose samples SDA once |
| Wire.AckLines | drivers/input/keyboard/tc360-touchkey.c:361-371 | the acknowledge clock releases SDA and samples it once |
| Wire.SendBitsSemantics | drivers/input/keyboard/tc360-touchkey.c:349-360 | bits i..0 succeed iff every one of their clock waits rose, and then SDA carried exactly the MSB-first bits of c |
| Wire.SendByteSemantics | drivers/input/keyboard/tc360-touchkey.c:341-378 | isp_sendbyte returns ACK iff all nine clocks rose and SDA was low at the acknowledge, -ETIMEDOUT iff some clock did not rise, and otherwise drove the 8 bits then released SDA |
| Wire.SendByteTimeout | drivers/input/keyboard/tc360-touchkey.c:354-369 | a send times out exactly when one of its nine waits does, otherwise it takes nine waits and one sample and acks iff SDA was low |
| Wire.RecvBitsTimeout | drivers/input/keyboard/tc360-touchkey.c:323-328 | a receive times out exactly when one of its clock waits does, otherwise it takes one wait and one sample per bit |
| Wire.RecvBitsValue | drivers/input/keyboard/tc360-touchkey.c:323-338 | without a timeout, the result is the accumulator's bits followed by the sampled levels, assembled MSB first |
| Wire.RecvBitsSampled | drivers/input/keyboard/tc360-touchkey.c:323-333 | without a timeout, the receive sampled SDA once per bit, in order |
| Wire.RecvByteSemantics | drivers/input/keyboard/tc360-touchkey.c:317-339 | isp_recvdbyte times out iff one of its 8 clocks did not rise; otherwise it returns 0..255 whose MSB-first bits are the 8 sampled levels, so 8 levels that spell c give c |
| Wire.ByteOverTheWire | drivers/input/keyboard/tc360-touchkey.c:317-378 | when the receiver samples exactly the levels a completed send drove, it rebuilds the byte that was sent |
| Wire.RetryAttempts | drivers/input/keyboard/tc360-touchkey.c:386-397 | a retry loop makes between 1 and retries+1 attempts, all but the last failed, and it makes every attempt when the last failed |
| Wire.RetryOutcome | drivers/input/keyboard/tc360-touchkey.c:386-402 | a retry loop ends with what follows a successful last attempt, or with the failure value after the last failed attempt |
| Wire.RetrySucceedsIff | drivers/input/keyboard/tc360-touchkey.c:411-432 | a retry loop succeeds iff one of its first retries+1 attempts does |
| Wire.MasterSendResult | drivers/input/keyboard/tc360-touchkey.c:405-436 | isp_master_send returns 0 or -EIO; 0 iff one of its three framed attempts had both bytes acknowledged, and it then ends with STOP |
| Wire.MasterRecvResult | drivers/input/keyboard/tc360-touchkey.c:380-403 | isp_master_recv fails iff none of three attempts got the address acknowledged; otherwise it receives one byte, whatever that returns, and ends with STOP |
| Wire.PulseProjections | drivers/input/keyboard/tc360-touchkey.c:444-455 | one pulse drives SCL to bit i of the signal, pulses SDA low then high, and holds 30 µs only at i == 5 |
| Wire.SpWaitLines | drivers/input/keyboard/tc360-touchkey.c:457-459 | the closing wait releases SCL once, under the iteration-bounded policy |
| Wire.SpTrainScl | drivers/input/keyboard/tc360-touchkey.c:444-447 | the pulse train drives SCL to the signal's bits from bit i down, then releases it |
| Wire.SpTrainSda | drivers/input/keyboard/tc360-touchkey.c:448-451 | the pulse train drives SDA low then high once per bit |
| Wire.SpTrainWaits | drivers/input/keyboard/tc360-touchkey.c:453-459 | the pulse train makes one clock wait, iteration-bounded, and one 30 µs hold when bit 5 is among its bits |
| Wire.SpSignalBits | drivers/input/keyboard/tc360-touchkey.c:81-82 | the 15 bits of 0b010101011111000, most significant first |
| Wire.SpSignalLines | drivers/input/keyboard/tc360-touchkey.c:438-462 | isp_sp_signal drives SCL to 0,1,0,1,0,1,0,1,1,1,1,1,0,0,0 then releases it, pulses SDA 15 times, and makes one bounded wait and one long hold |
| Device.Tc360.constructor | drivers/input/keyboard/tc360-touchkey.c:1738-1836 | the state probe prepares: everything zero, touchkey_enable set, the firmware workqueue created |
| Device.Tc360.SetSda | drivers/input/keyboard/tc360-touchkey.c:228-234 | drives SDA to the level, recorded on the line trace |
| Device.Tc360.SetScl | drivers/input/keyboard/tc360-touchkey.c:236-242 | drives SCL to the level, recorded on the line trace |
| Device.Tc360.GetSda | drivers/input/keyboard/tc360-touchkey.c:244-247 | returns the oracle's next SDA level and counts the sample |
| Device.Tc360.Delay | drivers/input/keyboard/tc360-touchkey.c:454 | records a fixed hold |
| Device.Tc360.SclHi | drivers/input/keyboard/tc360-touchkey.c:272-300 | releases SCL, 0 if it rose in time and -ETIMEDOUT otherwise, with the wait policy that counting_timer selects |
| Device.Tc360.Start | drivers/input/keyboard/tc360-touchkey.c:302-307 | START: SDA low, then SCL low |
| Device.Tc360.Stop | drivers/input/keyboard/tc360-touchkey.c:309-315 | STOP: SDA low, a clock wait whose result is ignored, SDA released |
| Device.Tc360.ClockOut | drivers/input/keyboard/tc360-touchkey.c:350-359 | one bit out continues the byte transfer exactly as SendBits says, or ends it when SCL does not rise |
| Device.Tc360.SendByte | drivers/input/keyboard/tc360-touchkey.c:341-378 | result, line trace and counters are those of SendByteStep |
| Device.Tc360.AckIn | drivers/input/keyboard/tc360-touchkey.c:361-371 | the acknowledge: -ETIMEDOUT if SCL did not rise, ACK if SDA was low, 0 if high |
| Device.Tc360.ClockIn | drivers/input/keyboard/tc360-touchkey.c:323-337 | one bit in continues the receive exactly as RecvBits says, or ends it with -ETIMEDOUT |
| Device.Tc360.RecvByte | drivers/input/keyboard/tc360-touchkey.c:317-339 | result, line trace and counters are those of RecvByteStep |
| Device.Tc360.SendFramed | drivers/input/keyboard/tc360-touchkey.c:411-423 | one framed attempt: START, m1, then m2 only if m1 was acknowledged |
| Device.Tc360.MasterSend | drivers/input/keyboard/tc360-touchkey.c:405-436 | result, trace and counters are those of MasterSendStep with 2 retries; result 0 or -EIO, recorded as one register write |
| Device.Tc360.Send | drivers/input/keyboard/tc360-touchkey.c:405-436 | one register write, 0 or -EIO, recorded with whether it went through |
| Device.Tc360.AddrFramed | drivers/input/keyboard/tc360-touchkey.c:386-390 | one framed attempt: START and the address byte, true iff acknowledged |
| Device.Tc360.RecvAndStop | drivers/input/keyboard/tc360-touchkey.c:399-400 | one byte received, whatever its outcome, then STOP |
| Device.Tc360.MasterRecv | drivers/input/keyboard/tc360-touchkey.c:380-403 | -EIO with *val unchanged when the address is never acknowledged; otherwise 0 with *val the u8 truncation of what the receive returned, timeouts included |
| Device.Tc360.Recv | drivers/input/keyboard/tc360-touchkey.c:380-403 | one register read, 0 or -EIO, *val unchanged on -EIO |
| Device.Tc360.Pulse | drivers/input/keyboard/tc360-touchkey.c:445-454 | one bit of the mode-entry signal on the lines |
| Device.Tc360.SpSignal | drivers/input/keyboard/tc360-touchkey.c:438-462 | the lines are SpSignalEvents; counting_timer is false on return |
| Device.Tc360.ResetForIsp | drivers/input/keyboard/tc360-touchkey.c:572-589 | records the reset into ISP mode |
| Device.Tc360.CyclePower | drivers/input/keyboard/tc360-touchkey.c:764-767 | records one power cycle |
| Device.Tc360.EnterIsp | drivers/input/keyboard/tc360-touchkey.c:599-601 | the reset, then the mode-entry signal |
| Device.Tc360.SmbusReadByte | drivers/input/keyboard/tc360-touchkey.c:760 | returns the next SMBus answer and records the read |
| Registers.Accumulate | drivers/input/keyboard/tc360-touchkey.c:469 | `ret \| sent` is 0 iff both are 0, and -EIO otherwise |
| Registers.OrSend | drivers/input/keyboard/tc360-touchkey.c:469-472 | one more write of a sequence, with the or-ed result 0 iff every write so far was acknowledged |
| Registers.RawDbgir3 | drivers/input/keyboard/tc360-touchkey.c:464-481 | sends 0xC2/0xC4/0xC6 then 0xC0←0x80; 0 iff all four were acknowledged, else -EIO |
| Registers.RawDbgir2 | drivers/input/keyboard/tc360-touchkey.c:483-499 | sends 0xC2/0xC4 then 0xC0←0x80; 0 iff all acknowledged, else -EIO |
| Registers.RawSpchl | drivers/input/keyboard/tc360-touchkey.c:501-516 | sends 0xD0/0xD2; 0 iff both acknowledged, else -EIO |
| Registers.OrDbgir3 | drivers/input/keyboard/tc360-touchkey.c:523-528 | one more debug instruction of a fixed list, result 0 iff every write so far was acknowledged |
| Registers.CommonSetRun | drivers/input/keyboard/tc360-touchkey.c:518-536 | sends the six common debug instructions; 0 iff every write was acknowledged, else -EIO |
| Registers.ErsTimingSet | drivers/input/keyboard/tc360-touchkey.c:538-553 | sends the three erase-timing instructions; 0 iff all acknowledged, else -EIO |
| Registers.PgmTimingSet | drivers/input/keyboard/tc360-touchkey.c:555-570 | sends the three program-timing instructions; 0 iff all acknowledged, else -EIO |
| Ops.EraseBases | drivers/input/keyboard/tc360-touchkey.c:614-639 | an address is the base k * 0x400 of one of the 32 blocks the erase loop walks iff it is a multiple of 0x400 below ER_MAX_LEN (0x8000); Coverage.EraseCoverage carries this to the erase trace |
| Ops.PageWalk | drivers/input/keyboard/tc360-touchkey.c:660-680 | a page starting below fw_len ends within the rounded length, and the page walk stops exactly at it |
| Ops.PageEnd | drivers/input/keyboard/tc360-touchkey.c:667-679 | inside a page, the do-while's `addr % 0x20` test stops exactly at the page end |
| Ops.RoundUpBounds | drivers/input/keyboard/tc360-touchkey.c:660-680 | the rounded length is a page multiple in [fw_len, fw_len + 0x20), and exceeds fw_len iff the last page is partial |
| Flash.SelectRun | drivers/input/keyboard/tc360-touchkey.c:610-612 | the three mode-select writes, results ignored |
| Flash.EraseEntry | drivers/input/keyboard/tc360-touchkey.c:599-612 | ISP entry and common set; -EIO iff the common set was not acknowledged, in which case nothing more is sent; otherwise erase timing (result dropped) and erase mode |
| Flash.PollDcr | drivers/input/keyboard/tc360-touchkey.c:625-635 | reads 0xC1 until 0x12, at most 51 reads checked; gives up on the 52nd read, whatever it returns |
| Flash.StartBlock | drivers/input/keyboard/tc360-touchkey.c:618-622 | the block start commands for addr, results ignored |
| Flash.EraseBlock | drivers/input/keyboard/tc360-touchkey.c:614-640 | one block: its start, then the polls; -ENOSYS iff they ran out |
| Flash.EraseLoop | drivers/input/keyboard/tc360-touchkey.c:614-640 | the 32 blocks in order, each polled to completion, or stopping with -ENOSYS at the first block whose polls ran out |
| Flash.EraseFw | drivers/input/keyboard/tc360-touchkey.c:591-643 | result 0, -EIO or -ENOSYS; -EIO iff the common set failed; otherwise exactly the erase command list for the polls made, and 0 iff all 32 blocks completed (EraseOutcome) |
| Flash.PageStart | drivers/input/keyboard/tc360-touchkey.c:664-665 | a page head: the address, then the channel byte |
| Flash.WriteEntry | drivers/input/keyboard/tc360-touchkey.c:650-658 | ISP entry, common set, program timing and program mode, results ignored |
| Flash.ProgramNext | drivers/input/keyboard/tc360-touchkey.c:668-677 | one byte loaded through 0x74, programmed, the address stepped |
| Flash.ProgramPage | drivers/input/keyboard/tc360-touchkey.c:664-679 | one whole page of the program list; the address ends at the next page |
| Flash.WriteFw | drivers/input/keyboard/tc360-touchkey.c:645-683 | always 0; sends exactly the program head then the bytes 0 .. RoundUp(fw_len)-1 page by page |
| Flash.VerifyEntry | drivers/input/keyboard/tc360-touchkey.c:691-698 | ISP entry, common set (result ignored), read mode |
| Flash.ReadNext | drivers/input/keyboard/tc360-touchkey.c:709-721 | reads one byte back; matches iff the value equals the image byte, and extends the read-back list either way |
| Flash.ReadBackPage | drivers/input/keyboard/tc360-touchkey.c:705-723 | one page read back and compared; -EIO at the first mismatch, with no later address read |
| Flash.VerifyFw | drivers/input/keyboard/tc360-touchkey.c:685-727 | 0 iff the values read back are the image up to the rounded length; -EIO otherwise, at the first mismatch and with nothing read after it (VerifyOutcome) |
| Flash.VerifyMismatch | drivers/input/keyboard/tc360-touchkey.c:716-721 | a read-back stopped at a mismatch is not the image |
| Coverage.EntryQuiet | drivers/input/keyboard/tc360-touchkey.c:599-602 | ISP entry and common set neither set an address nor load a byte |
| Coverage.EraseHeadQuiet | drivers/input/keyboard/tc360-touchkey.c:599-612 | the erase head sets no address and loads no byte |
| Coverage.WriteHeadQuiet | drivers/input/keyboard/tc360-touchkey.c:650-658 | the write head sets no address and loads no byte |
| Coverage.VerifyHeadQuiet | drivers/input/keyboard/tc360-touchkey.c:691-698 | the verify head sets no address and loads no byte |
| Coverage.SetAddressNames | drivers/input/keyboard/tc360-touchkey.c:619 | the 0x90 instruction sets exactly the 16-bit address from its high and low bytes |
| Coverage.PageHeadNames | drivers/input/keyboard/tc360-touchkey.c:664-665 | a page head sets exactly its page address |
| Coverage.StepsLoad | drivers/input/keyboard/tc360-touchkey.c:669-677 | programming one byte loads exactly that byte |
| Coverage.ProgramByteLoads | drivers/input/keyboard/tc360-touchkey.c:664-677 | the byte at a is loaded, and its page is set when a starts one |
| Coverage.ProgramCoverage | drivers/input/keyboard/tc360-touchkey.c:660-680 | programming addresses below n loads exactly data[0..n-1] in order and sets exactly the page bases below n |
| Coverage.WriteCoverage | drivers/input/keyboard/tc360-touchkey.c:645-683 | tc360_write_fw loads exactly the bytes 0 .. RoundUp(fw_len)-1, each once and in order, and sets ceil(fw_len/0x20) page addresses 0, 0x20, ... |
| Coverage.ReadBackNames | drivers/input/keyboard/tc360-touchkey.c:705-714 | reading back one byte loads nothing and sets its page when it starts one |
| Coverage.ReadBackCoverage | drivers/input/keyboard/tc360-touchkey.c:700-723 | reading back addresses below n sets exactly the page bases below n |
| Coverage.VerifyCoverage | drivers/input/keyboard/tc360-touchkey.c:685-727 | a verify that stopped after n bytes has set exactly the page bases below n and loaded nothing |
| Coverage.BlockStartNames | drivers/input/keyboard/tc360-touchkey.c:618-622 | a block start and its polls set exactly the block's address |
| Coverage.EraseBlocksCoverage | drivers/input/keyboard/tc360-touchkey.c:614-640 | k blocks set exactly the block bases 0, 0x400, ... of the first k blocks |
| Coverage.EraseCoverage | drivers/input/keyboard/tc360-touchkey.c:591-643 | a completed erase sets exactly the 32 block bases 0, 0x400, ..., 0x7C00 in order, whatever fw_len is; so it sets an address iff that address is a multiple of 0x400 below 0x8000 |
| Update.VersionRead | drivers/input/keyboard/tc360-touchkey.c:759-772 | a retried read uses 1 to retries+1 answers and returns the last one |
| Update.VersionReadRetries | drivers/input/keyboard/tc360-touchkey.c:759-772 | every answer before the settled one was negative, and a negative result means all retries were spent |
| Update.VersionOpsShape | drivers/input/keyboard/tc360-touchkey.c:759-772 | the trace alternates reads of the command and power cycles: one cycle fewer than reads |
| Update.ReadRetried | drivers/input/keyboard/tc360-touchkey.c:753-773 | returns VersionRead's value with 3 retries and leaves exactly VersionOps on the trace |
| Update.ReadAgain | drivers/input/keyboard/tc360-touchkey.c:763-768 | one retry: power cycle, read again, loop state kept |
| Update.GetFwVer | drivers/input/keyboard/tc360-touchkey.c:753-773 | tc360_get_fw_ver: the retried read of command 0x01 |
| Update.GetModuleVer | drivers/input/keyboard/tc360-touchkey.c:731-751 | tc360_get_module_ver: the retried read of command 0x02 |
| Update.RetryRunOutcome | drivers/input/keyboard/tc360-touchkey.c:787-799 | a phase that failed used all budget+1 attempts, every one negative; one that stopped early succeeded |
| Update.EraseRetried | drivers/input/keyboard/tc360-touchkey.c:787-799 | the erase under 5 retries: a retry run, every result 0, -EIO or -ENOSYS; the register trace is the attempts' traces in order, and each result is what Flash.EraseFw returns for its own trace (AllErased) |
| Update.WriteRetried | drivers/input/keyboard/tc360-touchkey.c:802-814 | the write under 5 retries runs exactly once and succeeds, and its trace programs the whole page-rounded image |
| Update.VerifyRetried | drivers/input/keyboard/tc360-touchkey.c:817-829 | the verify under 5 retries: a retry run, every result 0 or -EIO; the register trace is the attempts' traces in order, and each attempt returned 0 exactly when what it read back was the image (AllVerified) |
| Update.VerifyAttempt | drivers/input/keyboard/tc360-touchkey.c:819 | one verify: result 0 or -EIO, 0 iff the values read back are the image up to the rounded length, with the trace Flash.VerifyFw describes (VerifyOutcome) |
| Update.FlashedVersion | drivers/input/keyboard/tc360-touchkey.c:837-849 | the flashed-version reads from a given SMBus answer form a retry run under the budget, each read using at least one answer |
| Update.VersionRetried | drivers/input/keyboard/tc360-touchkey.c:837-849 | the flashed-version read under 5 retries: its results, the SMBus answers it used and its register trace are FlashedVersion's; a retry run, succeeding iff the last read gave a non-negative version |
| Update.CheckFlashed | drivers/input/keyboard/tc360-touchkey.c:832-849 | a power cycle, then the flashed-version read: the trace is PowerCycle followed by FlashedVersion's trace |
| Update.WriteAndVerify | drivers/input/keyboard/tc360-touchkey.c:802-829 | one write that succeeds, then the verify retry run; the trace is the write's then the verify attempts', as WriteRetried and VerifyRetried state |
| Update.AfterErase | drivers/input/keyboard/tc360-touchkey.c:802-849 | write, verify and, only after a successful verify, the version read; the trace is theirs in order, tied to their results (LaterTraces) |
| Update.Released | drivers/input/keyboard/tc360-touchkey.c:1046-1070 | built-in frees the firmware blob, either SD card frees the buffer, other paths free nothing |
| Update.LoadResult | drivers/input/keyboard/tc360-touchkey.c:1011-1044 | 0 or negative; built-in fails iff request_firmware did, internal SD iff open or allocation did, an unknown path gives -ENOENT |
| Update.LoadedHolding | drivers/input/keyboard/tc360-touchkey.c:915-1009 | built-in holds the blob iff request_firmware returned 0, internal SD holds a buffer iff allocated, other paths hold nothing new |
| Update.LoadFw | drivers/input/keyboard/tc360-touchkey.c:1011-1044 | returns LoadResult, holds LoadedHolding, and points the image at new bytes only on a successful built-in or internal-SD load; fw_img becomes NULL when an internal-SD buffer allocation fails and is otherwise kept (ImgNullAfterLoad) |
| Update.UnloadFw | drivers/input/keyboard/tc360-touchkey.c:1046-1070 | 0 for the four paths and -ENOENT otherwise; frees what Released says |
| Update.LoadUnload | drivers/input/keyboard/tc360-touchkey.c:1011-1070 | except for the external SD card, unloading gives back exactly what loading took |
| Update.ExSdcardUnloadFrees | drivers/input/keyboard/tc360-touchkey.c:1000-1009 | the external SD card loads nothing, yet its unload frees the image buffer |
| Update.LoadFailureHoldsNothing | drivers/input/keyboard/tc360-touchkey.c:954-994 | a failed load holds nothing new and points the image at no new bytes; fw_img is NULL afterwards iff it was NULL before or the internal-SD allocation failed |
| Update.LoadSuccessImage | drivers/input/keyboard/tc360-touchkey.c:1011-1044 | after a successful load fw_img is non-NULL iff the load pointed it at an image or it was non-NULL before |
| Update.Decide | drivers/input/keyboard/tc360-touchkey.c:1092-1110 | skip iff a readable module version differs from the supported one, or the IC's version is at least the image's and the update is not forced |
| Update.DecideFailedRead | drivers/input/keyboard/tc360-touchkey.c:1102 | an unreadable IC version leads to an update unless the module forbids it |
| Update.DecideForce | drivers/input/keyboard/tc360-touchkey.c:1102 | forcing updates every IC whose module allows it |
| Update.DecideMonotone | drivers/input/keyboard/tc360-touchkey.c:1102 | a newer IC is skipped whenever an older one is |
| Update.DecideModuleGate | drivers/input/keyboard/tc360-touchkey.c:1092-1099 | a readable unsupported module is never flashed, forced or not |
| Update.VersionsRead | drivers/input/keyboard/tc360-touchkey.c:1088-1090 | the firmware version read, then a module version exactly on multi-PCB builds |
| Update.ReadVersions | drivers/input/keyboard/tc360-touchkey.c:1088-1090 | the versions, the SMBus answers used and the register trace are those of VersionsRead: the firmware-version reads with their power cycles, then on multi-PCB builds the module-version reads with theirs |
| Update.KeepFirmware | drivers/input/keyboard/tc360-touchkey.c:1122-1131 | factory builds set fw_update_skip; a factory download is marked passed with input re-enabled; another factory case gets STATE_NORMAL; other builds keep the state; the image is unloaded |
| Update.ActOn | drivers/input/keyboard/tc360-touchkey.c:1092-1131 | after the decision: Queue marks the worker queued, clears fw_update_skip on factory builds and returns FW_UPDATE_RUNNING; Skip takes the `out:` path (KeepFirmware) and returns HAVE_LATEST_FW; the interrupt and input-enable flags change only when Skip ends a factory download |
| Update.FlashFw | drivers/input/keyboard/tc360-touchkey.c:1072-1133 | a failed load is returned with nothing else changed, neither the interrupt and input-enable flags nor the register trace; otherwise the register trace is exactly the version reads' (VersionsRead), and Decide on the read versions either queues the worker and returns FW_UPDATE_RUNNING, or keeps the IC's firmware and returns HAVE_LATEST_FW; the interrupt and input-enable flags change only when HAVE_LATEST_FW ends a factory download |
| Update.RunPhases | drivers/input/keyboard/tc360-touchkey.c:787-849 | erase, write, verify and version read in order, each a retry run, each only after the one before succeeded; the register trace is the erase attempts', the write's, the verify attempts', then the power cycle and version reads', each tied to its results (PhaseTraces) |
| Update.Finish | drivers/input/keyboard/tc360-touchkey.c:853-912 | image released and wake lock dropped; success: STATE_FLASH and input enabled; factory download failure: marked failed; other failures: STATE_FLASH_FAIL and the input device torn down |
| Update.FwUpdateWorker | drivers/input/keyboard/tc360-touchkey.c:776-913 | the phases, their results and their register trace are as RunPhases says, and the ending is Finish's for their outcome |
| Update.WorkerFailure | drivers/input/keyboard/tc360-touchkey.c:787-849 | the worker fails only after all 6 erases, all 6 verifies or all 6 version reads came back negative |
| Keys.Decode | drivers/input/keyboard/tc360-touchkey.c:195-222 | index 0 is no button, index 3 is wrong, indexes 1 and 2 are key slots 0 and 1 |
| Keys.Encode | drivers/input/keyboard/tc360-touchkey.c:195-204 | the key byte of a key event has index 1 or 2 |
| Keys.DecodeEncode | drivers/input/keyboard/tc360-touchkey.c:195-204 | decoding an encoded key event gives it back |
| Keys.DecodeSignificant | drivers/input/keyboard/tc360-touchkey.c:195-204 | only bits 0, 1 and 3 matter, and a decoded key encodes back to exactly those bits |
| Keys.Interrupt | drivers/input/keyboard/tc360-touchkey.c:176-226 | nothing while touchkey_enable is clear; otherwise one SMBus read of register 0, nothing on a failed read, else the decoded byte |
| Keys.SuspendGuard | drivers/input/keyboard/tc360-touchkey.c:1969-1992 | suspend proceeds iff no wake lock, no failed flash and input enabled |
| Keys.ResumeGuard | drivers/input/keyboard/tc360-touchkey.c:2034-2050 | resume proceeds iff no wake lock, no failed flash and input disabled |
| Keys.Suspend | drivers/input/keyboard/tc360-touchkey.c:1960-2025 | always 0; disables input and the interrupt when allowed; after a failed flash destroys the firmware workqueue; else changes nothing |
| Keys.Resume | drivers/input/keyboard/tc360-touchkey.c:2027-2076 | always 0; enables the interrupt and input when allowed, else changes nothing |
| Keys.SuspendResume | drivers/input/keyboard/tc360-touchkey.c:1989-2070 | a suspend that proceeds lets the next resume proceed and vice versa, and neither proceeds twice |
| Keys.GuardsAgree | drivers/input/keyboard/tc360-touchkey.c:1970-1987 | while flashing or after a failed flash, neither suspend nor resume touches input |

## Left out

- Timing is not modelled: `udelay`, `usleep_range`, `msleep` and jiffies. A clock wait is an oracle answer (rose in time or not). The fixed holds of the mode-entry pulse train (3, 10, 10 and 30 µs) are recorded as `Hold` events; no other delay is.
- `local_irq_save`/`local_irq_restore` around the mode-entry signal are not modelled. This is interrupt masking, which has no meaning in a sequential model.
- GPIO, power and LED collaborators are recorded as single trace events, `IspReset` and `PowerCycle`, or not at all. This covers the body of `reset_for_isp` and `pdata->power`/`led_power`.
- In suspend, the key-release reports, the LED power-off and the power-off or sleep command are not modelled; they are foreign calls. A failed sleep command only skips to the end, where 0 is returned anyway.
- In resume, the power-on or interrupt-line pulse and the LED power-on are not modelled, for the same reason.
- SMBus traffic is an oracle of answers (`Tc360.smbus`), recorded on the trace. Input reporting in `tc360_interrupt` is its decoded result.
- Firmware acquisition is not modelled: `request_firmware`, `filp_open`, `kzalloc` and `vfs_read`. Their outcomes are inputs (`Update.Fetch`). The image itself is a given header plus bytes.
- `load_fw_in_sdcard` checks `filp_open`'s result against NULL, while the kernel reports failure with an error pointer. The model takes the outcome as given, so it does not capture that such a failure goes undetected.
- Concurrency is not modelled: the mutex in suspend and resume, the workqueue's asynchronous execution and the wake lock's effect on system suspend. The worker runs when called; `wakeLock` and `workQueued` are flags.
- The probe/remove lifecycle, sysfs handlers, the LED worker and the BLN callbacks are outside the flashing core.
- Debug logging is left out, including the worker's success message that prints `ret` where the version was meant.
- Flash.WriteFw: requires `fw_len <= 0xFFE0` and an image of at least the page-rounded length. With a longer `fw_len`, the u16 address wraps to 0 after 0xFFE0 and the loop never ends. With a shorter image, the source reads past the buffer. Neither behaviour is modelled.
- Flash.VerifyFw: requires the same two limits, for the same reasons.
- Flash.WriteFw and Flash.VerifyFw: require fw_img to be non-NULL (`fwImgNull` false), because both dereference it.
- Update.WriteRetried, Update.VerifyRetried, Update.VerifyAttempt, Update.WriteAndVerify, Update.AfterErase, Update.RunPhases and Update.FwUpdateWorker inherit those two requirements, and require fw_img to be non-NULL, as the source dereferences it.
- `TC360_FW_WT_MAX_LEN` is never checked by the source, so the model does not check it either.
- Update.FlashFw: requires fw_img to be non-NULL after a successful load, because line 1102 dereferences it. This also covers the multi-PCB path that skips before that line, where the source would not crash.
- Update.FlashFw: the NULL dereference itself is not modelled.
- After `kfree` or `release_firmware`, fw_img still points at the freed memory. The model does not capture this: `fwImgNull` stays false and `img` keeps the old image, so a later load that loads nothing, from the header or the external SD card, flashes the old bytes in the model. In the source it reads freed memory.
- Update.LoadResult: a positive `request_firmware` result is treated as success, as `tc360_load_fw` does, but the image is then not pointed at the blob, as in `load_fw_built_in`. The model represents this by `LoadsImage` being false.
