# DFU bootloader and image checksum tool, modelled in Dafny

This project models two parts of the Student Robotics STM32 bootloader.

**The Device Firmware Upgrade engine (`usbdfu.c`).** It is the handler behind the
bootloader's USB control endpoint. It follows the USB Device Class Specification for Device
Firmware Upgrade, version 1.1, with the differences listed under "Notes on the code" below.
It keeps three pieces of state:
- the DFU state (`usbdfu_state`);
- the pending block (`prog`: a 1024-byte buffer, its length, an address and a block number);
- the 1024-byte control buffer, into which the USB stack receives each data stage.

It handles the class requests as follows:
- DNLOAD stores a block;
- GETSTATUS reports status and advances the synchronisation states, and it installs a
  completion;
- in DNBUSY, the completion writes the block to flash at `0x08002000 + blocknum * 1024`. It
  unlocks flash, erases the page, programs half-words with a watchdog reset after each, then
  locks flash;
- CLRSTATUS returns 1 in every state and moves ERROR to DFU-IDLE;
- ABORT returns 1 in every state and moves to DFU-IDLE;
- GETSTATE reports the state and changes nothing;
- `usbdfu_sanitise` (run at every start, boot.c:36, and on re-entry, boot.c:59) sets the state
  to DFU-IDLE and zeroes `prog` and the control buffer.

**The offline checksum tool (`crc.cpp`).** It takes the file's bytes from `start` onwards
and byte-swaps every 32-bit word with `htonl`. It then runs `boost::crc_basic<32>` over them
with the parameters of CRC-32/MPEG-2: polynomial 0x04C11DB7, initial value 0xFFFFFFFF, no
reflection and final XOR 0. Finally it either prints the result or, with `-w`, writes it at
file offset `start + 8`.

### Notes on the code

- **DFU 1.1 differences.** Section 6.1 of DFU 1.1 accepts CLRSTATUS only in dfuERROR and
  ABORT only in the idle and synchronisation states. The code accepts both in every state
  (usbdfu.c:195-203): CLRSTATUS answers 1 and changes nothing outside ERROR, and ABORT also
  leaves DNBUSY and MANIFEST for DFU-IDLE. After a block write the completion moves from
  DNBUSY straight to DNLOAD-IDLE, skipping DNLOAD-SYNC (usbdfu.c:164-165).
- **DNLOAD in every state.** Section 6.1 of DFU 1.1 accepts DNLOAD only in dfuIDLE (with data)
  and dfuDNLOAD-IDLE, and a zero-length DNLOAD only in dfuDNLOAD-IDLE. The code accepts DNLOAD
  in every state (usbdfu.c:183-194). A zero-length DNLOAD moves any state, DFU-IDLE included,
  to MANIFEST-SYNC (`DfuProtocol.DnloadEmpty`). A DNLOAD with data moves any state, DNBUSY and
  MANIFEST included, to DNLOAD-SYNC and replaces the pending block
  (`DfuProtocol.DnloadCopies`).
- **Refused requests do not enter dfuERROR.** DFU 1.1 stalls an unsupported or out-of-state
  request and moves to dfuERROR. The code returns 0 for UPLOAD, DETACH, any other request and
  any non-class request, and leaves the state and both buffers as they were
  (`DfuProtocol.HandledIff`).
- **No ERROR state is ever entered.** No handler sets `STATE_DFU_ERROR`, so from the
  power-on state CLRSTATUS never changes anything (`DfuProtocol.ClrStatusInert`).
- **No boot-time check.** The boot decision (boot.c:74) depends only on
  `force_bootloader()`. Nothing at boot verifies the image checksum, so there is no verifier
  to model.
- **The checksum field is hashed as read.** The tool includes the four bytes at `start + 8`
  in the CRC exactly as they are in the file, byte-swapped with the rest of their word
  (`CrcTool.FieldHashedAsRead`). It does not zero them first.
- **CRC parameters.** Polynomial 0x04C11DB7, initial value 0xFFFFFFFF, no reflection and
  final XOR 0 are the parameters of CRC-32/MPEG-2. CRC-32/BZIP2 has the same polynomial and
  initial value but a final XOR of 0xFFFFFFFF.
- **`prog` is kept after a flash write.** The completion leaves `prog` as it is
  (`DfuProtocol.CompleteEffects`); only `usbdfu_sanitise` clears it.

### Files

- `common.dfy`: machine types (`Byte`, `U8`/`U16`/`U32`), `Option`, `Fill` (the effect of
  `memset` and of zero-filled static memory), and little-endian word storage. `Byte` is a
  bit-vector, for the bitwise code of the checksum tool; `U8` is an integer range, for the
  arithmetic of the DFU engine.
- `peripherals.dfy`: class `Chip`. Each libopencm3 driver call the bootloader makes is
  appended to a trace of `Effect`s.
- `dfu_protocol.dfy`: module `DfuProtocol`, the engine as pure functions over a `Machine`
  value. It holds one function per handler, the data stage `Receive`, `Apply` and `Run` over
  sequences of events, and the properties of the protocol.
- `usbdfu.dfy`: module `UsbDfu`, class `DfuDevice`, the engine as the firmware holds it:
  - the fields are the C variables;
  - the buffers are `array`s;
  - the handlers are methods that update them and call the `Chip`.

  Each method's postcondition says that its new state, outputs and driver calls are exactly
  those of the matching `DfuProtocol` function. The programming loop carries its invariant.
- `crc32.dfy`: module `Crc32`, the bit-serial CRC of `crc_basic`. It also holds an
  independent byte-at-a-time reference, proved equal for every register and byte, along with
  the fold, empty-input and check-value properties.
- `crc_tool.dfy`: module `CrcTool`:
  - the word flip, as a function and as the in-place loop over an `array`;
  - the write-back;
  - the whole tool as a function `Tool` and a method `RunTool`;
  - the tool's properties.

## Model

| member | source | states |
|---|---|---|
| Peripherals.Chip.FlashUnlock | usbdfu.c:150 | `flash_unlock()` is recorded as the next driver call |
| Peripherals.Chip.FlashErasePage | usbdfu.c:153 | `flash_erase_page(baseaddr)` is recorded with its page address |
| Peripherals.Chip.FlashProgramHalfWord | usbdfu.c:156 | `flash_program_half_word` is recorded with its address and 16-bit datum |
| Peripherals.Chip.IwdgReset | usbdfu.c:159 | `iwdg_reset()` is recorded as the next driver call |
| Peripherals.Chip.FlashLock | usbdfu.c:162 | `flash_lock()` is recorded as the next driver call |
| Peripherals.Chip.ScbResetSystem | usbdfu.c:169 | `scb_reset_system()` is recorded as the next driver call |
| DfuProtocol.PowerOn | usbdfu.c:41-50 | the engine at start-up: DFU-IDLE, both buffers 1024 zero bytes, and `prog.len`, `prog.addr` and `prog.blocknum` zero |
| DfuProtocol.GetStatus | usbdfu.c:124-140 | `usbdfu_getstatus` always reports OK; the poll timeout is non-zero (100) exactly in DNLOAD-SYNC and always fits in 24 bits; the state changes exactly in DNLOAD-SYNC and MANIFEST-SYNC |
| DfuProtocol.StatusReply | usbdfu.c:208-214 | the reply is six bytes: status, the three timeout bytes, the new state code, 0; the three timeout bytes, least significant first, reassemble to any timeout below 2^24 |
| DfuProtocol.ControlRequest | usbdfu.c:176-227 | the request handler keeps both buffers 1024 bytes long; a refused request leaves the state, `prog`, the control buffer and `*len` as they were and installs no completion |
| DfuProtocol.BlockAddress | usbdfu.c:151-152 | the 32-bit sum `0x08002000 + blocknum * 1024` never wraps for any 16-bit block number, is aligned to 1024 bytes, and the whole 1024-byte window lies below 2^32 |
| DfuProtocol.HalfWordAt | usbdfu.c:155-156 | the half-word read through `(uint16_t *)(prog.buf + i)` on the little-endian core has low byte `buf[i]` and high byte `buf[i+1]` |
| DfuProtocol.Complete | usbdfu.c:142-174 | the completion keeps the buffers well formed |
| DfuProtocol.Sanitise | usbdfu.c:229-237 | whatever the state before, sanitising leaves DFU-IDLE with the control buffer and every field of `prog` zero |
| DfuProtocol.Receive | usbdfu.c:40-41 | the data stage puts the received bytes at the start of the control buffer and leaves the rest of it, the state and `prog` alone |
| DfuProtocol.Apply | usbdfu.c:142-237 | every event (a request with its data stage, a completion, a re-entry) keeps the engine well formed, and only a completion calls a driver |
| DfuProtocol.Run | usbdfu.c:142-237 | a sequence of events keeps the engine well formed, and one without a completion never calls a driver |
| DfuProtocol.Programmed | usbdfu.c:154-161 | `k` loop iterations issue exactly `2k` driver calls |
| DfuProtocol.FlashWrite | usbdfu.c:148-162 | a block write is `3 + 2 * ((len + 1) / 2)` driver calls: unlock first, then the erase of the block's page, and lock last |
| DfuProtocol.HandledIff | usbdfu.c:179-226 | a request is accepted iff it is a class request (`bmRequestType & 0x7F == 0x21`) for DNLOAD, CLRSTATUS, ABORT, GETSTATUS or GETSTATE; UPLOAD, DETACH and unknown codes return 0 and change nothing |
| DfuProtocol.DnloadEmpty | usbdfu.c:184-186 | DNLOAD without data (NULL or zero `len`) moves to MANIFEST-SYNC, returns 1 and leaves `prog` and the buffer alone |
| DfuProtocol.DnloadCopies | usbdfu.c:187-193 | DNLOAD of `n > 0` bytes sets `prog.blocknum = wValue` and `prog.len = n`, makes `prog.buf[0..n)` equal the control buffer's first `n` bytes, leaves `prog.buf[n..)`, `prog.addr` and the control buffer unchanged, and moves to DNLOAD-SYNC |
| DfuProtocol.GetStatusReply | usbdfu.c:207-217 | GETSTATUS reports OK, advances DNLOAD-SYNC to DNBUSY with timeout 100 and MANIFEST-SYNC to MANIFEST with timeout 0, keeps other states with timeout 0, writes exactly six bytes `[status, timeout LSB first ×3, new state, 0]`, sets `*len = 6`, installs the completion and keeps `prog` |
| DfuProtocol.GetStateReply | usbdfu.c:219-223 | GETSTATE writes the state code into byte 0, sets `*len = 1` and changes nothing else |
| DfuProtocol.ClrStatusAndAbort | usbdfu.c:195-203 | CLRSTATUS changes the state only from ERROR to DFU-IDLE; ABORT moves to DFU-IDLE from any state; neither touches `prog` or the buffer |
| DfuProtocol.ClrStatusInert | usbdfu.c:195-199 | in every reachable state CLRSTATUS returns 1 and changes nothing |
| DfuProtocol.BlockPagesDisjoint | usbdfu.c:151-153 | distinct block numbers give disjoint 1024-byte windows, which are the erased pages when a flash page is 1024 bytes |
| DfuProtocol.ProgrammedAt | usbdfu.c:154-161 | iteration `j` programs `base + 2j` with `buf[2j] + 256 * buf[2j+1]` and is followed by one watchdog reset |
| DfuProtocol.ProgrammedCounts | usbdfu.c:154-161 | the loop issues as many program calls as watchdog resets, `k` each, and no erase |
| DfuProtocol.FlashWriteShape | usbdfu.c:148-162 | a block write is: unlock; erase the block's page; `(len + 1) / 2` half-word programs at consecutive even offsets, each followed by a watchdog reset; lock |
| DfuProtocol.FlashWriteCounts | usbdfu.c:148-162 | a block write erases exactly one page and resets the watchdog exactly once per half-word programmed |
| DfuProtocol.ProgramsStayInPage | usbdfu.c:151-156 | every programmed half-word lies inside the 1024-byte window that starts at the erased address |
| DfuProtocol.OddLengthPadByte | usbdfu.c:154-156 | for an odd `len` the last half-word takes its high byte from `buf[len]`, a byte the DNLOAD did not write |
| DfuProtocol.CompleteEffects | usbdfu.c:142-174 | the completion writes the block and moves to DNLOAD-IDLE (keeping `prog`) only in DNBUSY, resets the system exactly once in MANIFEST, and does nothing otherwise |
| DfuProtocol.ApplyKeepsReachable | usbdfu.c:124-237 | no handler leads from a reachable state (DFU-IDLE, DNLOAD-SYNC, DNBUSY, DNLOAD-IDLE, MANIFEST-SYNC, MANIFEST) to an unreachable one |
| DfuProtocol.RunKeepsReachable | usbdfu.c:124-237 | after any sequence of requests, completions and re-entries from a reachable state, the state is reachable and in particular never ERROR |
| DfuProtocol.SanitiseIsPowerOn | usbdfu.c:229-237 | sanitising gives the power-on state (DFU-IDLE, control buffer and every field of `prog` zero), whatever came before, and sanitising twice equals sanitising once |
| DfuProtocol.DownloadThenPoll | usbdfu.c:124-194 | a DNLOAD whose data stage carries `n > 0` bytes, then GETSTATUS, then its completion, write exactly those bytes (followed by the older tail of `prog.buf`) to the block's page, with `prog.len = n` and `prog.blocknum = wValue`, and end in DNLOAD-IDLE |
| DfuProtocol.RunTwoControlsThenComplete | usbdfu.c:142-227 | two requests followed by a completion end as the completion of the state the two requests leave |
| DfuProtocol.DnloadStep | usbdfu.c:183-193 | a DNLOAD event with `n > 0` data bytes leaves DNLOAD-SYNC with `prog` holding exactly those bytes, then the older tail of `prog.buf` |
| DfuProtocol.PollStep | usbdfu.c:128-131 | a GETSTATUS event in DNLOAD-SYNC moves to DNBUSY and keeps `prog` |
| UsbDfu.DfuDevice.View | usbdfu.c:41-50 | the fields of a valid device form a well-formed engine state |
| UsbDfu.DfuDevice.constructor | usbdfu.c:41-50 | static initialisation: state DFU-IDLE, both buffers and `prog` zero |
| UsbDfu.DfuDevice.GetStatus | usbdfu.c:124-140 | `usbdfu_getstatus` returns status, timeout and new state as `DfuProtocol.GetStatus` says and changes only the state |
| UsbDfu.DfuDevice.ControlRequest | usbdfu.c:176-227 | the in-place handler (memcpy into `prog.buf`, writes into the control buffer) gives the return value, new state, `*len` and completion of `DfuProtocol.ControlRequest` |
| UsbDfu.DfuDevice.ReplyStatus | usbdfu.c:207-217 | the six byte writes into the control buffer give exactly `StatusReply` of `usbdfu_getstatus`, keep bytes 6 onwards and move the state as `DfuProtocol.GetStatus` says |
| UsbDfu.DfuDevice.GetStatusComplete | usbdfu.c:142-174 | the in-place completion leaves the state and driver trace of `DfuProtocol.Complete` |
| UsbDfu.DfuDevice.WriteBlock | usbdfu.c:149-162 | the DNBUSY branch appends exactly `FlashWrite(prog)` to the driver trace |
| UsbDfu.DfuDevice.ProgramBlock | usbdfu.c:154-161 | the `for (i = 0; i < prog.len; i += 2)` loop appends `(len + 1) / 2` program/reset pairs, as `Programmed` |
| UsbDfu.DfuDevice.Sanitise | usbdfu.c:229-237 | the memsets and assignment leave the state of `DfuProtocol.Sanitise` |
| Common.LeRoundTrip | crc.cpp:95-96 | a word stored in host byte order reads back as the same word |
| Common.LeBytesOfFromLe | crc.cpp:86 | reading four bytes as a host word and storing it gives the same bytes |
| CrcTool.Htonl | crc.cpp:86 | `htonl` on a little-endian host stores the word's four bytes in reverse order |
| CrcTool.HtonlOfWord | crc.cpp:86 | `htonl` on a little-endian host reverses the byte order of a word |
| CrcTool.HtonlReversesBytes | crc.cpp:84-86 | `ptr[i] = htonl(ptr[i])` turns the four bytes `[a, b, c, d]` in memory into `[d, c, b, a]` |
| CrcTool.FlipWords | crc.cpp:83-86 | the flip preserves length |
| CrcTool.FlipWordsAppend | crc.cpp:83-86 | the flip works word by word: it distributes over concatenation at word boundaries |
| CrcTool.FlipWordsAt | crc.cpp:83-86 | byte `k` of the flipped data is byte `4⌊k/4⌋ + 3 − k mod 4` of the input |
| CrcTool.FlipWordsInvolution | crc.cpp:83-86 | flipping twice is the identity |
| CrcTool.FlipWordAt | crc.cpp:86 | one loop iteration byte-swaps the word at its offset and touches no other byte |
| CrcTool.FlipWordsInPlace | crc.cpp:77-87 | the in-place loop leaves the buffer equal to the flip of its old contents |
| CrcTool.Overwrite | crc.cpp:95-96 | `fseek` + `fwrite` replaces the bytes at the offset, extends a shorter file (zero-filling a gap) and keeps all other bytes |
| CrcTool.Tool | crc.cpp:62-99 | the tool succeeds iff `0 <= start < file size` and the region's size is a multiple of 4; otherwise it fails, with the failed `assert` exactly when `start` is inside the file |
| CrcTool.ReadRegion | crc.cpp:65-75 | `malloc` and `fread` give a fresh buffer holding the bytes from `start` to the end of the file |
| CrcTool.FlipAndChecksum | crc.cpp:77-91 | the flip loop and `crc_basic` leave the buffer flipped and return the checksum of the flipped bytes |
| CrcTool.OverwriteWindow | crc.cpp:95-96 | the written window reads back as the bytes written |
| CrcTool.WriteWordReadsBack | crc.cpp:95-96 | a 32-bit result written at an offset in host byte order reads back from that offset as the same word |
| CrcTool.RunTool | crc.cpp:62-99 | the tool's main path (copy, assert, flip in place, CRC, write or print) has the outcome `Tool` specifies |
| CrcTool.Report | crc.cpp:93-99 | with `-w` the result is written at `start + 8`, otherwise it is printed, as `Tool` specifies |
| CrcTool.ReadOnlyWithoutWrite | crc.cpp:97-98 | without `-w` the file is unchanged and the CRC of the flipped region is printed |
| CrcTool.WriteTouchesOnlyField | crc.cpp:92-96 | with `-w` nothing is printed, only the four bytes at `start + 8` change, and they hold the CRC of the flipped region in host byte order |
| CrcTool.PrefixIgnored | crc.cpp:62-72 | bytes before `start` affect neither success nor the printed result |
| CrcTool.FieldHashedAsRead | crc.cpp:72-90 | the checksum field's current bytes are hashed as read (reversed by the flip), not zeroed |
| Crc32.ProcessBit | crc.cpp:89-90 | one bit step of `crc_basic`: shift left, and XOR in the polynomial exactly when the bit shifted out differs from the incoming bit |
| Crc32.ProcessBits | crc.cpp:89-90 | feeding the top `n` bits of a byte one at a time equals XORing them into the register's top and taking `n` division steps |
| Crc32.ProcessByte | crc.cpp:89-90 | the bit-serial byte step of `crc_basic` equals the byte-at-a-time reference update for every register and byte |
| Crc32.ProcessBytesIsReference | crc.cpp:89-90 | the bit-serial `process_bytes` and the byte-at-a-time reference fold agree for every register and input |
| Crc32.ProcessBytesAppend | crc.cpp:89-90 | the register update is a left fold: `x + y` continues from the register after `x` |
| Crc32.Checksum | crc.cpp:89-91 | `checksum()` of `crc_basic` (initial value 0xFFFFFFFF, final XOR 0, no reflection) equals the independent byte-at-a-time reference CRC of the input |
| Crc32.ChecksumAppend | crc.cpp:89-91 | the checksum of `x + y` is the register after `x` run on over `y` |
| Crc32.ProcessBytesSnoc | crc.cpp:89-90 | one more byte is one more byte step |
| Crc32.ChecksumEmpty | crc.cpp:89-91 | with no input the checksum is the initial value 0xFFFFFFFF |
| Crc32.CheckValue | crc.cpp:89-91 | the checksum of ASCII "123456789" is 0x0376E6E7, the catalogue check value of CRC-32/MPEG-2 |

## Left out

- USB descriptors and strings (usbdfu.c:52-122), the unused `CMD_SETADDR`/`CMD_ERASE`
  (usbdfu.c:29-30) and the `delay` macro (usbdfu.c:32-34) play no part in the handlers.
- `boot.c` is not part of this model. It holds clock, GPIO and USB bring-up, the polling
  loop, the boot decision on the external `force_bootloader()` and the jump to the
  application. `usbdfu.h` is not part of this model either; it only declares things.
- The libopencm3 drivers are not modelled as hardware. Each call is a recorded `Effect`, so
  the contents of flash are not modelled.
- `scb_reset_system()` never returns on the chip. Here it is recorded and control returns.
- The USB stack is not modelled. The model does not enforce which events may follow which:
  `Run` accepts any sequence. Whether the stack calls the installed completion is left to the
  event sequence, as `StatusComplete`.
- The data stage is an argument of each `Control` event, of any length up to 1024 bytes, that
  `Receive` stores in the control buffer before the handler runs. The model does not tie its
  length to the `len` passed to the handler, which the stack sets from the same transfer.
- The `buf` argument of `usbdfu_control_request` is the control buffer registered with the
  stack, so `*buf` is modelled as that buffer.
- DfuProtocol.ControlRequest: requires `Admissible`, which has two parts:
  - GETSTATUS and GETSTATE dereference `len` without a NULL check, so a non-NULL `len` is
    required for them;
  - a DNLOAD data stage longer than 1024 bytes would overflow the buffers, so `len <= 1024` is
    required, as the USB stack guarantees for the control buffer.
- UsbDfu.DfuDevice.ControlRequest: has the same `Admissible` precondition, for the same
  reasons.
- No request handler assigns `prog.addr`; only `usbdfu_sanitise` zeroes it with the rest of
  `prog`. The model carries it along unchanged otherwise.
- The checksum tool's option parsing (`getopt`, `atoi`), `stat`, `fopen`, `fclose` and the
  printing format are not modelled. The file is a byte sequence, and `start` and `-w` are
  parameters.
- CrcTool.Tool: a region of 2 GiB or more, whose size overflows the C `int`, is not
  modelled. Its failure paths are grouped as out-of-memory (`start` beyond the end), short
  read (an empty region or a negative `start`) and the failed `assert` (size not a multiple
  of 4).
- The checksum tool is modelled on a little-endian host, where `htonl` swaps the bytes of a
  word and `fwrite` stores the result least significant byte first (`Htonl`, `FlipWords`,
  `Tool`, `WriteWordReadsBack`). On a big-endian host `htonl` is the identity and `-w` stores
  the checksum most significant byte first; that host is not modelled.
- The flash page is taken to be 1024 bytes, equal to `wTransferSize`, as on the low- and
  medium-density STM32F103 parts with 1 KiB pages. `flash_erase_page` erases whichever
  hardware page holds its argument, and the source fixes no page size. `BlockAddress` (page
  aligned), `BlockPagesDisjoint` and `ProgramsStayInPage` speak of 1024-byte windows and say
  nothing about a part with 2 KiB pages, where erasing an odd block's address also erases the
  block before it.
- The assert at crc.cpp:81 is modelled as active. A build with `NDEBUG` would skip it.
