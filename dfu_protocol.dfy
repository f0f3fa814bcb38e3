/**
 * The bootloader's Device Firmware Upgrade engine (USB Device Class Specification for Device
 * Firmware Upgrade, version 1.1) as pure functions: one function per handler of `usbdfu.c`,
 * each taking the engine's state to its new state. The class in `usbdfu.dfy` implements these
 * handlers over arrays and is proved equal to them; the lemmas here say what they guarantee.
 */
module DfuProtocol {
  import opened Common
  import opened Peripherals

  // ---------------------------------------------------------------------------
  // Constants
  // ---------------------------------------------------------------------------

  /** `wTransferSize` of the DFU functional descriptor, and the size of both buffers. */
  const TRANSFER_SIZE: nat := 1024

  /** Flash address of block 0: the application image starts 8 KiB into flash. */
  const APP_BASE: nat := 0x0800_2000

  /** `bRequest` codes (section 3, table 3.2 of the DFU 1.1 specification). */
  const DETACH: U8 := 0
  const DNLOAD: U8 := 1
  const UPLOAD: U8 := 2
  const GETSTATUS: U8 := 3
  const CLRSTATUS: U8 := 4
  const GETSTATE: U8 := 5
  const ABORT: U8 := 6

  /** `bStatus` OK: no error condition is present. */
  const STATUS_OK: U8 := 0

  /** `bwPollTimeout`, in milliseconds, reported when a block is about to be written. */
  const DNBUSY_POLL_TIMEOUT: U32 := 100

  // ---------------------------------------------------------------------------
  // State
  // ---------------------------------------------------------------------------

  /** The device states of section 6.1.2 of the DFU 1.1 specification. */
  datatype DfuState =
    | AppIdle | AppDetach | DfuIdle | DnloadSync | DnBusy | DnloadIdle
    | ManifestSync | Manifest | ManifestWaitReset | UploadIdle | Error

  /** The `bState` code of a state. */
  function StateCode(s: DfuState): U8 {
    match s
    case AppIdle => 0
    case AppDetach => 1
    case DfuIdle => 2
    case DnloadSync => 3
    case DnBusy => 4
    case DnloadIdle => 5
    case ManifestSync => 6
    case Manifest => 7
    case ManifestWaitReset => 8
    case UploadIdle => 9
    case Error => 10
  }

  /** The fields of a SETUP packet (`struct usb_setup_data`). */
  datatype SetupData = SetupData(bmRequestType: U8, bRequest: U8, wValue: U16, wIndex: U16, wLength: U16)

  /** The block last received by DNLOAD, waiting to be written (`prog`). */
  datatype Prog = Prog(buf: seq<U8>, len: U16, addr: U32, blocknum: U16)

  /** All state of the engine: `usbdfu_state`, `prog` and the control buffer. */
  datatype Machine = Machine(state: DfuState, prog: Prog, control: seq<U8>)

  /** Both buffers hold `TRANSFER_SIZE` bytes and the pending block fits in its buffer. */
  predicate WellFormed(m: Machine) {
    |m.control| == TRANSFER_SIZE && |m.prog.buf| == TRANSFER_SIZE && m.prog.len <= TRANSFER_SIZE
  }

  /** `bmRequestType` names a class request to an interface, in either direction. */
  predicate IsClassRequest(req: SetupData) {
    req.bmRequestType % 0x80 == 0x21
  }

  /**
   * What the USB stack guarantees the handler: a data stage never exceeds the control buffer,
   * and the length pointer is valid whenever the handler writes through it.
   */
  predicate Admissible(req: SetupData, len: Option<U16>) {
    IsClassRequest(req) ==>
      && (req.bRequest == DNLOAD && len.Some? ==> len.value <= TRANSFER_SIZE)
      && (req.bRequest == GETSTATUS || req.bRequest == GETSTATE ==> len.Some?)
  }

  /** Every byte of both buffers and every field of `prog` is zero. */
  predicate Zeroed(m: Machine) {
    && m.prog.len == 0 && m.prog.addr == 0 && m.prog.blocknum == 0
    && (forall i :: 0 <= i < |m.control| ==> m.control[i] == 0)
    && (forall i :: 0 <= i < |m.prog.buf| ==> m.prog.buf[i] == 0)
  }

  /** The engine as the C start-up code leaves it: the state is DFU idle, all else is zero. */
  function PowerOn(): (m: Machine)
    ensures WellFormed(m) && m.state == DfuIdle && Zeroed(m)
  {
    Machine(DfuIdle, Prog(Fill(TRANSFER_SIZE, 0), 0, 0, 0), Fill(TRANSFER_SIZE, 0))
  }

  // ---------------------------------------------------------------------------
  // usbdfu_getstatus
  // ---------------------------------------------------------------------------

  /** The status, the poll timeout and the state that GETSTATUS reports. */
  datatype StatusPoll = StatusPoll(status: U8, pollTimeout: U32, next: DfuState)

  /** `usbdfu_getstatus`: advances the two synchronisation states, always reports OK. */
  function GetStatus(s: DfuState): (p: StatusPoll)
    ensures p.status == STATUS_OK
    ensures p.pollTimeout < 0x100_0000
    ensures p.pollTimeout != 0 <==> s == DnloadSync
    ensures p.next != s <==> s == DnloadSync || s == ManifestSync
  {
    match s
    case DnloadSync => StatusPoll(STATUS_OK, DNBUSY_POLL_TIMEOUT, DnBusy)
    case ManifestSync => StatusPoll(STATUS_OK, 0, Manifest)
    case _ => StatusPoll(STATUS_OK, 0, s)
  }

  /**
   * The six-byte GETSTATUS reply: status, 24-bit timeout least significant byte first, state,
   * iString. The three timeout bytes give back any timeout below 2^24.
   */
  function StatusReply(p: StatusPoll): (r: seq<U8>)
    ensures |r| == 6 && r[0] == p.status && r[4] == StateCode(p.next) && r[5] == 0
    ensures p.pollTimeout < 0x100_0000 ==>
      r[1] as int + 0x100 * r[2] as int + 0x1_0000 * r[3] as int == p.pollTimeout
  {
    ThreeBytes(p.pollTimeout);
    [ p.status,
      p.pollTimeout % 0x100,
      (p.pollTimeout / 0x100) % 0x100,
      (p.pollTimeout / 0x1_0000) % 0x100,
      StateCode(p.next),
      0 ]
  }

  /** A number below 2^24 is its three low bytes, least significant first. */
  lemma ThreeBytes(t: nat)
    ensures t < 0x100_0000 ==>
      t % 0x100 + 0x100 * ((t / 0x100) % 0x100) + 0x1_0000 * ((t / 0x1_0000) % 0x100) == t
  {
    if t < 0x100_0000 {
      var q := t / 0x100;
      assert t == 0x100 * q + t % 0x100;
      assert t / 0x1_0000 == q / 0x100;
      assert q == 0x100 * (q / 0x100) + q % 0x100;
      assert q / 0x100 < 0x100;
    }
  }

  // ---------------------------------------------------------------------------
  // usbdfu_control_request
  // ---------------------------------------------------------------------------

  /** The handler's return value, the new state, `*len`, and whether `*complete` was set. */
  datatype Outcome = Outcome(handled: bool, machine: Machine, len: Option<U16>, completion: bool)

  /** `usbdfu_control_request`, with `*buf` the control buffer and `len` the data-stage length. */
  function ControlRequest(m: Machine, req: SetupData, len: Option<U16>): (o: Outcome)
    requires WellFormed(m) && Admissible(req, len)
    ensures WellFormed(o.machine)
    ensures !o.handled ==> o.machine == m && o.len == len && !o.completion
  {
    if !IsClassRequest(req) then Outcome(false, m, len, false)
    else if req.bRequest == DNLOAD then
      if len.None? || len.value == 0 then Outcome(true, m.(state := ManifestSync), len, false)
      else
        var n := len.value;
        var prog := m.prog.(buf := m.control[..n] + m.prog.buf[n..], len := n, blocknum := req.wValue);
        Outcome(true, m.(state := DnloadSync, prog := prog), len, false)
    else if req.bRequest == CLRSTATUS then
      Outcome(true, if m.state == Error then m.(state := DfuIdle) else m, len, false)
    else if req.bRequest == ABORT then
      Outcome(true, m.(state := DfuIdle), len, false)
    else if req.bRequest == UPLOAD then
      Outcome(false, m, len, false)
    else if req.bRequest == GETSTATUS then
      var p := GetStatus(m.state);
      Outcome(true, m.(state := p.next, control := StatusReply(p) + m.control[6..]), Some(6), true)
    else if req.bRequest == GETSTATE then
      Outcome(true, m.(control := [StateCode(m.state)] + m.control[1..]), Some(1), false)
    else
      Outcome(false, m, len, false)
  }

  // ---------------------------------------------------------------------------
  // usbdfu_getstatus_complete
  // ---------------------------------------------------------------------------

  /** The flash address of a block, computed as the 32-bit sum the C code performs. */
  function BlockAddress(blocknum: U16): (a: U32)
    ensures a == APP_BASE + blocknum * TRANSFER_SIZE
    ensures a % TRANSFER_SIZE == 0
    ensures a + TRANSFER_SIZE <= 0x1_0000_0000
  {
    assert blocknum * TRANSFER_SIZE <= 0xFFFF * TRANSFER_SIZE;
    assert APP_BASE + blocknum * TRANSFER_SIZE == (0x2_0008 + blocknum) * TRANSFER_SIZE;
    (APP_BASE + blocknum * TRANSFER_SIZE) % 0x1_0000_0000
  }

  /** The half-word at byte offset `i` of a little-endian buffer: `buf[i] | buf[i+1] << 8`. */
  function HalfWordAt(buf: seq<U8>, i: nat): (h: U16)
    requires i + 1 < |buf|
    ensures h % 0x100 == buf[i] && h / 0x100 == buf[i + 1]
  {
    buf[i] as int + 0x100 * buf[i + 1] as int
  }

  /** The half-words programmed for a block: `k` half-words, each followed by a watchdog reset. */
  function Programmed(base: U32, buf: seq<U8>, k: nat): (r: seq<Effect>)
    requires 2 * k <= |buf| && base + |buf| <= 0x1_0000_0000
    ensures |r| == 2 * k
    decreases k
  {
    if k == 0 then []
    else Programmed(base, buf, k - 1)
         + [FlashProgramHalfWord(base + 2 * (k - 1), HalfWordAt(buf, 2 * (k - 1))), IwdgReset]
  }

  /** One more loop iteration appends one program call and one watchdog reset. */
  lemma ProgrammedNext(base: U32, buf: seq<U8>, i: nat)
    requires i % 2 == 0 && i + 2 <= |buf| && base + |buf| <= 0x1_0000_0000
    ensures Programmed(base, buf, (i + 2) / 2)
         == Programmed(base, buf, i / 2) + [FlashProgramHalfWord(base + i, HalfWordAt(buf, i)), IwdgReset]
  {
  }

  /** The number of half-words written for a block of `len` bytes: `i = 0, 2, ...` while `i < len`. */
  function HalfWords(len: nat): nat {
    (len + 1) / 2
  }

  /** The driver calls that write the pending block to flash. */
  function FlashWrite(p: Prog): (w: seq<Effect>)
    requires |p.buf| == TRANSFER_SIZE && p.len <= TRANSFER_SIZE
    ensures |w| == 3 + 2 * HalfWords(p.len)
    ensures w[0] == FlashUnlock && w[1] == FlashErasePage(BlockAddress(p.blocknum)) && w[|w| - 1] == FlashLock
  {
    var base := BlockAddress(p.blocknum);
    [FlashUnlock, FlashErasePage(base)] + Programmed(base, p.buf, HalfWords(p.len)) + [FlashLock]
  }

  /** The new state and the driver calls of one completion. */
  datatype Completion = Completion(machine: Machine, effects: seq<Effect>)

  /** `usbdfu_getstatus_complete`: runs after the GETSTATUS reply has been sent. */
  function Complete(m: Machine): (c: Completion)
    requires WellFormed(m)
    ensures WellFormed(c.machine)
  {
    match m.state
    case DnBusy => Completion(m.(state := DnloadIdle), FlashWrite(m.prog))
    case Manifest => Completion(m, [ScbResetSystem])
    case _ => Completion(m, [])
  }

  // ---------------------------------------------------------------------------
  // usbdfu_sanitise
  // ---------------------------------------------------------------------------

  /** `usbdfu_sanitise`: the state becomes DFU idle; the control buffer and `prog` are zeroed. */
  function Sanitise(m: Machine): (r: Machine)
    ensures WellFormed(r) && r.state == DfuIdle && Zeroed(r)
  {
    PowerOn()
  }

  // ---------------------------------------------------------------------------
  // Sequences of events
  // ---------------------------------------------------------------------------

  /**
   * The data stage of a control transfer: before calling the handler, the USB stack stores the
   * bytes received from the host at the start of the control buffer.
   */
  function Receive(m: Machine, data: seq<U8>): (r: Machine)
    requires WellFormed(m) && |data| <= TRANSFER_SIZE
    ensures WellFormed(r) && r.state == m.state && r.prog == m.prog
    ensures r.control[..|data|] == data && r.control[|data|..] == m.control[|data|..]
  {
    m.(control := data + m.control[|data|..])
  }

  /**
   * What can happen to the engine: a control request with the bytes of its data stage (empty
   * when there is none), a completion, or a re-entry that sanitises it.
   */
  datatype Event =
    | Control(req: SetupData, len: Option<U16>, data: seq<U8>)
    | StatusComplete
    | Reenter

  predicate EventAdmissible(e: Event) {
    e.Control? ==> Admissible(e.req, e.len) && |e.data| <= TRANSFER_SIZE
  }

  /** One event; only a completion calls a driver. */
  function Apply(m: Machine, e: Event): (c: Completion)
    requires WellFormed(m) && EventAdmissible(e)
    ensures WellFormed(c.machine)
    ensures !e.StatusComplete? ==> c.effects == []
  {
    match e
    case Control(req, len, data) => Completion(ControlRequest(Receive(m, data), req, len).machine, [])
    case StatusComplete => Complete(m)
    case Reenter => Completion(Sanitise(m), [])
  }

  /**
   * The state after a sequence of events and all driver calls made along the way; a sequence
   * without a completion never touches the hardware.
   */
  function Run(m: Machine, events: seq<Event>): (c: Completion)
    requires WellFormed(m)
    requires forall i :: 0 <= i < |events| ==> EventAdmissible(events[i])
    ensures WellFormed(c.machine)
    ensures (forall i :: 0 <= i < |events| ==> !events[i].StatusComplete?) ==> c.effects == []
    decreases |events|
  {
    if |events| == 0 then Completion(m, [])
    else
      var first := Apply(m, events[0]);
      var rest := Run(first.machine, events[1..]);
      Completion(rest.machine, first.effects + rest.effects)
  }

  // ---------------------------------------------------------------------------
  // Properties: control requests
  // ---------------------------------------------------------------------------

  /**
   * A request is handled exactly when it is a class request for DNLOAD, CLRSTATUS, ABORT,
   * GETSTATUS or GETSTATE; anything else (another request type, UPLOAD, DETACH or an unknown
   * code) is refused and changes nothing.
   */
  lemma HandledIff(m: Machine, req: SetupData, len: Option<U16>)
    requires WellFormed(m) && Admissible(req, len)
    ensures ControlRequest(m, req, len).handled <==>
      IsClassRequest(req) &&
      (req.bRequest == DNLOAD || req.bRequest == CLRSTATUS || req.bRequest == ABORT
       || req.bRequest == GETSTATUS || req.bRequest == GETSTATE)
    ensures !ControlRequest(m, req, len).handled ==>
      ControlRequest(m, req, len) == Outcome(false, m, len, false)
    ensures req.bRequest == DETACH || req.bRequest == UPLOAD ==> !ControlRequest(m, req, len).handled
  {
  }

  /** DNLOAD without data ends the download: the state becomes MANIFEST-SYNC and `prog` is kept. */
  lemma DnloadEmpty(m: Machine, req: SetupData, len: Option<U16>)
    requires WellFormed(m) && Admissible(req, len)
    requires IsClassRequest(req) && req.bRequest == DNLOAD && (len.None? || len.value == 0)
    ensures var o := ControlRequest(m, req, len);
      o.handled && o.machine == m.(state := ManifestSync) && o.len == len && !o.completion
  {
  }

  /**
   * DNLOAD with `n` bytes copies the control buffer's first `n` bytes into `prog.buf`, leaves
   * the rest of `prog.buf` as it was, records the block number and length, and moves to
   * DNLOAD-SYNC; the control buffer itself is not touched.
   */
  lemma DnloadCopies(m: Machine, req: SetupData, n: U16)
    requires WellFormed(m) && Admissible(req, Some(n))
    requires IsClassRequest(req) && req.bRequest == DNLOAD && n > 0
    ensures var o := ControlRequest(m, req, Some(n));
      && o.handled && !o.completion && o.len == Some(n)
      && o.machine.state == DnloadSync
      && o.machine.control == m.control
      && o.machine.prog.blocknum == req.wValue && o.machine.prog.len == n
      && o.machine.prog.addr == m.prog.addr
      && (forall i :: 0 <= i < n ==> o.machine.prog.buf[i] == m.control[i])
      && (forall i :: n <= i < TRANSFER_SIZE ==> o.machine.prog.buf[i] == m.prog.buf[i])
  {
    var buf := ControlRequest(m, req, Some(n)).machine.prog.buf;
    assert buf == m.control[..n] + m.prog.buf[n..];
    assert forall i :: 0 <= i < n ==> buf[i] == m.control[..n][i];
    assert forall i :: n <= i < TRANSFER_SIZE ==> buf[i] == m.prog.buf[n..][i - n];
  }

  /**
   * GETSTATUS always reports OK, advances DNLOAD-SYNC to DNBUSY (poll again in 100 ms) and
   * MANIFEST-SYNC to MANIFEST, keeps every other state, replies with six bytes ending in the
   * new state and a zero iString, and installs the completion.
   */
  lemma GetStatusReply(m: Machine, req: SetupData, len: Option<U16>)
    requires WellFormed(m) && Admissible(req, len)
    requires IsClassRequest(req) && req.bRequest == GETSTATUS
    ensures var o := ControlRequest(m, req, len);
      var next := o.machine.state;
      && o.handled && o.completion && o.len == Some(6)
      && next == (if m.state == DnloadSync then DnBusy
                  else if m.state == ManifestSync then Manifest
                  else m.state)
      && o.machine.prog == m.prog
      && o.machine.control[0] == STATUS_OK
      && o.machine.control[1] == (if m.state == DnloadSync then 100 else 0)
      && o.machine.control[2] == 0 && o.machine.control[3] == 0
      && o.machine.control[4] == StateCode(next)
      && o.machine.control[5] == 0
      && o.machine.control[6..] == m.control[6..]
  {
    var o := ControlRequest(m, req, len);
    var p := GetStatus(m.state);
    assert o.machine.control == StatusReply(p) + m.control[6..];
  }

  /** GETSTATE puts the state code in the first byte of the reply and changes nothing else. */
  lemma GetStateReply(m: Machine, req: SetupData, len: Option<U16>)
    requires WellFormed(m) && Admissible(req, len)
    requires IsClassRequest(req) && req.bRequest == GETSTATE
    ensures var o := ControlRequest(m, req, len);
      && o.handled && !o.completion && o.len == Some(1)
      && o.machine.state == m.state && o.machine.prog == m.prog
      && o.machine.control[0] == StateCode(m.state)
      && o.machine.control[1..] == m.control[1..]
  {
  }

  /** CLRSTATUS leaves ERROR for DFU idle and changes nothing in any other state; ABORT always returns to DFU idle. */
  lemma ClrStatusAndAbort(m: Machine, req: SetupData, len: Option<U16>)
    requires WellFormed(m) && Admissible(req, len) && IsClassRequest(req)
    ensures req.bRequest == CLRSTATUS ==>
      ControlRequest(m, req, len).machine == (if m.state == Error then m.(state := DfuIdle) else m)
    ensures req.bRequest == ABORT ==>
      ControlRequest(m, req, len).machine == m.(state := DfuIdle)
  {
  }

  // ---------------------------------------------------------------------------
  // Properties: writing a block
  // ---------------------------------------------------------------------------

  /** Distinct blocks have non-overlapping 1024-byte windows (the erased pages on a part with 1 KiB pages). */
  lemma BlockPagesDisjoint(b1: U16, b2: U16)
    requires b1 < b2
    ensures BlockAddress(b1) + TRANSFER_SIZE <= BlockAddress(b2)
  {
    assert b1 * TRANSFER_SIZE + TRANSFER_SIZE <= b2 * TRANSFER_SIZE;
  }

  /** The `j`-th half-word step programs offset `2j` with the buffer's bytes there, then kicks the watchdog. */
  lemma {:induction false} ProgrammedAt(base: U32, buf: seq<U8>, k: nat, j: nat)
    requires 2 * k <= |buf| && base + |buf| <= 0x1_0000_0000 && j < k
    ensures Programmed(base, buf, k)[2 * j] == FlashProgramHalfWord(base + 2 * j, HalfWordAt(buf, 2 * j))
    ensures Programmed(base, buf, k)[2 * j + 1] == IwdgReset
    decreases k
  {
    if j < k - 1 {
      ProgrammedAt(base, buf, k - 1, j);
    }
  }

  /**
   * Writing a block unlocks flash, erases the block's page, programs `(len + 1) / 2` half-words
   * at consecutive even offsets from the page start, each followed by a watchdog reset, and
   * locks flash again.
   */
  lemma FlashWriteShape(p: Prog)
    requires |p.buf| == TRANSFER_SIZE && p.len <= TRANSFER_SIZE
    ensures var w := FlashWrite(p);
      var base := APP_BASE + p.blocknum * TRANSFER_SIZE;
      && |w| == 3 + 2 * HalfWords(p.len)
      && w[0] == FlashUnlock
      && w[1] == FlashErasePage(base)
      && w[|w| - 1] == FlashLock
      && (forall j :: 0 <= j < HalfWords(p.len) ==>
            && w[2 + 2 * j] == FlashProgramHalfWord(base + 2 * j, HalfWordAt(p.buf, 2 * j))
            && w[3 + 2 * j] == IwdgReset)
  {
    var base := BlockAddress(p.blocknum);
    var k := HalfWords(p.len);
    var w := FlashWrite(p);
    var body := Programmed(base, p.buf, k);
    assert w == [FlashUnlock, FlashErasePage(base)] + body + [FlashLock];
    forall j | 0 <= j < k
      ensures w[2 + 2 * j] == FlashProgramHalfWord(base + 2 * j, HalfWordAt(p.buf, 2 * j))
      ensures w[3 + 2 * j] == IwdgReset
    {
      ProgrammedAt(base, p.buf, k, j);
      assert w[2 + 2 * j] == body[2 * j];
      assert w[3 + 2 * j] == body[2 * j + 1];
    }
  }

  /** Every half-word programmed lies inside the 1024-byte window that starts at the erased address. */
  lemma ProgramsStayInPage(p: Prog, j: nat)
    requires |p.buf| == TRANSFER_SIZE && p.len <= TRANSFER_SIZE && j < HalfWords(p.len)
    ensures var base := APP_BASE + p.blocknum * TRANSFER_SIZE;
      var e := FlashWrite(p)[2 + 2 * j];
      e.FlashProgramHalfWord? && base <= e.address && e.address + 2 <= base + TRANSFER_SIZE
  {
    FlashWriteShape(p);
  }

  /**
   * A block of odd length programs one byte past its end: the last half-word takes its high
   * byte from `buf[len]`, which DNLOAD did not write.
   */
  lemma OddLengthPadByte(p: Prog)
    requires |p.buf| == TRANSFER_SIZE && p.len <= TRANSFER_SIZE && p.len % 2 == 1
    ensures var w := FlashWrite(p);
      w[2 + 2 * (HalfWords(p.len) - 1)]
        == FlashProgramHalfWord(APP_BASE + p.blocknum * TRANSFER_SIZE + p.len - 1,
                                p.buf[p.len - 1] as int + 0x100 * p.buf[p.len] as int)
  {
    var k := HalfWords(p.len);
    assert 2 * (k - 1) == p.len - 1;
    var base := BlockAddress(p.blocknum);
    var body := Programmed(base, p.buf, k);
    ProgrammedAt(base, p.buf, k, k - 1);
    assert FlashWrite(p) == [FlashUnlock, FlashErasePage(base)] + body + [FlashLock];
    assert FlashWrite(p)[2 + 2 * (k - 1)] == body[2 * (k - 1)];
  }

  /** The number of effects in `e` that satisfy `keep`. */
  function CountWhere(e: seq<Effect>, keep: Effect -> bool): nat
    decreases |e|
  {
    if |e| == 0 then 0 else CountWhere(e[..|e| - 1], keep) + (if keep(e[|e| - 1]) then 1 else 0)
  }

  lemma {:induction false} CountWhereAppend(x: seq<Effect>, y: seq<Effect>, keep: Effect -> bool)
    ensures CountWhere(x + y, keep) == CountWhere(x, keep) + CountWhere(y, keep)
    decreases |y|
  {
    if |y| == 0 {
      assert x + y == x;
    } else {
      var xy := x + y;
      assert xy[..|xy| - 1] == x + y[..|y| - 1];
      assert xy[|xy| - 1] == y[|y| - 1];
      CountWhereAppend(x, y[..|y| - 1], keep);
      assert CountWhere(xy, keep) == CountWhere(xy[..|xy| - 1], keep) + (if keep(xy[|xy| - 1]) then 1 else 0);
      assert CountWhere(y, keep) == CountWhere(y[..|y| - 1], keep) + (if keep(y[|y| - 1]) then 1 else 0);
    }
  }

  predicate IsProgram(e: Effect) { e.FlashProgramHalfWord? }
  predicate IsErase(e: Effect) { e.FlashErasePage? }
  predicate IsWatchdog(e: Effect) { e.IwdgReset? }

  lemma {:induction false} ProgrammedCounts(base: U32, buf: seq<U8>, k: nat)
    requires 2 * k <= |buf| && base + |buf| <= 0x1_0000_0000
    ensures CountWhere(Programmed(base, buf, k), IsProgram) == k
    ensures CountWhere(Programmed(base, buf, k), IsWatchdog) == k
    ensures CountWhere(Programmed(base, buf, k), IsErase) == 0
    decreases k
  {
    if k > 0 {
      var step := [FlashProgramHalfWord(base + 2 * (k - 1), HalfWordAt(buf, 2 * (k - 1))), IwdgReset];
      ProgrammedCounts(base, buf, k - 1);
      CountPair(step[0], step[1], IsProgram);
      CountPair(step[0], step[1], IsWatchdog);
      CountPair(step[0], step[1], IsErase);
      CountWhereAppend(Programmed(base, buf, k - 1), step, IsProgram);
      CountWhereAppend(Programmed(base, buf, k - 1), step, IsWatchdog);
      CountWhereAppend(Programmed(base, buf, k - 1), step, IsErase);
    }
  }

  lemma CountPair(a: Effect, b: Effect, keep: Effect -> bool)
    ensures CountWhere([a, b], keep) == (if keep(a) then 1 else 0) + (if keep(b) then 1 else 0)
  {
    assert [a, b][..1] == [a];
    assert [a][..0] == [];
    assert CountWhere([a], keep) == CountWhere([], keep) + (if keep(a) then 1 else 0);
    assert CountWhere([a, b], keep) == CountWhere([a], keep) + (if keep(b) then 1 else 0);
  }

  /** Writing a block erases exactly one page and programs as many half-words as it resets the watchdog. */
  lemma FlashWriteCounts(p: Prog)
    requires |p.buf| == TRANSFER_SIZE && p.len <= TRANSFER_SIZE
    ensures CountWhere(FlashWrite(p), IsErase) == 1
    ensures CountWhere(FlashWrite(p), IsProgram) == HalfWords(p.len)
    ensures CountWhere(FlashWrite(p), IsWatchdog) == HalfWords(p.len)
  {
    var base := BlockAddress(p.blocknum);
    var head := [FlashUnlock, FlashErasePage(base)];
    var body := Programmed(base, p.buf, HalfWords(p.len));
    assert FlashWrite(p) == head + body + [FlashLock];
    ProgrammedCounts(base, p.buf, HalfWords(p.len));
    assert head[..1] == [FlashUnlock];
    CountWhereAppend(head, body, IsErase);
    CountWhereAppend(head + body, [FlashLock], IsErase);
    CountWhereAppend(head, body, IsProgram);
    CountWhereAppend(head + body, [FlashLock], IsProgram);
    CountWhereAppend(head, body, IsWatchdog);
    CountWhereAppend(head + body, [FlashLock], IsWatchdog);
  }

  /**
   * The completion writes the pending block only in DNBUSY, then moves to DNLOAD-IDLE keeping
   * `prog`; in MANIFEST it resets the system once; in any other state it does nothing.
   */
  lemma CompleteEffects(m: Machine)
    requires WellFormed(m)
    ensures var c := Complete(m);
      && (m.state == DnBusy ==> c.machine == m.(state := DnloadIdle) && c.effects == FlashWrite(m.prog))
      && (m.state == Manifest ==> c.machine == m && c.effects == [ScbResetSystem])
      && (m.state != DnBusy && m.state != Manifest ==> c == Completion(m, []))
  {
  }

  // ---------------------------------------------------------------------------
  // Properties: reachable states
  // ---------------------------------------------------------------------------

  /** The states the handlers can put the engine in, starting from DFU idle. */
  predicate Reachable(s: DfuState) {
    s == DfuIdle || s == DnloadSync || s == DnBusy || s == DnloadIdle || s == ManifestSync || s == Manifest
  }

  lemma ApplyKeepsReachable(m: Machine, e: Event)
    requires WellFormed(m) && EventAdmissible(e) && Reachable(m.state)
    ensures Reachable(Apply(m, e).machine.state)
  {
  }

  /**
   * From a reachable state no sequence of requests, completions and re-entries leads outside
   * the reachable states: in particular ERROR is never entered, and neither are the
   * application or upload states.
   */
  lemma {:induction false} RunKeepsReachable(m: Machine, events: seq<Event>)
    requires WellFormed(m) && Reachable(m.state)
    requires forall i :: 0 <= i < |events| ==> EventAdmissible(events[i])
    ensures Reachable(Run(m, events).machine.state)
    ensures Run(m, events).machine.state != Error
    decreases |events|
  {
    if |events| > 0 {
      ApplyKeepsReachable(m, events[0]);
      RunKeepsReachable(Apply(m, events[0]).machine, events[1..]);
    }
  }

  /** On every reachable state CLRSTATUS is a no-op that still reports success. */
  lemma ClrStatusInert(m: Machine, req: SetupData, len: Option<U16>)
    requires WellFormed(m) && Admissible(req, len) && Reachable(m.state)
    requires IsClassRequest(req) && req.bRequest == CLRSTATUS
    ensures ControlRequest(m, req, len) == Outcome(true, m, len, false)
  {
  }

  /** Re-entry is the power-on state, whatever the engine was doing; doing it twice is doing it once. */
  lemma SanitiseIsPowerOn(m: Machine)
    ensures Sanitise(m) == PowerOn()
    ensures Sanitise(Sanitise(m)) == Sanitise(m)
    ensures WellFormed(Sanitise(m)) && Reachable(Sanitise(m).state)
  {
  }

  /**
   * A download step end to end: DNLOAD with a data stage of `n > 0` bytes, a GETSTATUS poll,
   * and its completion write exactly the bytes received (padded by the buffer's older bytes) to
   * the block's page, and leave the engine in DNLOAD-IDLE ready for the next block.
   */
  lemma DownloadThenPoll(m: Machine, dn: SetupData, data: seq<U8>, poll: SetupData, pollLen: U16)
    requires WellFormed(m)
    requires IsClassRequest(dn) && dn.bRequest == DNLOAD && 0 < |data| <= TRANSFER_SIZE
    requires IsClassRequest(poll) && poll.bRequest == GETSTATUS
    ensures var events := [Control(dn, Some(|data|), data), Control(poll, Some(pollLen), []), StatusComplete];
      var r := Run(m, events);
      var prog := Prog(data + m.prog.buf[|data|..], |data|, m.prog.addr, dn.wValue);
      && r.machine.state == DnloadIdle
      && r.machine.prog == prog
      && r.effects == FlashWrite(prog)
  {
    var e1 := Control(dn, Some(|data|), data);
    var e2 := Control(poll, Some(pollLen), []);
    RunTwoControlsThenComplete(m, e1, e2);
    DnloadStep(m, dn, data);
    PollStep(Apply(m, e1).machine, poll, pollLen);
  }

  /** Two control requests followed by a completion: only the completion calls drivers. */
  lemma RunTwoControlsThenComplete(m: Machine, e1: Event, e2: Event)
    requires WellFormed(m) && EventAdmissible(e1) && EventAdmissible(e2) && e1.Control? && e2.Control?
    ensures Run(m, [e1, e2, StatusComplete]) == Complete(Apply(Apply(m, e1).machine, e2).machine)
  {
    assert [e1, e2, StatusComplete] == [e1] + [e2, StatusComplete];
    assert [e2, StatusComplete] == [e2] + [StatusComplete];
    var m1 := Apply(m, e1).machine;
    RunCons(m, e1, [e2, StatusComplete]);
    RunCons(m1, e2, [StatusComplete]);
    RunSingle(Apply(m1, e2).machine, StatusComplete);
  }

  /** DNLOAD copies its own data stage into `prog.buf`. */
  lemma DnloadStep(m: Machine, dn: SetupData, data: seq<U8>)
    requires WellFormed(m)
    requires IsClassRequest(dn) && dn.bRequest == DNLOAD && 0 < |data| <= TRANSFER_SIZE
    ensures Apply(m, Control(dn, Some(|data|), data)).machine
         == Receive(m, data).(state := DnloadSync,
                              prog := Prog(data + m.prog.buf[|data|..], |data|, m.prog.addr, dn.wValue))
  {
    assert Receive(m, data).control[..|data|] == data;
  }

  /** GETSTATUS in DNLOAD-SYNC moves to DNBUSY and keeps `prog`. */
  lemma PollStep(m: Machine, poll: SetupData, pollLen: U16)
    requires WellFormed(m) && m.state == DnloadSync
    requires IsClassRequest(poll) && poll.bRequest == GETSTATUS
    ensures Apply(m, Control(poll, Some(pollLen), [])).machine.state == DnBusy
    ensures Apply(m, Control(poll, Some(pollLen), [])).machine.prog == m.prog
  {
    assert Receive(m, []) == m by {
      assert [] + m.control[0..] == m.control;
    }
  }

  /** Running one event is applying it. */
  lemma RunSingle(m: Machine, e: Event)
    requires WellFormed(m) && EventAdmissible(e)
    ensures Run(m, [e]) == Apply(m, e)
  {
    assert Run(Apply(m, e).machine, []).effects == [];
    assert Apply(m, e).effects + [] == Apply(m, e).effects;
  }

  /** Running `[e] + rest` applies `e` and then runs `rest`; a control request calls no driver. */
  lemma RunCons(m: Machine, e: Event, rest: seq<Event>)
    requires WellFormed(m) && EventAdmissible(e) && e.Control?
    requires forall i :: 0 <= i < |rest| ==> EventAdmissible(rest[i])
    ensures Run(m, [e] + rest) == Run(Apply(m, e).machine, rest)
  {
    assert ([e] + rest)[0] == e;
    assert ([e] + rest)[1..] == rest;
  }
}
