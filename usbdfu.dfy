/**
 * The DFU engine of `usbdfu.c` as the firmware holds it: module-level variables updated in
 * place (the state, the `prog` record and the 1024-byte control buffer) and handlers that
 * change them and drive the flash peripheral. Each handler is proved to do exactly what the
 * corresponding function of module DfuProtocol says, so the properties proved there hold of
 * the firmware's handlers.
 */
module UsbDfu {
  import opened Common
  import opened Peripherals
  import opened DfuProtocol

  class DfuDevice {
    /** `usbdfu_state`. */
    var state: DfuState
    /** `usbdfu_control_buffer`: the buffer the USB stack receives data stages into and sends replies from. */
    const control: array<U8>
    /** `prog.buf`: the block received by the last DNLOAD. */
    const progBuf: array<U8>
    /** `prog.len`, `prog.addr` and `prog.blocknum`. */
    var progLen: U16
    var progAddr: U32
    var progBlocknum: U16
    /** The flash controller, watchdog and system control block the handlers drive. */
    const chip: Chip

    /** Both buffers are 1024 bytes, distinct, and the pending block fits in its buffer. */
    ghost predicate Valid()
      reads this
    {
      && control.Length == TRANSFER_SIZE
      && progBuf.Length == TRANSFER_SIZE
      && control != progBuf
      && progLen <= TRANSFER_SIZE
    }

    /** The engine's state as a value. */
    function View(): (m: Machine)
      reads this, control, progBuf
      ensures Valid() ==> WellFormed(m)
    {
      Machine(state, Prog(progBuf[..], progLen, progAddr, progBlocknum), control[..])
    }

    /** The variables as the C start-up code initialises them: DFU idle, everything else zero. */
    constructor(chip: Chip)
      ensures Valid() && View() == PowerOn()
      ensures this.chip == chip && fresh(control) && fresh(progBuf)
    {
      state := DfuIdle;
      control := new U8[TRANSFER_SIZE](_ => 0);
      progBuf := new U8[TRANSFER_SIZE](_ => 0);
      progLen, progAddr, progBlocknum := 0, 0, 0;
      this.chip := chip;
      new;
      assert control[..] == Fill(TRANSFER_SIZE, 0);
      assert progBuf[..] == Fill(TRANSFER_SIZE, 0);
    }

    /** `usbdfu_getstatus`: the status to report, the poll timeout (0 unless set) and the state change. */
    method GetStatus() returns (status: U8, pollTimeout: U32)
      modifies this
      ensures View() == old(View()).(state := DfuProtocol.GetStatus(old(state)).next)
      ensures StatusPoll(status, pollTimeout, state) == DfuProtocol.GetStatus(old(state))
    {
      pollTimeout := 0;
      if state == DnloadSync {
        state := DnBusy;
        pollTimeout := DNBUSY_POLL_TIMEOUT;
        return STATUS_OK, pollTimeout;
      } else if state == ManifestSync {
        state := Manifest;
        return STATUS_OK, pollTimeout;
      } else {
        return STATUS_OK, pollTimeout;
      }
    }

    /**
     * `usbdfu_control_request`: `len` is the data-stage length (None for a NULL pointer); the
     * results are the return value, the new `*len` and whether `*complete` was installed.
     */
    method ControlRequest(req: SetupData, len: Option<U16>) returns (handled: bool, lenOut: Option<U16>, completion: bool)
      requires Valid() && Admissible(req, len)
      modifies this, control, progBuf
      ensures Valid()
      ensures Outcome(handled, View(), lenOut, completion) == DfuProtocol.ControlRequest(old(View()), req, len)
    {
      lenOut, completion := len, false;
      if req.bmRequestType % 0x80 != 0x21 {
        return false, lenOut, completion;
      }
      if req.bRequest == DNLOAD {
        if len.None? || len.value == 0 {
          state := ManifestSync;
          return true, lenOut, completion;
        } else {
          ghost var oldBuf := progBuf[..];
          progBlocknum := req.wValue;
          progLen := len.value;
          forall i | 0 <= i < len.value {
            progBuf[i] := control[i];
          }
          assert progBuf[..] == control[..len.value] + oldBuf[len.value..];
          state := DnloadSync;
          return true, lenOut, completion;
        }
      } else if req.bRequest == CLRSTATUS {
        if state == Error {
          state := DfuIdle;
        }
        return true, lenOut, completion;
      } else if req.bRequest == ABORT {
        state := DfuIdle;
        return true, lenOut, completion;
      } else if req.bRequest == UPLOAD {
        return false, lenOut, completion;
      } else if req.bRequest == GETSTATUS {
        ReplyStatus();
        return true, Some(6), true;
      } else if req.bRequest == GETSTATE {
        control[0] := StateCode(state);
        assert control[..] == [StateCode(state)] + old(control[1..]);
        return true, Some(1), completion;
      }
      return false, lenOut, completion;
    }

    /** The GETSTATUS branch: runs `usbdfu_getstatus` and puts the six-byte reply at the start of the control buffer. */
    method ReplyStatus()
      requires Valid()
      modifies this, control
      ensures Valid()
      ensures var p := DfuProtocol.GetStatus(old(state));
        View() == old(View()).(state := p.next, control := StatusReply(p) + old(control[6..]))
    {
      ghost var rest := control[6..];
      var status, pollTimeout := GetStatus();
      control[0] := status;
      control[1] := pollTimeout % 0x100;
      control[2] := (pollTimeout / 0x100) % 0x100;
      control[3] := (pollTimeout / 0x1_0000) % 0x100;
      control[4] := StateCode(state);
      control[5] := 0;
      assert control[..6] == StatusReply(StatusPoll(status, pollTimeout, state));
      assert control[..] == control[..6] + rest;
    }

    /**
     * `usbdfu_getstatus_complete`: in DNBUSY writes the pending block to its page, then moves to
     * DNLOAD-IDLE; in MANIFEST resets the system.
     */
    method GetStatusComplete()
      requires Valid()
      modifies this, chip
      ensures Valid()
      ensures View() == Complete(old(View())).machine
      ensures chip.trace == old(chip.trace) + Complete(old(View())).effects
    {
      if state == DnBusy {
        WriteBlock();
        state := DnloadIdle;
      } else if state == Manifest {
        chip.ScbResetSystem();
      }
    }

    /** The DNBUSY branch of the completion: unlock, erase the block's page, program it, lock. */
    method WriteBlock()
      requires Valid()
      modifies chip
      ensures chip.trace == old(chip.trace) + FlashWrite(View().prog)
    {
      chip.FlashUnlock();
      var baseaddr: U32 := (APP_BASE + progBlocknum * TRANSFER_SIZE) % 0x1_0000_0000;
      chip.FlashErasePage(baseaddr);
      ProgramBlock(baseaddr);
      chip.FlashLock();
    }

    /** The programming loop: half-word `i / 2` of the block goes to `baseaddr + i`, followed by a watchdog reset. */
    method ProgramBlock(baseaddr: U32)
      requires Valid() && baseaddr + TRANSFER_SIZE <= 0x1_0000_0000
      modifies chip
      ensures chip.trace == old(chip.trace) + Programmed(baseaddr, progBuf[..], HalfWords(progLen))
    {
      ghost var buf := progBuf[..];
      var i := 0;
      while i < progLen as int
        invariant 0 <= i <= progLen as int + 1 && i % 2 == 0
        invariant chip.trace == old(chip.trace) + Programmed(baseaddr, buf, i / 2)
      {
        var dat: U16 := progBuf[i] as int + 0x100 * progBuf[i + 1] as int;
        chip.FlashProgramHalfWord(baseaddr + i, dat);
        chip.IwdgReset();
        ProgrammedNext(baseaddr, buf, i);
        i := i + 2;
      }
      assert i / 2 == HalfWords(progLen);
    }

    /** `usbdfu_sanitise`: back to DFU idle with the control buffer and `prog` zeroed. */
    method Sanitise()
      requires Valid()
      modifies this, control, progBuf
      ensures Valid()
      ensures View() == DfuProtocol.Sanitise(old(View()))
    {
      state := DfuIdle;
      forall i | 0 <= i < control.Length {
        control[i] := 0;
      }
      forall i | 0 <= i < progBuf.Length {
        progBuf[i] := 0;
      }
      progLen, progAddr, progBlocknum := 0, 0, 0;
      assert control[..] == Fill(TRANSFER_SIZE, 0);
      assert progBuf[..] == Fill(TRANSFER_SIZE, 0);
    }
  }
}
