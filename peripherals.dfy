/**
 * The microcontroller peripherals the bootloader drives through libopencm3: the flash
 * controller, the independent watchdog and the system control block. Their hardware effect is
 * not modelled; every call is recorded, in order, on a trace.
 */
module Peripherals {
  import opened Common

  /** One call into a peripheral driver. */
  datatype Effect =
    | FlashUnlock                                      // flash_unlock()
    | FlashErasePage(page: U32)                        // flash_erase_page(page_address)
    | FlashProgramHalfWord(address: U32, data: U16)    // flash_program_half_word(address, data)
    | FlashLock                                        // flash_lock()
    | IwdgReset                                        // iwdg_reset()
    | ScbResetSystem                                   // scb_reset_system()

  /** The chip, seen as the sequence of driver calls made so far. */
  class Chip {
    var trace: seq<Effect>

    constructor ()
      ensures trace == []
    {
      trace := [];
    }

    method FlashUnlock()
      modifies this
      ensures trace == old(trace) + [Effect.FlashUnlock]
    {
      trace := trace + [Effect.FlashUnlock];
    }

    method FlashErasePage(page: U32)
      modifies this
      ensures trace == old(trace) + [Effect.FlashErasePage(page)]
    {
      trace := trace + [Effect.FlashErasePage(page)];
    }

    method FlashProgramHalfWord(address: U32, data: U16)
      modifies this
      ensures trace == old(trace) + [Effect.FlashProgramHalfWord(address, data)]
    {
      trace := trace + [Effect.FlashProgramHalfWord(address, data)];
    }

    method FlashLock()
      modifies this
      ensures trace == old(trace) + [Effect.FlashLock]
    {
      trace := trace + [Effect.FlashLock];
    }

    method IwdgReset()
      modifies this
      ensures trace == old(trace) + [Effect.IwdgReset]
    {
      trace := trace + [Effect.IwdgReset];
    }

    /** On the chip this never returns; here the reset is recorded and control comes back. */
    method ScbResetSystem()
      modifies this
      ensures trace == old(trace) + [Effect.ScbResetSystem]
    {
      trace := trace + [Effect.ScbResetSystem];
    }
  }
}
