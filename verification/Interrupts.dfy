/** The interrupt controller: IE, IF and IME, with IF and IE kept as sets of bit numbers. */
module Interrupts {
  import opened Prelude

  // Bit numbers of the sources (interrupt_controller.hpp, enum InterruptSource).
  const VBLANK: nat := 0
  const HBLANK: nat := 1
  const VCOUNT: nat := 2
  const TIMER0: nat := 3
  const SERIAL: nat := 7

  // kSupportedMask == 0x3FFF
  const SUPPORTED: set<nat> := set n: nat | n < 14

  class InterruptController {
    var enable: set<nat>
    var flags: set<nat>
    var master: bool

    ghost predicate Valid()
      reads this
    {
      enable <= SUPPORTED && flags <= SUPPORTED
    }

    constructor ()
      ensures Valid() && enable == {} && flags == {} && !master
    {
      enable, flags, master := {}, {}, false;
    }

    method WriteInterruptEnable(value: set<nat>)
      requires Valid()
      modifies this`enable
      ensures Valid() && enable == value * SUPPORTED
    {
      enable := value * SUPPORTED;
    }

    /** IF is write-one-to-clear. */
    method WriteInterruptFlags(acknowledge: set<nat>)
      requires Valid()
      modifies this`flags
      ensures Valid() && flags == old(flags) - acknowledge
    {
      flags := flags - (acknowledge * SUPPORTED);
    }

    method WriteIme(value: u16)
      modifies this`master
      ensures master <==> value % 2 == 1
    {
      master := value % 2 != 0;
    }

    method Request(source: nat)
      requires Valid()
      modifies this`flags
      ensures Valid() && flags == old(flags) + if source < 14 then {source} else {}
    {
      flags := flags + ({source} * SUPPORTED);
    }

    function PendingMask(): (pending: set<nat>)
      reads this
      ensures forall s :: s in pending <==> s in enable && s in flags && s < 14
    {
      enable * flags * SUPPORTED
    }

    predicate IrqLineActive()
      reads this
    {
      master && enable * flags * SUPPORTED != {}
    }
  }
}
