/** The serial port's internal-clock transfer timer. */
module Serial {
  import opened Prelude
  import opened Interrupts

  const SLOW_CYCLES_PER_BIT: nat := 64
  const FAST_CYCLES_PER_BIT: nat := 8
  const COMPLETION_LATENCY: nat := 40

  datatype Port = Port(siocnt: u16, active: bool, remaining: nat)

  predicate IrqEnabled(p: Port) {
    p.siocnt / 0x4000 % 2 == 1
  }

  /** Length of the transfer a SIOCNT write starts, if it starts one. */
  function TransferCycles(siocnt: u16): (cycles: Option<nat>)
    ensures cycles.Some? ==> cycles.value > COMPLETION_LATENCY
  {
    if siocnt / 0x80 % 2 == 0 || siocnt % 2 == 0 then None
    else
      var mode := siocnt / 0x1000 % 4;
      var perBit := if siocnt / 2 % 2 == 1 then FAST_CYCLES_PER_BIT else SLOW_CYCLES_PER_BIT;
      if mode == 0 then Some(8 * perBit + COMPLETION_LATENCY)
      else if mode == 1 then Some(32 * perBit + COMPLETION_LATENCY)
      else None
  }

  function Armed(siocnt: u16): Port {
    match TransferCycles(siocnt)
    case Some(cycles) => Port(siocnt, true, cycles)
    case None => Port(siocnt, false, 0)
  }

  // ---------------------------------------------------------------- one cycle at a time

  predicate Completes(p: Port) {
    p.active && p.remaining <= 1
  }

  function StepPort(p: Port): Port {
    if !p.active then p
    else if p.remaining <= 1 then p.(active := false, remaining := 0)
    else p.(remaining := p.remaining - 1)
  }

  function StepInterrupt(p: Port): set<nat> {
    if Completes(p) && IrqEnabled(p) then {SERIAL} else {}
  }

  datatype Transfer = Transfer(port: Port, raised: set<nat>)

  function PollPort(p: Port, n: nat): Transfer
    decreases n
  {
    if n == 0 then Transfer(p, {})
    else
      var rest := PollPort(StepPort(p), n - 1);
      Transfer(rest.port, StepInterrupt(p) + rest.raised)
  }

  lemma {:induction false} PollIdle(p: Port, n: nat)
    requires !p.active
    ensures PollPort(p, n) == Transfer(p, {})
    decreases n
  {
    if n != 0 {
      PollIdle(p, n - 1);
    }
  }

  lemma {:induction false} PollTransfer(p: Port, n: nat)
    requires p.active
    ensures n == 0 ==> PollPort(p, n) == Transfer(p, {})
    ensures 0 < n < p.remaining ==> PollPort(p, n) == Transfer(p.(remaining := p.remaining - n), {})
    ensures 0 < n && p.remaining <= n
            ==> PollPort(p, n) == Transfer(p.(active := false, remaining := 0), if IrqEnabled(p) then {SERIAL} else {})
    decreases n
  {
    if n != 0 {
      if p.remaining <= 1 {
        PollIdle(StepPort(p), n - 1);
      } else {
        PollTransfer(StepPort(p), n - 1);
      }
    }
  }

  /** Writing SIOCNT starts a transfer exactly with start bit and internal clock in the two normal
      modes; it ends, requesting IF bit 7 if enabled, after 8 or 32 bits of 64 or 8 cycles and 40 more. */
  lemma TransferTakes(siocnt: u16, n: nat)
    ensures var mode := siocnt / 0x1000 % 4;
            var starts := siocnt % 2 == 1 && siocnt / 0x80 % 2 == 1 && mode < 2;
            var length := if siocnt / 2 % 2 == 1 then (if mode == 0 then 104 else 296)
                          else if mode == 0 then 552 else 2088;
            var polled := PollPort(Armed(siocnt), n);
            && (7 in polled.raised <==> starts && n >= length && siocnt / 0x4000 % 2 == 1)
            && polled.raised <= {7}
            && polled.port == Port(siocnt, starts && n < length, if starts && n < length then length - n else 0)
  {
    var port := Armed(siocnt);
    if port.active {
      PollTransfer(port, n);
    } else {
      PollIdle(port, n);
    }
    hide PollPort;
  }

  class SerialPort {
    var siocnt: u16
    var active: bool
    var remaining: nat

    function State(): Port
      reads this
    {
      Port(siocnt, active, remaining)
    }

    constructor ()
      ensures State() == Port(0, false, 0)
    {
      siocnt, active, remaining := 0, false, 0;
    }

    method WriteSiocnt(value: u16)
      modifies this
      ensures State() == Armed(value)
    {
      siocnt := value;
      var cycles := TransferCycles(value);
      active := cycles.Some?;
      remaining := if cycles.Some? then cycles.value else 0;
    }

    /** Counts a transfer down in one subtraction and completes it at most once. */
    method Tick(cycles: nat, interrupts: InterruptController)
      requires interrupts.Valid()
      modifies this, interrupts`flags
      ensures interrupts.Valid()
      ensures var polled := PollPort(old(State()), cycles);
              State() == polled.port && interrupts.flags == old(interrupts.flags) + polled.raised
    {
      if active {
        PollTransfer(State(), cycles);
      } else {
        PollIdle(State(), cycles);
      }
      if !active || cycles == 0 {
        return;
      }
      if cycles < remaining {
        remaining := remaining - cycles;
        return;
      }
      active := false;
      remaining := 0;
      if siocnt / 0x4000 % 2 == 1 {
        interrupts.Request(SERIAL);
      }
    }
  }
}
