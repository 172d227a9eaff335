/** PPU timing: the beam position, and the interrupts and events at its edges. */
module Ppu {
  import opened Prelude
  import opened Interrupts

  const VISIBLE_LINES: int := 160
  const TOTAL_LINES: int := 228
  const VISIBLE_CYCLES: int := 960
  const HBLANK_FLAG_CYCLES: int := 1004
  const CYCLES_PER_LINE: int := 1232
  const CYCLES_PER_FRAME: int := 280896

  datatype Beam = Beam(line: nat, cycle: nat)

  /** The writable part of DISPSTAT. */
  datatype Dispstat = Dispstat(vblankIrq: bool, hblankIrq: bool, vcountIrq: bool, setting: u8)

  datatype Raster = Raster(beam: Beam, dispstat: Dispstat)

  predicate OnScreen(b: Beam) {
    b.line < TOTAL_LINES && b.cycle < CYCLES_PER_LINE
  }

  function DecodeDispstat(value: u16): Dispstat {
    Dispstat(value / 8 % 2 == 1, value / 16 % 2 == 1, value / 32 % 2 == 1, value / 256)
  }

  function FramePosition(b: Beam): nat {
    b.line * CYCLES_PER_LINE + b.cycle
  }

  // ---------------------------------------------------------------- one cycle at a time

  function StepBeam(b: Beam): Beam {
    if b.cycle + 1 < CYCLES_PER_LINE then Beam(b.line, b.cycle + 1)
    else if b.line + 1 == TOTAL_LINES then Beam(0, 0)
    else Beam(b.line + 1, 0)
  }

  /** Edges at which the beam has just arrived. */
  predicate EntersHblank(b: Beam) { b.cycle == HBLANK_FLAG_CYCLES }
  predicate EntersVblank(b: Beam) { b.cycle == 0 && b.line == VISIBLE_LINES }
  predicate EntersMatch(b: Beam, setting: u8) { b.cycle == 0 && b.line == setting }
  predicate CompletesLine(b: Beam) { b.cycle == VISIBLE_CYCLES && b.line < VISIBLE_LINES }

  function EdgeInterrupts(r: Raster): set<nat> {
    (if EntersHblank(r.beam) && r.dispstat.hblankIrq then {HBLANK} else {})
    + (if EntersVblank(r.beam) && r.dispstat.vblankIrq then {VBLANK} else {})
    + (if EntersMatch(r.beam, r.dispstat.setting) && r.dispstat.vcountIrq then {VCOUNT} else {})
  }

  /** Event counters of one tick(): HBlanks on visible lines, VBlanks, VCOUNT matches. */
  datatype Events = Events(hblanks: nat, vblanks: nat, matches: nat)

  function EdgeEvents(r: Raster): Events {
    Events(if EntersHblank(r.beam) && r.beam.line < VISIBLE_LINES then 1 else 0,
           if EntersVblank(r.beam) then 1 else 0,
           if EntersMatch(r.beam, r.dispstat.setting) then 1 else 0)
  }

  function AddEvents(a: Events, b: Events): Events {
    Events(a.hblanks + b.hblanks, a.vblanks + b.vblanks, a.matches + b.matches)
  }

  datatype Sweep = Sweep(at: Raster, raised: set<nat>, events: Events)

  const NO_EVENTS := Events(0, 0, 0)

  function StepRaster(r: Raster): Raster {
    r.(beam := StepBeam(r.beam))
  }

  /** `n` single cycles of the beam. */
  function PollRaster(r: Raster, n: nat): Sweep
    decreases n
  {
    if n == 0 then Sweep(r, {}, NO_EVENTS)
    else
      var next := StepRaster(r);
      var rest := PollRaster(next, n - 1);
      Sweep(rest.at, EdgeInterrupts(next) + rest.raised, AddEvents(EdgeEvents(next), rest.events))
  }

  function MoveBeam(b: Beam, n: nat): (r: Beam)
    ensures OnScreen(b) ==> OnScreen(r)
    decreases n
  {
    if n == 0 then b else MoveBeam(StepBeam(b), n - 1)
  }

  /** The visible lines that are completed while the beam moves `n` cycles on from `b`. */
  function CompletedLines(b: Beam, n: nat): seq<nat>
    decreases n
  {
    if n == 0 then []
    else
      var next := StepBeam(b);
      (if CompletesLine(next) then [next.line] else []) + CompletedLines(next, n - 1)
  }

  // ---------------------------------------------------------------- laws of the beam

  lemma {:induction false} PollRasterBeam(r: Raster, n: nat)
    ensures PollRaster(r, n).at == r.(beam := MoveBeam(r.beam, n))
    decreases n
  {
    if n != 0 {
      PollRasterBeam(StepRaster(r), n - 1);
    }
  }

  lemma {:induction false} PollRasterSplits(r: Raster, a: nat, b: nat)
    ensures var first := PollRaster(r, a);
            var second := PollRaster(first.at, b);
            PollRaster(r, a + b)
              == Sweep(second.at, first.raised + second.raised, AddEvents(first.events, second.events))
    decreases a
  {
    hide EdgeInterrupts, EdgeEvents;
    if a != 0 {
      PollRasterSplits(StepRaster(r), a - 1, b);
      SweepsAssociate(EdgeInterrupts(StepRaster(r)), EdgeEvents(StepRaster(r)),
                      PollRaster(StepRaster(r), a - 1), PollRaster(PollRaster(r, a).at, b));
    }
  }

  lemma SweepsAssociate(raised: set<nat>, events: Events, first: Sweep, second: Sweep)
    ensures raised + (first.raised + second.raised) == (raised + first.raised) + second.raised
    ensures AddEvents(events, AddEvents(first.events, second.events))
         == AddEvents(AddEvents(events, first.events), second.events)
  {
  }

  lemma NoEdge(r: Raster)
    requires r.beam.cycle != 0 && r.beam.cycle != HBLANK_FLAG_CYCLES
    ensures EdgeInterrupts(r) == {} && EdgeEvents(r) == NO_EVENTS
  {
  }

  lemma {:induction false} MoveBeamSplits(b: Beam, m: nat, n: nat)
    ensures MoveBeam(b, m + n) == MoveBeam(MoveBeam(b, m), n)
    ensures CompletedLines(b, m + n) == CompletedLines(b, m) + CompletedLines(MoveBeam(b, m), n)
    decreases m
  {
    if m != 0 {
      MoveBeamSplits(StepBeam(b), m - 1, n);
    }
  }

  /** The beam runs round the frame. */
  lemma {:induction false} BeamPosition(b: Beam, n: nat)
    requires OnScreen(b)
    ensures FramePosition(MoveBeam(b, n)) == (FramePosition(b) + n) % CYCLES_PER_FRAME
    decreases n
  {
    if n != 0 {
      StepPosition(b);
      BeamPosition(StepBeam(b), n - 1);
      WrapOnce(FramePosition(b) + 1, n - 1);
    } else {
      assert FramePosition(b) < CYCLES_PER_FRAME;
    }
  }

  lemma StepPosition(b: Beam)
    requires OnScreen(b)
    ensures FramePosition(StepBeam(b)) == (FramePosition(b) + 1) % CYCLES_PER_FRAME
  {
  }

  lemma WrapOnce(p: nat, n: nat)
    ensures (p % CYCLES_PER_FRAME + n) % CYCLES_PER_FRAME == (p + n) % CYCLES_PER_FRAME
  {
  }

  lemma QuietStep(r: Raster, n: nat)
    requires n > 0 && r.beam.cycle + 1 < CYCLES_PER_LINE && r.beam.cycle + 1 != HBLANK_FLAG_CYCLES
    ensures PollRaster(r, n) == PollRaster(r.(beam := Beam(r.beam.line, r.beam.cycle + 1)), n - 1)
  {
    hide EdgeInterrupts, EdgeEvents;
    var next := StepRaster(r);
    assert next == r.(beam := Beam(r.beam.line, r.beam.cycle + 1));
    NoEdge(next);
    NothingAdded(PollRaster(next, n - 1));
  }

  lemma NothingAdded(rest: Sweep)
    ensures Sweep(rest.at, {} + rest.raised, AddEvents(NO_EVENTS, rest.events)) == rest
  {
    var none: set<nat> := {};
    assert none + rest.raised == rest.raised;
  }

  /** Strictly inside a line segment nothing happens. */
  lemma {:induction false} QuietSegment(r: Raster, n: nat, edge: nat)
    requires OnScreen(r.beam)
    requires edge == HBLANK_FLAG_CYCLES || edge == CYCLES_PER_LINE
    requires edge == CYCLES_PER_LINE ==> r.beam.cycle >= HBLANK_FLAG_CYCLES
    requires r.beam.cycle + n < edge
    ensures PollRaster(r, n) == Sweep(r.(beam := Beam(r.beam.line, r.beam.cycle + n)), {}, NO_EVENTS)
    decreases n
  {
    hide EdgeInterrupts, EdgeEvents;
    if n != 0 {
      var next := r.(beam := Beam(r.beam.line, r.beam.cycle + 1));
      QuietSegment(next, n - 1, edge);
      QuietStep(r, n);
    }
  }

  lemma BeamStart(b: Beam)
    ensures MoveBeam(b, 0) == b && CompletedLines(b, 0) == []
  {
  }

  /** The next presentation or PPU edge of the line, as advance_devices cuts it. */
  function Boundary(cycle: nat): nat {
    if cycle < VISIBLE_CYCLES then VISIBLE_CYCLES
    else if cycle < HBLANK_FLAG_CYCLES then HBLANK_FLAG_CYCLES
    else CYCLES_PER_LINE
  }

  /** An interval that does not cross a boundary completes a line only by ending on it. */
  lemma {:induction false} CompletedWithin(b: Beam, n: nat)
    requires OnScreen(b) && 0 < n && b.cycle + n <= Boundary(b.cycle)
    ensures CompletedLines(b, n) == if CompletesLine(MoveBeam(b, n)) then [MoveBeam(b, n).line] else []
    ensures b.cycle + n < CYCLES_PER_LINE ==> MoveBeam(b, n) == Beam(b.line, b.cycle + n)
    decreases n
  {
    if n > 1 {
      CompletedWithin(StepBeam(b), n - 1);
    } else {
      assert CompletedLines(StepBeam(b), 0) == [];
    }
  }

  class PpuTiming {
    var line: nat
    var lineCycle: nat
    var dispstat: Dispstat

    ghost predicate Valid()
      reads this
    {
      OnScreen(Beam(line, lineCycle))
    }

    function State(): Raster
      reads this
    {
      Raster(Beam(line, lineCycle), dispstat)
    }

    constructor ()
      ensures Valid() && State() == Raster(Beam(0, 0), Dispstat(false, false, false, 0))
    {
      line, lineCycle, dispstat := 0, 0, Dispstat(false, false, false, 0);
    }

    /** Stores DISPSTAT and reports a match that the write newly asserts. */
    method RecheckVcountMatch(value: u16) returns (newlyMatching: bool)
      modifies this`dispstat
      ensures dispstat == DecodeDispstat(value)
      ensures newlyMatching <==> line == dispstat.setting && line != old(dispstat).setting
    {
      var wasMatching := line == dispstat.setting;
      dispstat := DecodeDispstat(value);
      newlyMatching := !wasMatching && line == dispstat.setting;
    }

    method Tick(cycles: nat, interrupts: InterruptController) returns (events: Events)
      requires Valid() && interrupts.Valid()
      modifies this`line, this`lineCycle, interrupts`flags
      ensures Valid() && interrupts.Valid()
      ensures var swept := PollRaster(old(State()), cycles);
              && State() == swept.at
              && interrupts.flags == old(interrupts.flags) + swept.raised
              && events == swept.events
    {
      hide PollRaster, EdgeInterrupts, EdgeEvents, StepBeam;
      events := NO_EVENTS;
      var remaining: nat := cycles;
      ghost var all, flagsBefore := PollRaster(State(), cycles), interrupts.flags;
      while remaining > 0
        invariant Valid() && interrupts.Valid() && dispstat == old(dispstat)
        invariant Ahead(all, flagsBefore, PollRaster(State(), remaining), interrupts.flags, events)
        decreases remaining
      {
        ghost var before, flagsNow, eventsNow := State(), interrupts.flags, events;
        var nextEvent := if lineCycle < HBLANK_FLAG_CYCLES then HBLANK_FLAG_CYCLES else CYCLES_PER_LINE;
        var step := Min(remaining, nextEvent - lineCycle);
        PollRasterSplits(before, step, remaining - step);
        SegmentStep(before, step, nextEvent);
        lineCycle := lineCycle + step;
        remaining := remaining - step;
        events := CrossEdge(interrupts, events);
        AheadStep(all, flagsBefore, PollRaster(before, step), PollRaster(State(), remaining), flagsNow, eventsNow);
      }
      PollRasterStill(State());
    }

    /** The end of one turn of the tick loop: acts on the edge the beam has reached, if any. */
    method CrossEdge(interrupts: InterruptController, events: Events) returns (counted: Events)
      requires line < TOTAL_LINES && lineCycle <= CYCLES_PER_LINE && interrupts.Valid()
      modifies this`line, this`lineCycle, interrupts`flags
      ensures Valid() && interrupts.Valid()
      ensures var edge := EdgeOf(Raster(Beam(old(line), old(lineCycle)), dispstat));
              && State() == edge.at
              && interrupts.flags == old(interrupts.flags) + edge.raised
              && counted == AddEvents(events, edge.events)
    {
      hide EdgeInterrupts, EdgeEvents;
      counted := events;
      if lineCycle == HBLANK_FLAG_CYCLES {
        EdgeAt(State());
        counted := EnterHblank(interrupts, counted);
      }
      if lineCycle == CYCLES_PER_LINE {
        counted := EnterNextLine(interrupts, counted);
      }
    }

    method EnterHblank(interrupts: InterruptController, events: Events) returns (counted: Events)
      requires interrupts.Valid()
      modifies interrupts`flags
      ensures interrupts.Valid()
      ensures interrupts.flags == old(interrupts.flags) + if dispstat.hblankIrq then {HBLANK} else {}
      ensures counted == if line < VISIBLE_LINES then events.(hblanks := events.hblanks + 1) else events
    {
      counted := events;
      if line < VISIBLE_LINES {
        counted := counted.(hblanks := counted.hblanks + 1);
      }
      if dispstat.hblankIrq {
        interrupts.Request(HBLANK);
      }
    }

    method EnterNextLine(interrupts: InterruptController, events: Events) returns (counted: Events)
      requires line < TOTAL_LINES && lineCycle == CYCLES_PER_LINE && interrupts.Valid()
      modifies this`line, this`lineCycle, interrupts`flags
      ensures Valid() && interrupts.Valid()
      ensures Beam(line, lineCycle) == StepBeam(Beam(old(line), CYCLES_PER_LINE - 1))
      ensures interrupts.flags == old(interrupts.flags) + EdgeInterrupts(State())
      ensures counted == AddEvents(events, EdgeEvents(State()))
    {
      counted := events;
      lineCycle := 0;
      line := line + 1;
      if line == TOTAL_LINES {
        line := 0;
      }
      if line == VISIBLE_LINES && dispstat.vblankIrq {
        interrupts.Request(VBLANK);
      }
      if line == VISIBLE_LINES {
        counted := counted.(vblanks := counted.vblanks + 1);
      }
      if line == dispstat.setting && dispstat.vcountIrq {
        interrupts.Request(VCOUNT);
      }
      if line == dispstat.setting {
        counted := counted.(matches := counted.matches + 1);
      }
    }
  }

  /** At the HBlank edge only the HBlank interrupt and event can happen. */
  lemma EdgeAt(r: Raster)
    requires r.beam.cycle == HBLANK_FLAG_CYCLES
    ensures EdgeInterrupts(r) == if r.dispstat.hblankIrq then {HBLANK} else {}
    ensures EdgeEvents(r) == Events(if r.beam.line < VISIBLE_LINES then 1 else 0, 0, 0)
  {
  }

  lemma PollRasterStill(r: Raster)
    ensures PollRaster(r, 0) == Sweep(r, {}, NO_EVENTS)
  {
  }

  /** What happens when the beam has just moved to `r`, which may be one past the line's end. */
  function EdgeOf(r: Raster): Sweep {
    if r.beam.cycle == CYCLES_PER_LINE then
      var end := r.(beam := StepBeam(Beam(r.beam.line, CYCLES_PER_LINE - 1)));
      Sweep(end, EdgeInterrupts(end), EdgeEvents(end))
    else if r.beam.cycle == HBLANK_FLAG_CYCLES then Sweep(r, EdgeInterrupts(r), EdgeEvents(r))
    else Sweep(r, {}, NO_EVENTS)
  }

  /** The loop invariant of tick(): what was done plus what is still to come is the whole. */
  ghost predicate Ahead(all: Sweep, flagsBefore: set<nat>, rest: Sweep, flags: set<nat>, events: Events) {
    && rest.at == all.at
    && flags + rest.raised == flagsBefore + all.raised
    && AddEvents(events, rest.events) == all.events
  }

  lemma AheadStep(all: Sweep, flagsBefore: set<nat>, done: Sweep, rest: Sweep, flags: set<nat>, events: Events)
    requires Ahead(all, flagsBefore, Sweep(rest.at, done.raised + rest.raised, AddEvents(done.events, rest.events)),
                   flags, events)
    ensures Ahead(all, flagsBefore, rest, flags + done.raised, AddEvents(events, done.events))
  {
    assert flags + (done.raised + rest.raised) == (flags + done.raised) + rest.raised;
  }

  /** One turn of the tick loop: quiet up to the edge, then the edge itself if it is reached. */
  lemma SegmentStep(r: Raster, n: nat, edge: nat)
    requires OnScreen(r.beam) && n > 0
    requires edge == if r.beam.cycle < HBLANK_FLAG_CYCLES then HBLANK_FLAG_CYCLES else CYCLES_PER_LINE
    requires r.beam.cycle + n <= edge
    ensures PollRaster(r, n) == EdgeOf(r.(beam := Beam(r.beam.line, r.beam.cycle + n)))
  {
    hide EdgeInterrupts, EdgeEvents, PollRaster;
    if r.beam.cycle + n < edge {
      QuietSegment(r, n, edge);
    } else {
      var last := r.(beam := Beam(r.beam.line, edge - 1));
      QuietSegment(r, n - 1, edge);
      PollRasterSplits(r, n - 1, 1);
      LastStep(last);
      NothingAdded(PollRaster(last, 1));
    }
  }

  lemma LastStep(r: Raster)
    ensures var next := StepRaster(r); PollRaster(r, 1) == Sweep(next, EdgeInterrupts(next), EdgeEvents(next))
  {
    hide EdgeInterrupts, EdgeEvents;
    var next := StepRaster(r);
    assert PollRaster(next, 0) == Sweep(next, {}, NO_EVENTS);
    var none: set<nat> := {};
    assert EdgeInterrupts(next) + none == EdgeInterrupts(next);
  }
}
