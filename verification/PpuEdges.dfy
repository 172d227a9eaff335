/**
 The beam's edges counted in closed form: which interrupts and events any number of cycles brings,
 from the frame position alone. 1232 cycles make a line and 228 lines a frame of 280896 cycles.
 */
module PpuEdges {
  import opened Prelude
  import P = Ppu

  /** The frame position in cycles. */
  function Position(b: P.Beam): nat {
    b.line * 1232 + b.cycle
  }

  /** How often a position of the frame is entered while the beam moves from `x` to `x` + `n`. */
  function FramePasses(x: nat, n: nat, at: nat): int {
    (x + n - at) / 280896 - (x - at) / 280896
  }

  /** How often cycle 1004 of a line is entered. */
  function HblankPasses(x: nat, n: nat): int {
    (x + n - 1004) / 1232 - (x - 1004) / 1232
  }

  /** Cycles 1004 of visible lines at or before `x`. */
  function VisibleHblanks(x: nat): nat {
    160 * (x / 280896) + Min(160, (x % 280896 + 228) / 1232)
  }

  /** Cycles 960 of visible lines at or before `x`: the visible lines completed. */
  function VisibleLines(x: nat): nat {
    160 * (x / 280896) + Min(160, (x % 280896 + 272) / 1232)
  }

  predicate Enters(x: nat, at: nat) {
    x % 280896 == at
  }

  predicate EntersCycle(x: nat, cycle: nat) {
    x % 1232 == cycle
  }

  predicate OnVisibleLine(x: nat) {
    x % 280896 < 160 * 1232
  }

  lemma FrameStep(x: nat, n: nat, at: nat)
    requires at < 280896 && n > 0
    ensures FramePasses(x, n, at)
         == FramePasses(x + 1, n - 1, at) + (if Enters(x + 1, at) then 1 else 0)
  {
  }

  lemma HblankStep(x: nat, n: nat)
    requires n > 0
    ensures HblankPasses(x, n) == HblankPasses(x + 1, n - 1) + (if EntersCycle(x + 1, 1004) then 1 else 0)
  {
  }

  /** A cycle number as frame, line and cycle of the line. */
  lemma Split(x: nat, frame: nat, line: nat, cycle: nat)
    requires x == 280896 * frame + 1232 * line + cycle && line < 228 && cycle < 1232
    ensures x % 280896 == 1232 * line + cycle && x % 1232 == cycle
    ensures VisibleHblanks(x) == 160 * frame + Min(160, if cycle < 1004 then line else line + 1)
    ensures VisibleLines(x) == 160 * frame + Min(160, if cycle < 960 then line else line + 1)
  {
    assert x / 280896 == frame;
    var y := x % 280896;
    assert y == 1232 * line + cycle;
    assert (y + 228) / 1232 == if cycle < 1004 then line else line + 1;
    assert (y + 272) / 1232 == if cycle < 960 then line else line + 1;
    assert x % 1232 == (1232 * (228 * frame + line) + cycle) % 1232;
  }

  lemma VisibleStep(x: nat)
    ensures VisibleHblanks(x + 1) - VisibleHblanks(x)
         == if EntersCycle(x + 1, 1004) && OnVisibleLine(x + 1) then 1 else 0
    ensures VisibleLines(x + 1) - VisibleLines(x)
         == if EntersCycle(x + 1, 960) && OnVisibleLine(x + 1) then 1 else 0
  {
    var frame, y := x / 280896, x % 280896;
    var line, cycle := y / 1232, y % 1232;
    hide VisibleHblanks, VisibleLines;
    Split(x, frame, line, cycle);
    if cycle < 1231 {
      Split(x + 1, frame, line, cycle + 1);
    } else if line < 227 {
      Split(x + 1, frame, line + 1, 0);
    } else {
      Split(x + 1, frame + 1, 0, 0);
    }
  }

  /** The beam stands at cycle number `x` of the frames counted from some start. */
  predicate At(b: P.Beam, x: nat) {
    P.OnScreen(b) && Position(b) == x % 280896
  }

  lemma BeamStep(b: P.Beam, x: nat)
    requires At(b, x)
    ensures At(P.StepBeam(b), x + 1)
  {
    P.StepPosition(b);
    P.WrapOnce(x, 1);
  }

  lemma LineAndCycle(b: P.Beam, x: nat)
    requires At(b, x)
    ensures b.cycle == x % 1232 && (b.line < 160 <==> x % 280896 < 197120)
  {
    hide VisibleHblanks, VisibleLines;
    Split(x, x / 280896, b.line, b.cycle);
  }

  lemma LineStart(b: P.Beam, x: nat, line: nat)
    requires At(b, x) && line < 228
    ensures b.line == line && b.cycle == 0 <==> x % 280896 == 1232 * line
  {
  }

  /** The interrupts and events of arriving at cycle number `x`. */
  ghost predicate EdgesNow(d: P.Dispstat, x: nat, raised: set<nat>, events: P.Events) {
    && raised <= {0, 1, 2}
    && (0 in raised <==> d.vblankIrq && Enters(x, 160 * 1232))
    && (1 in raised <==> d.hblankIrq && EntersCycle(x, 1004))
    && (2 in raised <==> d.vcountIrq && d.setting < 228 && Enters(x, d.setting * 1232))
    && events.hblanks == (if EntersCycle(x, 1004) && OnVisibleLine(x) then 1 else 0)
    && events.vblanks == (if Enters(x, 160 * 1232) then 1 else 0)
    && events.matches == if d.setting < 228 && Enters(x, d.setting * 1232) then 1 else 0
  }

  lemma EdgesAt(r: P.Raster, x: nat)
    requires At(r.beam, x)
    ensures EdgesNow(r.dispstat, x, P.EdgeInterrupts(r), P.EdgeEvents(r))
  {
    LineAndCycle(r.beam, x);
    LineStart(r.beam, x, 160);
    if r.dispstat.setting < 228 {
      LineStart(r.beam, x, r.dispstat.setting);
    }
    hide Position;
  }

  /** What `n` cycles bring, with the beam at position `x` of some frame: bits 0, 1 and 2 of IF are
      VBLANK, HBLANK and VCOUNT. */
  ghost predicate EdgesCounted(r: P.Raster, x: nat, n: nat, swept: P.Sweep) {
    var d := r.dispstat;
    && swept.at.dispstat == d && At(swept.at.beam, x + n)
    && swept.raised <= {0, 1, 2}
    && (0 in swept.raised <==> d.vblankIrq && FramePasses(x, n, 160 * 1232) > 0)
    && (1 in swept.raised <==> d.hblankIrq && HblankPasses(x, n) > 0)
    && (2 in swept.raised <==> d.vcountIrq && d.setting < 228 && FramePasses(x, n, d.setting * 1232) > 0)
    && swept.events.hblanks == VisibleHblanks(x + n) - VisibleHblanks(x)
    && swept.events.vblanks == FramePasses(x, n, 160 * 1232)
    && swept.events.matches == if d.setting < 228 then FramePasses(x, n, d.setting * 1232) else 0
  }

  lemma {:induction false} PollCounts(r: P.Raster, x: nat, n: nat)
    requires At(r.beam, x)
    ensures EdgesCounted(r, x, n, P.PollRaster(r, n)) && HblankPasses(x, n) >= 0
    decreases n
  {
    if n == 0 {
      NoCycles(x, r.dispstat.setting);
      hide FramePasses, HblankPasses;
    } else {
      var next := P.StepRaster(r);
      BeamStep(r.beam, x);
      EdgesAt(next, x + 1);
      hide EdgesNow, EdgesCounted, At, P.EdgeInterrupts, P.EdgeEvents, HblankPasses;
      PollCounts(next, x + 1, n - 1);
      OneMore(r, x, n, P.EdgeInterrupts(next), P.EdgeEvents(next), P.PollRaster(next, n - 1));
    }
  }

  lemma {:induction false} OneMore(r: P.Raster, x: nat, n: nat, raised: set<nat>, events: P.Events, rest: P.Sweep)
    requires n > 0 && EdgesNow(r.dispstat, x + 1, raised, events) && HblankPasses(x + 1, n - 1) >= 0
    requires EdgesCounted(P.StepRaster(r), x + 1, n - 1, rest)
    ensures EdgesCounted(r, x, n, P.Sweep(rest.at, raised + rest.raised, P.AddEvents(events, rest.events)))
    ensures HblankPasses(x, n) >= 0
  {
    FrameStep(x, n, 160 * 1232);
    if r.dispstat.setting < 228 {
      FrameStep(x, n, r.dispstat.setting * 1232);
    }
    HblankStep(x, n);
    VisibleStep(x);
    assert x + 1 + (n - 1) == x + n;
    hide FramePasses, HblankPasses, VisibleHblanks, VisibleLines, At, P.StepBeam, Enters, EntersCycle, OnVisibleLine;
  }

  lemma NoCycles(x: nat, setting: nat)
    ensures FramePasses(x, 0, 197120) == 0 && FramePasses(x, 0, setting * 1232) == 0 && HblankPasses(x, 0) == 0
  {
  }

  /** From the beam's own position, the interrupts, events and final position of `n` cycles. */
  lemma {:induction false} PollClosedForm(r: P.Raster, n: nat)
    requires P.OnScreen(r.beam)
    ensures EdgesCounted(r, Position(r.beam), n, P.PollRaster(r, n))
  {
    assert Position(r.beam) < 280896;
    PollCounts(r, Position(r.beam), n);
  }

  /** The visible lines completed in `n` cycles are the next ones in turn, as many as cycle 960 of a
      visible line is entered. */
  lemma {:induction false} LinesCompleted(b: P.Beam, x: nat, n: nat)
    requires At(b, x)
    ensures var lines := P.CompletedLines(b, n);
            && |lines| == VisibleLines(x + n) - VisibleLines(x)
            && forall i :: 0 <= i < |lines| ==> lines[i] == (VisibleLines(x) + i) % 160
    decreases n
  {
    hide VisibleLines, VisibleHblanks, Position;
    if n != 0 {
      var next := P.StepBeam(b);
      BeamStep(b, x);
      LineAndCycle(next, x + 1);
      hide At, P.StepBeam;
      LinesCompleted(next, x + 1, n - 1);
      VisibleStep(x);
      if P.CompletesLine(next) {
        CompletedInTurn(next, x);
      }
    }
  }

  lemma CompletedInTurn(b: P.Beam, x: nat)
    requires At(b, x + 1) && b.cycle == 960 && b.line < 160
    ensures VisibleLines(x) % 160 == b.line
  {
    var frame := (x + 1) / 280896;
    Split(x, frame, b.line, 959);
    hide VisibleLines;
    assert (160 * frame + b.line) % 160 == b.line;
  }

  /** The DMA requests of the raster in `n` cycles: one per HBlank of a visible line, one per VBlank. */
  function EdgeRequests(x: nat, n: nat): nat {
    EdgesGoOn(x, n);
    VisibleHblanks(x + n) - VisibleHblanks(x) + FramePasses(x, n, 160 * 1232)
  }

  lemma {:induction false} EdgesGoOn(x: nat, n: nat)
    ensures VisibleHblanks(x + n) >= VisibleHblanks(x) && FramePasses(x, n, 160 * 1232) >= 0
    decreases n
  {
    hide VisibleHblanks, VisibleLines, Enters;
    if n != 0 {
      EdgesGoOn(x, n - 1);
      VisibleStep(x + n - 1);
    }
  }

  lemma {:induction false} EdgeRequestsJoin(x: nat, a: nat, b: nat)
    ensures EdgeRequests(x, a + b) == EdgeRequests(x, a) + EdgeRequests(x + a, b)
    ensures EdgeRequests(x, 0) == 0
  {
    assert x + (a + b) == (x + a) + b;
    hide VisibleHblanks;
  }

  lemma {:induction false} BeamMoves(b: P.Beam, x: nat, n: nat)
    requires At(b, x)
    ensures At(P.MoveBeam(b, n), x + n)
    decreases n
  {
    hide At;
    if n != 0 {
      BeamStep(b, x);
      BeamMoves(P.StepBeam(b), x + 1, n - 1);
    }
  }

  /** The edges at which time is cut: cycles 960, 1004 and 1232 of a line. */
  function ToEdge(x: nat): nat {
    var cycle := x % 1232;
    if cycle < 960 then 960 - cycle else if cycle < 1004 then 1004 - cycle else 1232 - cycle
  }

  lemma BoundaryAhead(b: P.Beam, x: nat)
    requires At(b, x)
    ensures P.Boundary(b.cycle) - b.cycle == ToEdge(x)
  {
    LineAndCycle(b, x);
  }

  /** The raster's requests in `n` cycles are its two DMA events. */
  lemma {:induction false} EventsAre(r: P.Raster, x: nat, n: nat)
    requires At(r.beam, x)
    ensures var events := P.PollRaster(r, n).events; events.hblanks + events.vblanks == EdgeRequests(x, n)
  {
    PollCounts(r, x, n);
    hide VisibleHblanks, FramePasses, HblankPasses, P.PollRaster;
  }
}
