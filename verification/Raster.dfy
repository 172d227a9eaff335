/**
 Publication of rendered frames: rows are captured one observer event at a time into a scratch
 frame, which replaces the visible one only when it is complete.
 */
module Raster {
  import opened Prelude

  const HEIGHT: nat := 160

  /** A row as captured: which state it belongs to, which observer event it was, and its line. */
  datatype Row = Row(generation: nat, event: nat, line: nat)

  /** An observer event: the scheduler finished a visible line. */
  datatype LineEvent = LineEvent(number: nat, line: nat)

  datatype Presentation = Presentation(
    scratch: seq<Option<Row>>, nextLine: nat, ready: bool, visible: seq<Option<Row>>,
    generation: nat, cycles: nat)

  function Blank(): (rows: seq<Option<Row>>)
    ensures |rows| == HEIGHT
  {
    seq(HEIGHT, _ => None)
  }

  function Start(): (p: Presentation)
    ensures Coherent(p, 0)
  {
    Presentation(Blank(), 0, false, Blank(), 0, 0)
  }

  /** Rows 0 to `n`-1, captured at consecutive events of one state. */
  ghost predicate Consecutive(rows: seq<Option<Row>>, n: nat, generation: nat, base: nat)
    requires n <= |rows|
  {
    forall i :: 0 <= i < n ==> rows[i] == Some(Row(generation, base + i, i))
  }

  ghost predicate FullRaster(rows: seq<Option<Row>>) {
    |rows| == HEIGHT && exists generation: nat, base: nat :: Consecutive(rows, HEIGHT, generation, base)
  }

  /** What the player may see: nothing yet, or one whole frame. */
  ghost predicate Presentable(rows: seq<Option<Row>>) {
    rows == Blank() || FullRaster(rows)
  }

  /** `next` is the number of the next observer event. */
  ghost predicate Coherent(p: Presentation, next: nat) {
    && |p.scratch| == HEIGHT && p.nextLine <= HEIGHT && (p.ready <==> p.nextLine == HEIGHT)
    && Presentable(p.visible)
    && (p.ready ==> exists base: nat :: Consecutive(p.scratch, HEIGHT, p.generation, base))
    && (0 < p.nextLine < HEIGHT ==> p.nextLine <= next && Consecutive(p.scratch, p.nextLine, p.generation, next - p.nextLine))
  }

  /** capture_scanline: a full scratch frame is frozen; a line out of turn starts over. */
  function Captured(p: Presentation, e: LineEvent): Presentation
    requires |p.scratch| == HEIGHT && p.nextLine <= HEIGHT && (p.ready <==> p.nextLine == HEIGHT)
  {
    if p.ready then p
    else
      var expected := if e.line != p.nextLine then 0 else p.nextLine;
      if e.line != expected then p.(nextLine := 0)
      else
        p.(scratch := p.scratch[expected := Some(Row(p.generation, e.number, e.line))],
           nextLine := expected + 1, ready := expected + 1 == HEIGHT)
  }

  /** Entering a frame: unless state and time are as they were left, capturing starts over. */
  function FrameBegun(p: Presentation, generation: nat, cycles: nat): Presentation {
    var begun := if p.generation != generation || p.cycles != cycles then p.(nextLine := 0, ready := false) else p;
    begun.(generation := generation)
  }

  /** Leaving a frame: a completed call shows a complete scratch frame. */
  function FrameEnded(p: Presentation, complete: bool, cycles: nat): Presentation {
    var shown := if complete && p.ready then p.(visible := p.scratch, ready := false, nextLine := 0) else p;
    shown.(cycles := cycles)
  }

  lemma CaptureKeeps(p: Presentation, e: LineEvent)
    requires Coherent(p, e.number)
    ensures Coherent(Captured(p, e), e.number + 1)
    ensures Captured(p, e).visible == p.visible && Captured(p, e).generation == p.generation
  {
    hide Presentable;
    var q := Captured(p, e);
    if !p.ready && q.nextLine > 0 {
      var n := q.nextLine;
      assert Consecutive(q.scratch, n, q.generation, e.number + 1 - n);
    }
  }

  lemma BeginKeeps(p: Presentation, generation: nat, cycles: nat, last: nat, next: nat)
    requires Coherent(p, last) && (p.generation == generation && p.cycles == cycles ==> next == last)
    ensures Coherent(FrameBegun(p, generation, cycles), next)
  {
  }

  lemma EndKeeps(p: Presentation, complete: bool, cycles: nat, next: nat)
    requires Coherent(p, next)
    ensures Coherent(FrameEnded(p, complete, cycles), next)
  {
    if complete && p.ready {
      var base: nat :| Consecutive(p.scratch, HEIGHT, p.generation, base);
      assert FullRaster(p.scratch);
    }
  }

  // ---------------------------------------------------------------- whole histories

  /** A call that steps a frame, as the session behaves during it; or one that clears the picture. */
  datatype Call =
    | Frame(generation: nat, cycles: nat, first: nat, lines: seq<nat>, endCycles: nat, complete: bool)
    | Clear

  function CapturedAll(p: Presentation, first: nat, lines: seq<nat>): (q: Presentation)
    requires |p.scratch| == HEIGHT && p.nextLine <= HEIGHT && (p.ready <==> p.nextLine == HEIGHT)
    ensures |q.scratch| == HEIGHT && q.nextLine <= HEIGHT && (q.ready <==> q.nextLine == HEIGHT)
    decreases |lines|
  {
    if lines == [] then p else CapturedAll(Captured(p, LineEvent(first, lines[0])), first + 1, lines[1..])
  }

  lemma {:induction false} CaptureAllKeeps(p: Presentation, first: nat, lines: seq<nat>)
    requires Coherent(p, first)
    ensures Coherent(CapturedAll(p, first, lines), first + |lines|)
    decreases |lines|
  {
    hide Captured;
    if lines != [] {
      var e := LineEvent(first, lines[0]);
      assert |p.scratch| == HEIGHT;
      CaptureKeeps(p, e);
      CaptureAllKeeps(Captured(p, e), first + 1, lines[1..]);
    }
  }

  ghost function After(p: Presentation, call: Call): Presentation
    requires |p.scratch| == HEIGHT && p.nextLine <= HEIGHT && (p.ready <==> p.nextLine == HEIGHT)
  {
    match call
    case Clear => p.(visible := Blank())
    case Frame(generation, cycles, first, lines, endCycles, complete) =>
      FrameEnded(CapturedAll(FrameBegun(p, generation, cycles), first, lines), complete, endCycles)
  }

  /** No time passes between calls without showing in the session's cycle count or generation. */
  ghost predicate Faithful(p: Presentation, last: nat, call: Call) {
    call.Frame? && p.generation == call.generation && p.cycles == call.cycles ==> call.first == last
  }

  function NextEvent(last: nat, call: Call): nat {
    if call.Frame? then call.first + |call.lines| else last
  }

  ghost predicate FaithfulHistory(p: Presentation, last: nat, calls: seq<Call>)
    requires Coherent(p, last)
    decreases |calls|
  {
    calls == []
    || (Faithful(p, last, calls[0])
        && (CallKeeps(p, last, calls[0]);
            FaithfulHistory(After(p, calls[0]), NextEvent(last, calls[0]), calls[1..])))
  }

  lemma CallKeeps(p: Presentation, last: nat, call: Call)
    requires Coherent(p, last) && Faithful(p, last, call)
    ensures Coherent(After(p, call), NextEvent(last, call))
  {
    if call.Frame? {
      BeginKeeps(p, call.generation, call.cycles, last, call.first);
      var begun := FrameBegun(p, call.generation, call.cycles);
      CaptureAllKeeps(begun, call.first, call.lines);
      EndKeeps(CapturedAll(begun, call.first, call.lines), call.complete, call.endCycles, NextEvent(last, call));
    }
  }

  ghost function Final(p: Presentation, last: nat, calls: seq<Call>): Presentation
    requires Coherent(p, last) && FaithfulHistory(p, last, calls)
    decreases |calls|
  {
    if calls == [] then p
    else
      CallKeeps(p, last, calls[0]);
      Final(After(p, calls[0]), NextEvent(last, calls[0]), calls[1..])
  }

  /** Whatever is stepped, restored, abandoned or cleared, the visible frame is blank or one whole
      raster of a single state: never partial, never spliced. */
  lemma {:induction false} NeverSpliced(p: Presentation, last: nat, calls: seq<Call>)
    requires Coherent(p, last) && FaithfulHistory(p, last, calls)
    ensures Presentable(Final(p, last, calls).visible)
    decreases |calls|
  {
    if calls != [] {
      CallKeeps(p, last, calls[0]);
      hide Presentable, After;
      NeverSpliced(After(p, calls[0]), NextEvent(last, calls[0]), calls[1..]);
    }
  }

  /** The same from a fresh runtime. */
  lemma NeverSplicedFromStart(calls: seq<Call>)
    requires FaithfulHistory(Start(), 0, calls)
    ensures Presentable(Final(Start(), 0, calls).visible)
  {
    NeverSpliced(Start(), 0, calls);
  }

  /** The raster of one frame: line `i` as of event `base` + `i`. */
  function FrameRows(generation: nat, base: nat): (rows: seq<Option<Row>>)
    ensures |rows| == HEIGHT
  {
    seq(HEIGHT, i requires 0 <= i => Some(Row(generation, base + i, i)))
  }

  /** Lines in order from the one awaited, or from the top, fill the scratch frame row by row. */
  lemma {:induction false} InOrderFills(p: Presentation, first: nat, lines: seq<nat>, n: nat)
    requires |p.scratch| == HEIGHT && !p.ready && p.nextLine < HEIGHT
    requires n < HEIGHT && (n == 0 || p.nextLine == n) && n <= first && |lines| >= HEIGHT - n
    requires Consecutive(p.scratch, n, p.generation, first - n)
    requires forall i :: 0 <= i < HEIGHT - n ==> lines[i] == n + i
    ensures var q := CapturedAll(p, first, lines);
            q.ready && q.visible == p.visible && q.scratch == FrameRows(p.generation, first - n)
    decreases HEIGHT - n
  {
    var next := Captured(p, LineEvent(first, lines[0]));
    assert next == p.(scratch := p.scratch[n := Some(Row(p.generation, first, n))], nextLine := n + 1,
                      ready := n + 1 == HEIGHT);
    if n + 1 == HEIGHT {
      assert next.scratch == FrameRows(p.generation, first - n);
      FrozenStays(next, first + 1, lines[1..]);
    } else {
      InOrderFills(next, first + 1, lines[1..], n + 1);
    }
  }

  lemma {:induction false} FrozenStays(p: Presentation, first: nat, lines: seq<nat>)
    requires |p.scratch| == HEIGHT && p.ready && p.nextLine == HEIGHT
    ensures CapturedAll(p, first, lines) == p
    decreases |lines|
  {
    if lines != [] {
      FrozenStays(p, first + 1, lines[1..]);
    }
  }

  /** A completed call that does not start with a full scratch frame and sees lines 0 to 159 in order
      shows exactly those rows, whatever was captured before and whatever lines follow. */
  lemma CompleteFrameShows(p: Presentation, generation: nat, cycles: nat, first: nat, lines: seq<nat>, endCycles: nat)
    requires |p.scratch| == HEIGHT && p.nextLine <= HEIGHT && (p.ready <==> p.nextLine == HEIGHT)
    requires !(p.ready && p.generation == generation && p.cycles == cycles)
    requires |lines| >= HEIGHT && forall i :: 0 <= i < HEIGHT ==> lines[i] == i
    ensures var after := After(p, Frame(generation, cycles, first, lines, endCycles, true));
            after.visible == FrameRows(generation, first) && !after.ready && after.nextLine == 0
  {
    InOrderFills(FrameBegun(p, generation, cycles), first, lines, 0);
    hide CapturedAll, Captured;
  }

  // ---------------------------------------------------------------- the runtime object

  class AndroidRuntime {
    var accumulating: seq<Option<Row>>
    var nextScanline: nat
    var rasterReady: bool
    var renderer: seq<Option<Row>>
    var presentationGeneration: nat
    var presentationCycles: nat

    function State(): Presentation
      reads this
    {
      Presentation(accumulating, nextScanline, rasterReady, renderer, presentationGeneration, presentationCycles)
    }

    constructor ()
      ensures State() == Start()
    {
      accumulating, renderer := Blank(), Blank();
      nextScanline, rasterReady, presentationGeneration, presentationCycles := 0, false, 0, 0;
    }

    method CaptureScanline(e: LineEvent)
      requires Coherent(State(), e.number)
      modifies this
      ensures State() == Captured(old(State()), e) && Coherent(State(), e.number + 1)
    {
      CaptureKeeps(State(), e);
      if rasterReady {
        return;
      }
      if e.line != nextScanline {
        nextScanline := 0;
      }
      if e.line != nextScanline {
        return;
      }
      accumulating := accumulating[e.line := Some(Row(presentationGeneration, e.number, e.line))];
      nextScanline := nextScanline + 1;
      rasterReady := nextScanline == HEIGHT;
    }

    /** The presentation part of step_frame_with_fetch_trace; `lines` are the observer's events. */
    method StepFrame(generation: nat, cycles: nat, ghost last: nat, first: nat, lines: seq<nat>, endCycles: nat,
                     complete: bool)
      requires Coherent(State(), last) && Faithful(State(), last, Frame(generation, cycles, first, lines, endCycles, complete))
      modifies this
      ensures State() == After(old(State()), Frame(generation, cycles, first, lines, endCycles, complete))
      ensures Coherent(State(), first + |lines|) && Presentable(renderer)
    {
      hide Captured, Presentable;
      CallKeeps(State(), last, Frame(generation, cycles, first, lines, endCycles, complete));
      BeginKeeps(State(), generation, cycles, last, first);
      if presentationGeneration != generation || presentationCycles != cycles {
        nextScanline, rasterReady := 0, false;
      }
      presentationGeneration := generation;
      ghost var begun := State();
      for i := 0 to |lines|
        invariant Coherent(State(), first + i)
        invariant CapturedAll(begun, first, lines) == CapturedAll(State(), first + i, lines[i..])
      {
        assert lines[i..][1..] == lines[i + 1..];
        CaptureScanline(LineEvent(first + i, lines[i]));
      }
      if complete && rasterReady {
        renderer := accumulating;
        rasterReady, nextScanline := false, 0;
      }
      presentationCycles := endCycles;
    }

    method Reset()
      modifies this`renderer
      ensures State() == old(State()).(visible := Blank())
    {
      renderer := Blank();
    }
  }
}
