/** The sound unit's generators, mixing and clocking, on values. */
module Apu {
  import opened Prelude
  import opened Words
  import opened Ring

  const SAMPLE_CYCLES: nat := 512
  const STEP_CYCLES: nat := 32768
  const STEPS: nat := 8
  const BUFFER: nat := 2048
  const FIFO: nat := 32
  const PSG_SCALE: int := 128

  datatype Square = Square(enabled: bool, duty: nat, volume: nat, period: nat, phase: nat)
  datatype Wave = Wave(enabled: bool, shift: nat, period: nat, phase: nat)
  datatype Noise = Noise(enabled: bool, volume: nat, period: nat, phase: nat, lfsr: nat, narrow: bool)
  datatype Psg = Psg(square0: Square, square1: Square, wave: Wave, noise: Noise)

  datatype Sample = Sample(left: int, right: int)

  // ---------------------------------------------------------------- invariants

  predicate SquareOk(s: Square) { s.phase < s.period && s.duty < 4 && s.volume <= 15 }
  predicate WaveOk(w: Wave) { w.phase < w.period && w.shift <= 4 }

  /** The register stays in 15 bits and never reaches zero; in narrow mode its low seven bits do not
      either, since the feedback loop is seven bits long. */
  predicate NoiseOk(n: Noise) {
    n.phase < n.period && n.volume <= 15 && 0 < n.lfsr < 0x8000 && (n.narrow ==> n.lfsr % 128 != 0)
  }

  predicate PsgOk(p: Psg) {
    SquareOk(p.square0) && SquareOk(p.square1) && WaveOk(p.wave) && NoiseOk(p.noise)
  }

  const SILENT := Psg(Square(false, 0, 0, 1, 0), Square(false, 0, 0, 1, 0), Wave(false, 0, 1, 0),
                      Noise(false, 0, 1, 0, 0x7FFF, false))

  // ---------------------------------------------------------------- generators

  function FeedbackBit(lfsr: nat): (b: nat)
    ensures b <= 1
  {
    (lfsr + lfsr / 2) % 2
  }

  function ShiftedLfsr(lfsr: nat, narrow: bool): nat {
    var bit := FeedbackBit(lfsr);
    var shifted := lfsr / 2 + bit * 0x4000;
    if narrow then shifted - shifted / 64 % 2 * 64 + bit * 64 else shifted
  }

  /** Bit 14, in narrow mode bit 6 too, becomes the exclusive or of bits 0 and 1; the others move down. */
  lemma LfsrShifts(lfsr: nat, narrow: bool)
    requires lfsr < 0x8000
    ensures var next, bit := ShiftedLfsr(lfsr, narrow), if lfsr % 4 == 1 || lfsr % 4 == 2 then 1 else 0;
            && next / 0x4000 == bit && next % 64 == lfsr / 2 % 64
            && next / 128 % 128 == lfsr / 256 && next / 64 % 2 == if narrow then bit else lfsr / 128 % 2
  {
    var high, middle, low := lfsr / 256, lfsr / 128 % 2, lfsr / 2 % 64;
    HalfRegister(lfsr);
    Feedback(lfsr);
    Register(0, high, middle, low);
    Register(FeedbackBit(lfsr), high, middle, low);
    Register(FeedbackBit(lfsr), high, FeedbackBit(lfsr), low);
    hide FeedbackBit;
  }

  lemma HalfRegister(lfsr: nat)
    requires lfsr < 0x8000
    ensures lfsr / 2 == 128 * (lfsr / 256) + 64 * (lfsr / 128 % 2) + lfsr / 2 % 64 && lfsr / 256 < 128
  {
  }

  lemma Feedback(lfsr: nat)
    ensures FeedbackBit(lfsr) == if lfsr % 4 == 1 || lfsr % 4 == 2 then 1 else 0
  {
    var q, r := lfsr / 4, lfsr % 4;
    FeedbackOf(q, r, if r < 2 then 0 else 1);
    assert lfsr == 4 * q + r;
  }

  lemma FeedbackOf(q: nat, r: nat, half: nat)
    requires r < 4 && half == if r < 2 then 0 else 1
    ensures FeedbackBit(4 * q + r) == if r == 1 || r == 2 then 1 else 0
  {
    assert (4 * q + r) / 2 == 2 * q + half;
    assert 4 * q + r + (2 * q + half) == 2 * (3 * q) + (r + half);
  }

  lemma Register(top: nat, high: nat, middle: nat, low: nat)
    requires top <= 1 && high < 128 && middle <= 1 && low < 64
    ensures var x := 0x4000 * top + 128 * high + 64 * middle + low;
            x / 0x4000 == top && x / 128 % 128 == high && x / 64 % 2 == middle && x % 64 == low
  {
    assert (0x4000 * top + 128 * high + 64 * middle + low) / 128 == 128 * top + high;
    assert (0x4000 * top + 128 * high + 64 * middle + low) / 64 == 2 * (128 * top + high) + middle;
  }

  /** Shifting keeps the register alive in both modes. */
  lemma LfsrLives(lfsr: nat, narrow: bool)
    requires 0 < lfsr < 0x8000 && (narrow ==> lfsr % 128 != 0)
    ensures var next := ShiftedLfsr(lfsr, narrow);
            0 < next < 0x8000 && (narrow ==> next % 128 != 0)
  {
    var bit, half := FeedbackBit(lfsr), lfsr / 2;
    assert half == 0 ==> bit == 1;
    if narrow {
      NarrowLoop(lfsr, bit, half % 64);
      NarrowShift(half, bit);
    }
    hide FeedbackBit;
  }

  lemma NarrowLoop(lfsr: nat, bit: nat, low: nat)
    requires lfsr % 128 != 0 && bit == FeedbackBit(lfsr) && low == lfsr / 2 % 64
    ensures low != 0 || bit == 1
  {
  }

  /** In narrow mode the fed-back bit also replaces bit 6. */
  lemma NarrowShift(half: nat, bit: nat)
    requires half < 0x4000 && bit <= 1
    ensures var shifted := half + bit * 0x4000;
            var next := shifted - shifted / 64 % 2 * 64 + bit * 64;
            next % 64 == half % 64 && next / 64 % 2 == bit && next < 0x8000
  {
    var low, b6, high := half % 64, half / 64 % 2, half / 128;
    assert half == 128 * high + 64 * b6 + low;
    var upper := high + 128 * bit;
    var shifted := 128 * upper + 64 * b6 + low;
    DivModUnique(shifted, 64, 2 * upper + b6, low);
    var next := 128 * upper + 64 * bit + low;
    DivModUnique(next, 64, 2 * upper + bit, low);
  }

  function AdvanceSquare(s: Square): Square
    requires s.period > 0
  {
    if s.enabled then s.(phase := (s.phase + 1) % s.period) else s
  }

  function AdvanceWave(w: Wave): Wave
    requires w.period > 0
  {
    if w.enabled then w.(phase := (w.phase + 1) % w.period) else w
  }

  function AdvanceNoise(n: Noise): Noise
    requires n.period > 0
  {
    if !n.enabled then n
    else
      var phase := (n.phase + 1) % n.period;
      n.(phase := phase, lfsr := if phase == 0 then ShiftedLfsr(n.lfsr, n.narrow) else n.lfsr)
  }

  /** One sample's worth of all generators. */
  function Advanced(p: Psg): (q: Psg)
    requires PsgOk(p)
  {
    Psg(AdvanceSquare(p.square0), AdvanceSquare(p.square1), AdvanceWave(p.wave), AdvanceNoise(p.noise))
  }

  lemma NextPhase(phase: nat, period: nat)
    requires phase < period
    ensures (phase + 1) % period == if phase + 1 == period then 0 else phase + 1
  {
    if phase + 1 == period {
      DivModUnique(phase + 1, period, 1, 0);
    } else {
      DivModUnique(phase + 1, period, 0, phase + 1);
    }
  }

  /** Phases stay below their periods and the noise register stays alive. */
  lemma AdvancedOk(p: Psg)
    requires PsgOk(p)
    ensures PsgOk(Advanced(p))
  {
    NextPhase(p.square0.phase, p.square0.period);
    NextPhase(p.square1.phase, p.square1.period);
    NextPhase(p.wave.phase, p.wave.period);
    NextPhase(p.noise.phase, p.noise.period);
    LfsrLives(p.noise.lfsr, p.noise.narrow);
    hide ShiftedLfsr;
  }

  // ---------------------------------------------------------------- the closed form

  function ShiftedTimes(lfsr: nat, narrow: bool, n: nat): nat
    decreases n
  {
    if n == 0 then lfsr else ShiftedLfsr(ShiftedTimes(lfsr, narrow, n - 1), narrow)
  }

  function AdvancedTimes(p: Psg, n: nat): (q: Psg)
    requires PsgOk(p)
    ensures PsgOk(q)
    decreases n
  {
    if n == 0 then p
    else
      AdvancedOk(AdvancedTimes(p, n - 1));
      Advanced(AdvancedTimes(p, n - 1))
  }

  function Turned(phase: nat, period: nat, n: nat): nat
    requires period > 0
  {
    (phase + n) % period
  }

  function Wraps(phase: nat, period: nat, n: nat): nat
    requires period > 0
  {
    (phase + n) / period
  }

  lemma TurnOnce(phase: nat, period: nat, n: nat)
    requires phase < period
    ensures Turned(phase, period, 0) == phase && Wraps(phase, period, 0) == 0
    ensures Turned(phase, period, n) < period
    ensures Turned(phase, period, n + 1) == (Turned(phase, period, n) + 1) % period
    ensures Wraps(phase, period, n + 1)
         == Wraps(phase, period, n) + if Turned(phase, period, n + 1) == 0 then 1 else 0
  {
    DivModUnique(phase, period, 0, phase);
    var q, r := (phase + n) / period, (phase + n) % period;
    NextPhase(r, period);
    if r + 1 == period {
      Distribute(q + 1, q, period);
      DivModUnique(phase + n + 1, period, q + 1, 0);
    } else {
      DivModUnique(phase + n + 1, period, q, r + 1);
    }
  }

  function TurnedSquare(s: Square, n: nat): Square
    requires s.period > 0
  {
    if s.enabled then s.(phase := Turned(s.phase, s.period, n)) else s
  }

  function TurnedWave(w: Wave, n: nat): Wave
    requires w.period > 0
  {
    if w.enabled then w.(phase := Turned(w.phase, w.period, n)) else w
  }

  /** The noise register shifts once for each time its phase comes round. */
  function TurnedNoise(o: Noise, n: nat): Noise
    requires o.period > 0
  {
    if o.enabled
    then o.(phase := Turned(o.phase, o.period, n), lfsr := ShiftedTimes(o.lfsr, o.narrow, Wraps(o.phase, o.period, n)))
    else o
  }

  lemma SquareTurns(s: Square, n: nat)
    requires s.phase < s.period
    ensures TurnedSquare(s, 0) == s && AdvanceSquare(TurnedSquare(s, n)) == TurnedSquare(s, n + 1)
  {
    TurnOnce(s.phase, s.period, n);
    hide Turned;
  }

  lemma WaveTurns(w: Wave, n: nat)
    requires w.phase < w.period
    ensures TurnedWave(w, 0) == w && AdvanceWave(TurnedWave(w, n)) == TurnedWave(w, n + 1)
  {
    TurnOnce(w.phase, w.period, n);
    hide Turned;
  }

  lemma NoiseTurns(o: Noise, n: nat)
    requires o.phase < o.period
    ensures TurnedNoise(o, 0) == o && AdvanceNoise(TurnedNoise(o, n)) == TurnedNoise(o, n + 1)
  {
    TurnOnce(o.phase, o.period, n);
    hide Turned, Wraps, ShiftedLfsr;
  }

  /** After `n` samples an enabled generator's phase has turned by `n`, and the noise register has
      shifted once for each time its phase came round. */
  lemma {:induction false} AdvancedClosedForm(p: Psg, n: nat)
    requires PsgOk(p)
    ensures AdvancedTimes(p, n)
         == Psg(TurnedSquare(p.square0, n), TurnedSquare(p.square1, n), TurnedWave(p.wave, n), TurnedNoise(p.noise, n))
    decreases n
  {
    hide TurnedSquare, TurnedWave, TurnedNoise, AdvanceSquare, AdvanceWave, AdvanceNoise;
    var m := if n == 0 then 0 else n - 1;
    SquareTurns(p.square0, m);
    SquareTurns(p.square1, m);
    WaveTurns(p.wave, m);
    NoiseTurns(p.noise, m);
    if n > 0 {
      AdvancedClosedForm(p, n - 1);
    }
  }

  // ---------------------------------------------------------------- mixing

  /** The registers a mix reads; none of them changes while samples are generated. */
  datatype Mixer = Mixer(nr50: nat, nr51: nat, soundcntH: nat, bank0: seq<u16>, bank1: seq<u16>, playsBank1: bool,
                         latchA: int, latchB: int)

  predicate MixerOk(m: Mixer) {
    |m.bank0| == 8 && |m.bank1| == 8
  }

  function PlayingBank(m: Mixer): seq<u16> {
    if m.playsBank1 then m.bank1 else m.bank0
  }

  predicate Flag(word: nat, mask: nat)
    requires mask > 0
  {
    word / mask % 2 == 1
  }

  function DutyHigh(duty: nat): nat {
    if duty == 0 then 1 else if duty == 1 then 2 else if duty == 2 then 4 else 6
  }

  /** Eight steps to a square's period, thirty-two samples to a wave's. */
  function PhaseStep(phase: nat, period: nat, steps: nat): (i: nat)
    requires phase < period && steps > 0
    ensures i < steps
  {
    StepBound(phase, period, steps);
    phase * steps / period
  }

  lemma StepBound(phase: nat, period: nat, steps: nat)
    requires phase < period && steps > 0
    ensures phase * steps / period < steps
  {
    var q, r := phase * steps / period, phase * steps % period;
    assert phase * steps == q * period + r;
    Larger(phase + 1, period, steps);
    assert (phase + 1) * steps == phase * steps + steps;
    if q >= steps {
      Larger(steps, q, period);
    }
  }

  lemma Larger(a: nat, b: nat, c: nat)
    requires a <= b
    ensures a * c <= b * c
  {
  }

  function SquareOutput(s: Square): int
    requires SquareOk(s)
  {
    if !s.enabled || s.volume == 0 then 0
    else (if PhaseStep(s.phase, s.period, 8) < DutyHigh(s.duty) then 1 else -1) * s.volume * PSG_SCALE
  }

  /** The steps divide the period evenly. */
  lemma StepsEven(phase: nat, period: nat, steps: nat)
    requires phase < period && steps > 0
    ensures var i := PhaseStep(phase, period, steps); i * period <= phase * steps < i * period + period
  {
  }

  /** A square is high for the first 1, 2, 4 or 6 eighths of its period, at 128 per volume step. */
  lemma SquareLevels(s: Square)
    requires SquareOk(s) && s.enabled
    ensures var high := if s.duty == 0 then 1 else if s.duty == 1 then 2 else if s.duty == 2 then 4 else 6;
            SquareOutput(s) == if s.phase * 8 < high * s.period then s.volume * 128 else -(s.volume * 128)
  {
    var i, high := PhaseStep(s.phase, s.period, 8), DutyHigh(s.duty);
    StepsEven(s.phase, s.period, 8);
    hide PhaseStep;
    if i < high {
      Larger(i + 1, high, s.period);
    } else {
      Larger(high, i, s.period);
    }
  }

  function Pow2(n: nat): (p: nat)
    requires n <= 3
    ensures p > 0
  {
    if n == 0 then 1 else if n == 1 then 2 else if n == 2 then 4 else 8
  }

  /** The four-bit sample at the wave's position, first sample in the top nibble. */
  function WaveNibble(bank: seq<u16>, index: nat): nat
    requires |bank| == 8 && index < 32
  {
    var packed: int := bank[index / 4];
    var place := index % 4;
    (if place == 0 then packed / 0x1000 else if place == 1 then packed / 0x100 else if place == 2 then packed / 0x10
     else packed) % 16
  }

  /** A halfword of wave RAM is four samples, the first in the top nibble. */
  lemma WaveSamples(bank: seq<u16>, k: nat)
    requires |bank| == 8 && k < 8
    ensures bank[k] == 0x1000 * WaveNibble(bank, 4 * k) + 0x100 * WaveNibble(bank, 4 * k + 1)
                       + 0x10 * WaveNibble(bank, 4 * k + 2) + WaveNibble(bank, 4 * k + 3)
  {
    Nibbles(bank[k]);
    Place(k, 0);
    Place(k, 1);
    Place(k, 2);
    Place(k, 3);
  }

  lemma Place(k: nat, place: nat)
    requires place < 4
    ensures (4 * k + place) / 4 == k && (4 * k + place) % 4 == place
  {
  }

  lemma Nibbles(packed: int)
    requires 0 <= packed < 0x1_0000
    ensures packed == 0x1000 * (packed / 0x1000 % 16) + 0x100 * (packed / 0x100 % 16) + 0x10 * (packed / 0x10 % 16)
                      + packed % 16
  {
    var a := packed / 16;
    var b := a / 16;
    var c := b / 16;
    assert packed / 0x100 == b && packed / 0x1000 == c < 16;
    assert packed == 16 * a + packed % 16 && a == 16 * b + a % 16 && b == 16 * c + b % 16;
  }

  function WaveOutput(w: Wave, bank: seq<u16>): int
    requires WaveOk(w) && |bank| == 8
  {
    if !w.enabled || w.shift == 0 then 0
    else (WaveNibble(bank, PhaseStep(w.phase, w.period, 32)) - 8) * PSG_SCALE / Pow2(w.shift - 1)
  }

  function NoiseOutput(n: Noise): int {
    if !n.enabled || n.volume == 0 then 0 else (if n.lfsr % 2 == 0 then 1 else -1) * n.volume * PSG_SCALE
  }

  function Clamp(x: int): int {
    Max(-32768, Min(32767, x))
  }

  /** One side of the mix: routed PSG channels at its volume, and routed Direct Sound. */
  function Side(m: Mixer, p: Psg, volume: nat, route: nat, directA: nat, directB: nat): int
    requires PsgOk(p) && MixerOk(m) && route > 0 && directA > 0 && directB > 0
  {
    (if Flag(m.nr51, route) then SquareOutput(p.square0) * (volume + 1) else 0)
    + (if Flag(m.nr51, 2 * route) then SquareOutput(p.square1) * (volume + 1) else 0)
    + (if Flag(m.nr51, 4 * route) then WaveOutput(p.wave, PlayingBank(m)) * (volume + 1) else 0)
    + (if Flag(m.nr51, 8 * route) then NoiseOutput(p.noise) * (volume + 1) else 0)
    + (if DirectOn(m, 0x100) && Flag(m.soundcntH, directA) then m.latchA * 128 * (if Flag(m.soundcntH, 4) then 2 else 1) else 0)
    + (if DirectOn(m, 0x1000) && Flag(m.soundcntH, directB) then m.latchB * 128 * (if Flag(m.soundcntH, 8) then 2 else 1) else 0)
  }

  predicate DirectOn(m: Mixer, right: nat)
    requires right > 0
  {
    Flag(m.soundcntH, right) || Flag(m.soundcntH, 2 * right)
  }

  function Mixed(m: Mixer, p: Psg): Sample
    requires PsgOk(p) && MixerOk(m)
  {
    Sample(Clamp(Side(m, p, m.nr50 / 16 % 8, 16, 0x200, 0x2000)), Clamp(Side(m, p, m.nr50 % 8, 1, 0x100, 0x1000)))
  }

  /** Which channel goes to which side how loud: bits 4 to 7 of NR51 and bits 4 to 6 of NR50 are for the
      left, bits 0 to 3 and 0 to 2 for the right; Direct Sound has bits of its own. */
  lemma MixedSides(m: Mixer, p: Psg)
    requires PsgOk(p) && MixerOk(m)
    ensures var s0, s1, n := SquareOutput(p.square0), SquareOutput(p.square1), NoiseOutput(p.noise);
            var w := WaveOutput(p.wave, if m.playsBank1 then m.bank1 else m.bank0);
            var a := if m.soundcntH / 4 % 2 == 1 then m.latchA * 256 else m.latchA * 128;
            var b := if m.soundcntH / 8 % 2 == 1 then m.latchB * 256 else m.latchB * 128;
            var l, r := m.nr51 / 16, m.nr51;
            && Mixed(m, p).left
               == Clamp(Routed(l, s0, s1, w, n) * (m.nr50 / 16 % 8 + 1)
                        + (if m.soundcntH / 0x200 % 2 == 1 then a else 0)
                        + if m.soundcntH / 0x2000 % 2 == 1 then b else 0)
            && Mixed(m, p).right
               == Clamp(Routed(r, s0, s1, w, n) * (m.nr50 % 8 + 1)
                        + (if m.soundcntH / 0x100 % 2 == 1 then a else 0)
                        + if m.soundcntH / 0x1000 % 2 == 1 then b else 0)
  {
    hide SquareOutput, NoiseOutput, WaveOutput, Clamp, SquareOk, WaveOk, Routed;
    var s0, s1, n := SquareOutput(p.square0), SquareOutput(p.square1), NoiseOutput(p.noise);
    var w := WaveOutput(p.wave, if m.playsBank1 then m.bank1 else m.bank0);
    RoutedTimes(m.nr51 / 16, s0, s1, w, n, m.nr50 / 16 % 8 + 1);
    RoutedTimes(m.nr51, s0, s1, w, n, m.nr50 % 8 + 1);
    RouteBits(m.nr51);
  }

  /** The channels routed by the four lowest bits. */
  function Routed(route: nat, s0: int, s1: int, w: int, n: int): int {
    (if route % 2 == 1 then s0 else 0) + (if route / 2 % 2 == 1 then s1 else 0)
    + (if route / 4 % 2 == 1 then w else 0) + (if route / 8 % 2 == 1 then n else 0)
  }

  lemma RoutedTimes(route: nat, s0: int, s1: int, w: int, n: int, volume: nat)
    ensures Routed(route, s0, s1, w, n) * volume
         == (if route % 2 == 1 then s0 * volume else 0) + (if route / 2 % 2 == 1 then s1 * volume else 0)
            + (if route / 4 % 2 == 1 then w * volume else 0) + (if route / 8 % 2 == 1 then n * volume else 0)
  {
    var a, b := if route % 2 == 1 then s0 else 0, if route / 2 % 2 == 1 then s1 else 0;
    var c, d := if route / 4 % 2 == 1 then w else 0, if route / 8 % 2 == 1 then n else 0;
    assert (a + b + c + d) * volume == a * volume + b * volume + c * volume + d * volume;
  }

  lemma RouteBits(x: nat)
    ensures x / 16 / 2 == x / 32 && x / 16 / 4 == x / 64 && x / 16 / 8 == x / 128
  {
  }

  // ---------------------------------------------------------------- clocking

  datatype FrameStep = FrameStep(step: nat, length: bool, sweep: bool, envelope: bool)

  function FrameClocks(step: nat): FrameStep {
    FrameStep(step, step == 0 || step == 2 || step == 4 || step == 6, step == 2 || step == 6, step == 7)
  }

  /** What a tick changes. */
  datatype Clocked = Clocked(psg: Psg, frameRemainder: nat, audioRemainder: nat, frameStep: nat, frameCount: nat,
                             sampleCount: nat, buffer: seq<Sample>, last: Sample)

  predicate ClockedOk(c: Clocked) {
    && PsgOk(c.psg) && c.frameRemainder < STEP_CYCLES && c.audioRemainder < SAMPLE_CYCLES && c.frameStep < STEPS
    && |c.buffer| <= BUFFER
  }

  /** generate_audio_sample, `n` times. */
  function Sampled(m: Mixer, c: Clocked, n: nat): (r: Clocked)
    requires MixerOk(m) && ClockedOk(c)
    ensures ClockedOk(r)
    decreases n
  {
    if n == 0 then c
    else
      var before := Sampled(m, c, n - 1);
      AdvancedOk(before.psg);
      var sample := Mixed(m, before.psg);
      before.(psg := Advanced(before.psg), sampleCount := before.sampleCount + 1,
              buffer := Pushed(before.buffer, sample, BUFFER), last := sample)
  }

  /** Sampling moves the generators on and counts; the frame sequencer is not touched. */
  lemma {:induction false} SampledShape(m: Mixer, c: Clocked, n: nat)
    requires MixerOk(m) && ClockedOk(c)
    ensures var r := Sampled(m, c, n);
            r == c.(psg := AdvancedTimes(c.psg, n), sampleCount := c.sampleCount + n, buffer := r.buffer, last := r.last)
    decreases n
  {
    hide Mixed, Advanced;
    if n > 0 {
      SampledShape(m, c, n - 1);
    }
  }

  /** Remainders are 32-bit counters. */
  function Accumulated(remainder: nat, cycles: u32): u32 {
    (remainder + cycles) % TWO32
  }

  /** Whole periods a counter completes, and what it keeps. */
  function Completed(remainder: nat, period: nat, cycles: u32): nat
    requires period > 0
  {
    Accumulated(remainder, cycles) / period
  }

  function Kept(remainder: nat, period: nat, cycles: u32): (k: nat)
    requires period > 0
    ensures k < period
  {
    Accumulated(remainder, cycles) % period
  }

  function StepAfter(step: nat, steps: nat): (r: nat)
    ensures r < STEPS
  {
    (step + steps) % STEPS
  }

  function Ticked(m: Mixer, c: Clocked, cycles: u32): (r: Clocked)
    requires MixerOk(m) && ClockedOk(c)
    ensures ClockedOk(r)
  {
    var steps := Completed(c.frameRemainder, STEP_CYCLES, cycles);
    Sampled(m, c.(frameRemainder := Kept(c.frameRemainder, STEP_CYCLES, cycles),
                  audioRemainder := Kept(c.audioRemainder, SAMPLE_CYCLES, cycles),
                  frameStep := StepAfter(c.frameStep, steps), frameCount := c.frameCount + steps),
            Completed(c.audioRemainder, SAMPLE_CYCLES, cycles))
  }

  /** tick's result: the last frame step it reached, if any. */
  function LastStep(c: Clocked, cycles: u32): Option<FrameStep>
    requires ClockedOk(c)
  {
    var steps := Completed(c.frameRemainder, STEP_CYCLES, cycles);
    if steps == 0 then None else Some(FrameClocks(StepAfter(c.frameStep, steps)))
  }

  /** What a tick counts, short of the 32-bit limit: a sample every 512 cycles, a frame step every
      32768, eight steps to a frame; lengths clock on even steps, sweeps on steps 2 and 6, envelopes on 7. */
  lemma TickedCounts(m: Mixer, c: Clocked, n: u32)
    requires MixerOk(m) && ClockedOk(c) && n <= 0x1_0000_0000 - 32768
    ensures var t := Ticked(m, c, n);
            var steps := (c.frameRemainder + n) / 32768;
            && t.sampleCount == c.sampleCount + (c.audioRemainder + n) / 512
            && t.audioRemainder == (c.audioRemainder + n) % 512
            && t.frameCount == c.frameCount + steps && t.frameRemainder == (c.frameRemainder + n) % 32768
            && t.frameStep == (c.frameStep + steps) % 8
            && t.psg == AdvancedTimes(c.psg, (c.audioRemainder + n) / 512)
            && LastStep(c, n)
               == if steps == 0 then None
                  else Some(FrameStep(t.frameStep, t.frameStep % 2 == 0, t.frameStep == 2 || t.frameStep == 6,
                                      t.frameStep == 7))
  {
    hide *;
    Constants();
    OkRemainders(c);
    TickedFields(m, c, n);
    ShortCount(c.frameRemainder, STEP_CYCLES, n);
    ShortCount(c.audioRemainder, SAMPLE_CYCLES, n);
    StepIs(c.frameStep, Completed(c.frameRemainder, STEP_CYCLES, n));
  }

  lemma Constants()
    ensures STEP_CYCLES == 32768 && SAMPLE_CYCLES == 512 && STEPS == 8
  {
  }

  lemma TickedFields(m: Mixer, c: Clocked, n: u32)
    requires MixerOk(m) && ClockedOk(c)
    ensures var t := Ticked(m, c, n);
            var steps := Completed(c.frameRemainder, STEP_CYCLES, n);
            var samples := Completed(c.audioRemainder, SAMPLE_CYCLES, n);
            && t.sampleCount == c.sampleCount + samples && t.audioRemainder == Kept(c.audioRemainder, SAMPLE_CYCLES, n)
            && t.frameCount == c.frameCount + steps && t.frameRemainder == Kept(c.frameRemainder, STEP_CYCLES, n)
            && t.frameStep == StepAfter(c.frameStep, steps) && t.psg == AdvancedTimes(c.psg, samples)
            && LastStep(c, n) == if steps == 0 then None else Some(FrameClocks(t.frameStep))
  {
    hide Ticked, Sampled, AdvancedTimes, MixerOk, ClockedOk, Completed, Kept, StepAfter, FrameClocks, LastStep;
    var steps := Completed(c.frameRemainder, STEP_CYCLES, n);
    LastStepIs(c, n, steps, StepAfter(c.frameStep, steps));
    TickParts(m, c, n);
    SampledShape(m, c, Completed(c.audioRemainder, SAMPLE_CYCLES, n));
  }

  lemma LastStepIs(c: Clocked, n: u32, steps: nat, after: nat)
    requires ClockedOk(c) && steps == Completed(c.frameRemainder, STEP_CYCLES, n) && after == StepAfter(c.frameStep, steps)
    ensures LastStep(c, n) == if steps == 0 then None else Some(FrameClocks(after))
  {
    hide Completed, StepAfter, FrameClocks, ClockedOk;
  }

  lemma ShortCount(remainder: nat, period: nat, n: u32)
    requires remainder < period <= 32768 && n <= 0x1_0000_0000 - 32768
    ensures Completed(remainder, period, n) == (remainder + n) / period
    ensures Kept(remainder, period, n) == (remainder + n) % period
  {
    assert (remainder + n) % TWO32 == remainder + n;
  }

  lemma StepIs(step: nat, k: nat)
    requires step < 8
    ensures StepAfter(step, k) == (step + k) % 8
    ensures var s := StepAfter(step, k); FrameClocks(s) == FrameStep(s, s % 2 == 0, s == 2 || s == 6, s == 7)
  {
  }

  lemma {:induction false} SampledJoins(m: Mixer, c: Clocked, a: nat, b: nat)
    requires MixerOk(m) && ClockedOk(c)
    ensures Sampled(m, Sampled(m, c, a), b) == Sampled(m, c, a + b)
    decreases b
  {
    hide Mixed, Advanced;
    if b > 0 {
      SampledJoins(m, c, a, b - 1);
    }
  }

  /** Sampling neither reads nor writes the frame sequencer. */
  lemma {:induction false} SampledFrame(m: Mixer, c: Clocked, n: nat, frame: nat, audio: nat, step: nat, count: nat)
    requires MixerOk(m) && ClockedOk(c) && frame < STEP_CYCLES && audio < SAMPLE_CYCLES && step < STEPS
    ensures Sampled(m, c.(frameRemainder := frame, audioRemainder := audio, frameStep := step, frameCount := count), n)
         == Sampled(m, c, n).(frameRemainder := frame, audioRemainder := audio, frameStep := step, frameCount := count)
    decreases n
  {
    hide Mixed, Advanced;
    if n > 0 {
      SampledFrame(m, c, n - 1, frame, audio, step, count);
    }
  }

  function Lost(remainder: nat, cycles: nat): nat {
    if remainder + cycles >= TWO32 then 1 else 0
  }

  /** Splitting the cycles drops a whole 32-bit turn as often as not splitting them. */
  predicate SameLosses(remainder: nat, period: nat, a: nat, b: nat)
    requires period > 0
  {
    Lost(remainder, a + b) == Lost(remainder, a) + Lost(Turned(remainder, period, a), b)
  }

  lemma CounterSplit(remainder: nat, period: nat, turns: nat, a: u32, b: u32)
    requires remainder < period && a + b < TWO32 && turns * period == TWO32 && turns > 0
    ensures var first := Kept(remainder, period, a);
            && Kept(first, period, b) == Kept(remainder, period, a + b)
            && (Completed(remainder, period, a) + Completed(first, period, b) == Completed(remainder, period, a + b)
                <==> SameLosses(remainder, period, a, b))
  {
    hide Kept, Completed, Turned, Wraps, Lost, Accumulated;
    AccumulatedParts(remainder, period, turns, a);
    AccumulatedParts(remainder, period, turns, a + b);
    var middle := Kept(remainder, period, a);
    AccumulatedParts(middle, period, turns, b);
    JoinedParts(remainder, period, a, b);
    TurnsCount(Completed(remainder, period, a), Completed(middle, period, b), Completed(remainder, period, a + b), turns,
               Lost(remainder, a) + Lost(middle, b), Lost(remainder, a + b),
               Wraps(remainder, period, a), Wraps(middle, period, b), Wraps(remainder, period, a + b));
  }

  lemma TurnsCount(ca: nat, cb: nat, cab: nat, turns: nat, split: nat, whole: nat, qa: nat, qb: nat, qab: nat)
    requires turns > 0 && ca + cb + turns * split == qa + qb && cab + turns * whole == qab && qa + qb == qab
    ensures ca + cb == cab <==> whole == split
  {
    if whole < split {
      Larger(whole + 1, split, turns);
    } else if split < whole {
      Larger(split + 1, whole, turns);
    }
  }

  lemma AccumulatedParts(remainder: nat, period: nat, turns: nat, n: u32)
    requires remainder < period && turns * period == TWO32
    ensures Kept(remainder, period, n) == Turned(remainder, period, n)
    ensures Completed(remainder, period, n) + turns * Lost(remainder, n) == Wraps(remainder, period, n)
  {
    SmallPeriod(turns, period);
    var x := remainder + n;
    if x >= TWO32 {
      DivModUnique(x, TWO32, 1, x - TWO32);
      var q, r := (x - TWO32) / period, (x - TWO32) % period;
      assert (q + turns) * period == q * period + turns * period;
      DivModUnique(x, period, q + turns, r);
    } else {
      DivModUnique(x, TWO32, 0, x);
    }
  }

  lemma SmallPeriod(turns: nat, period: nat)
    requires turns * period == TWO32
    ensures period <= TWO32
  {
    if turns >= 1 {
      Larger(1, turns, period);
    }
  }

  lemma JoinedParts(remainder: nat, period: nat, a: nat, b: nat)
    requires period > 0
    ensures Turned(Turned(remainder, period, a), period, b) == Turned(remainder, period, a + b)
    ensures Wraps(remainder, period, a) + Wraps(Turned(remainder, period, a), period, b) == Wraps(remainder, period, a + b)
  {
    var q, r := (remainder + a) / period, (remainder + a) % period;
    var q2, r2 := (r + b) / period, (r + b) % period;
    assert (q + q2) * period == q * period + q2 * period;
    DivModUnique(remainder + a + b, period, q + q2, r2);
  }

  lemma FrameSplit(c: Clocked, a: u32, b: u32)
    requires ClockedOk(c) && a + b < TWO32
    ensures var first := Kept(c.frameRemainder, STEP_CYCLES, a);
            && Kept(first, STEP_CYCLES, b) == Kept(c.frameRemainder, STEP_CYCLES, a + b)
            && (Completed(c.frameRemainder, STEP_CYCLES, a) + Completed(first, STEP_CYCLES, b)
                == Completed(c.frameRemainder, STEP_CYCLES, a + b)
                <==> SameLosses(c.frameRemainder, STEP_CYCLES, a, b))
  {
    hide Kept, Completed, SameLosses;
    CounterSplit(c.frameRemainder, STEP_CYCLES, 131072, a, b);
  }

  lemma AudioSplit(c: Clocked, a: u32, b: u32)
    requires ClockedOk(c) && a + b < TWO32
    ensures var first := Kept(c.audioRemainder, SAMPLE_CYCLES, a);
            && Kept(first, SAMPLE_CYCLES, b) == Kept(c.audioRemainder, SAMPLE_CYCLES, a + b)
            && (Completed(c.audioRemainder, SAMPLE_CYCLES, a) + Completed(first, SAMPLE_CYCLES, b)
                == Completed(c.audioRemainder, SAMPLE_CYCLES, a + b)
                <==> SameLosses(c.audioRemainder, SAMPLE_CYCLES, a, b))
  {
    hide Kept, Completed, SameLosses;
    CounterSplit(c.audioRemainder, SAMPLE_CYCLES, 8388608, a, b);
  }

  /** tick(a); tick(b) is tick(a + b) -- samples, generators and frame sequencer -- exactly when
      both remainder counters lose the same number of 32-bit turns either way. */
  lemma TickSplits(m: Mixer, c: Clocked, a: u32, b: u32)
    requires MixerOk(m) && ClockedOk(c) && a + b < TWO32
    ensures Ticked(m, Ticked(m, c, a), b) == Ticked(m, c, a + b)
       <==> SameLosses(c.frameRemainder, STEP_CYCLES, a, b) && SameLosses(c.audioRemainder, SAMPLE_CYCLES, a, b)
    ensures SameLosses(c.frameRemainder, STEP_CYCLES, a, b) ==>
              LastStep(c, a + b)
              == if LastStep(Ticked(m, c, a), b).Some? then LastStep(Ticked(m, c, a), b) else LastStep(c, a)
  {
    hide Kept, Completed, SameLosses, Ticked, Sampled, StepAfter, AdvancedTimes, ClockedOk, FrameClocks, MixerOk, LastStep;
    var frame1, audio1 := Kept(c.frameRemainder, STEP_CYCLES, a), Kept(c.audioRemainder, SAMPLE_CYCLES, a);
    FrameSplit(c, a, b);
    AudioSplit(c, a, b);
    TickTwice(m, c, a, b);
    TickParts(m, c, a + b);
    var steps := Completed(c.frameRemainder, STEP_CYCLES, a) + Completed(frame1, STEP_CYCLES, b);
    var samples := Completed(c.audioRemainder, SAMPLE_CYCLES, a) + Completed(audio1, SAMPLE_CYCLES, b);
    SampledShape(m, c, samples);
    SampledShape(m, c, Completed(c.audioRemainder, SAMPLE_CYCLES, a + b));
    if SameLosses(c.frameRemainder, STEP_CYCLES, a, b) {
      LastStepSplits(m, c, a, b);
    }
  }

  /** Ticks this short never lose a turn, so they join without condition. */
  lemma ShortTicksSplit(m: Mixer, c: Clocked, a: u32, b: u32)
    requires MixerOk(m) && ClockedOk(c) && a + b <= TWO32 - STEP_CYCLES
    ensures Ticked(m, Ticked(m, c, a), b) == Ticked(m, c, a + b)
    ensures LastStep(c, a + b)
         == if LastStep(Ticked(m, c, a), b).Some? then LastStep(Ticked(m, c, a), b) else LastStep(c, a)
  {
    OkRemainders(c);
    TickSplits(m, c, a, b);
    NothingLost(c.frameRemainder, STEP_CYCLES, a, b);
    NothingLost(c.audioRemainder, SAMPLE_CYCLES, a, b);
    hide Ticked, LastStep, SameLosses, ClockedOk, MixerOk;
  }

  lemma NothingLost(remainder: nat, period: nat, a: u32, b: u32)
    requires remainder < period <= STEP_CYCLES && a + b <= TWO32 - STEP_CYCLES
    ensures SameLosses(remainder, period, a, b)
  {
    hide Kept, Completed;
    assert Turned(remainder, period, a) < period;
  }

  /** A tick of 2^32 - 1 cycles just before a frame step loses a turn that a tick of one cycle and a
      second of the rest do not. */
  lemma LongTickLoses(m: Mixer, c: Clocked)
    requires MixerOk(m) && ClockedOk(c) && c.frameRemainder == STEP_CYCLES - 1
    ensures Ticked(m, Ticked(m, c, 1), TWO32 - 2) != Ticked(m, c, TWO32 - 1)
  {
    TickSplits(m, c, 1, TWO32 - 2);
    assert !SameLosses(c.frameRemainder, STEP_CYCLES, 1, TWO32 - 2);
    hide Ticked;
  }

  lemma OkRemainders(c: Clocked)
    requires ClockedOk(c)
    ensures c.frameRemainder < STEP_CYCLES && c.audioRemainder < SAMPLE_CYCLES && c.frameStep < STEPS
  {
  }

  /** Two ticks as one run of samples. */
  lemma TickTwice(m: Mixer, c: Clocked, a: u32, b: u32)
    requires MixerOk(m) && ClockedOk(c)
    ensures var frame1, audio1 := Kept(c.frameRemainder, STEP_CYCLES, a), Kept(c.audioRemainder, SAMPLE_CYCLES, a);
            var steps := Completed(c.frameRemainder, STEP_CYCLES, a) + Completed(frame1, STEP_CYCLES, b);
            var samples := Completed(c.audioRemainder, SAMPLE_CYCLES, a) + Completed(audio1, SAMPLE_CYCLES, b);
            Ticked(m, Ticked(m, c, a), b)
            == Sampled(m, c, samples).(
                 frameRemainder := Kept(frame1, STEP_CYCLES, b), audioRemainder := Kept(audio1, SAMPLE_CYCLES, b),
                 frameStep := StepAfter(c.frameStep, steps), frameCount := c.frameCount + steps)
  {
    hide *;
    TickParts(m, c, a);
    var middle := Ticked(m, c, a);
    TickParts(m, middle, b);
    OkRemainders(middle);
    var j1, j2 := Completed(c.audioRemainder, SAMPLE_CYCLES, a), Completed(middle.audioRemainder, SAMPLE_CYCLES, b);
    StepsJoin(c.frameStep, Completed(c.frameRemainder, STEP_CYCLES, a),
              Completed(middle.frameRemainder, STEP_CYCLES, b));
    SampledJoins(m, c, j1, j2);
    SampledFrame(m, Sampled(m, c, j1), j2, middle.frameRemainder, middle.audioRemainder, middle.frameStep,
                 middle.frameCount);
  }

  lemma LastStepSplits(m: Mixer, c: Clocked, a: u32, b: u32)
    requires MixerOk(m) && ClockedOk(c) && a + b < TWO32 && SameLosses(c.frameRemainder, STEP_CYCLES, a, b)
    ensures LastStep(c, a + b)
         == if LastStep(Ticked(m, c, a), b).Some? then LastStep(Ticked(m, c, a), b) else LastStep(c, a)
  {
    FrameSplit(c, a, b);
    TickParts(m, c, a);
    hide Completed, Kept, StepAfter, Ticked, SameLosses, Sampled, FrameClocks;
    var frame1 := Kept(c.frameRemainder, STEP_CYCLES, a);
    StepsJoin(c.frameStep, Completed(c.frameRemainder, STEP_CYCLES, a), Completed(frame1, STEP_CYCLES, b));
  }

  lemma StepsJoin(step: nat, k: nat, j: nat)
    ensures StepAfter(StepAfter(step, k), j) == StepAfter(step, k + j)
  {
  }

  /** A tick is its samples, with the frame sequencer moved on beside them. */
  lemma TickParts(m: Mixer, c: Clocked, n: u32)
    requires MixerOk(m) && ClockedOk(c)
    ensures var steps := Completed(c.frameRemainder, STEP_CYCLES, n);
            Ticked(m, c, n)
            == Sampled(m, c, Completed(c.audioRemainder, SAMPLE_CYCLES, n)).(
                 frameRemainder := Kept(c.frameRemainder, STEP_CYCLES, n),
                 audioRemainder := Kept(c.audioRemainder, SAMPLE_CYCLES, n),
                 frameStep := StepAfter(c.frameStep, steps), frameCount := c.frameCount + steps)
  {
    hide Completed, Kept, StepAfter, Sampled, Accumulated;
    var steps := Completed(c.frameRemainder, STEP_CYCLES, n);
    SampledFrame(m, c, Completed(c.audioRemainder, SAMPLE_CYCLES, n), Kept(c.frameRemainder, STEP_CYCLES, n),
                 Kept(c.audioRemainder, SAMPLE_CYCLES, n), StepAfter(c.frameStep, steps), c.frameCount + steps);
  }
}
