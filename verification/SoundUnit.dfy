/** The sound unit object: channels, FIFOs, sample buffer and the clocked loop that feeds it. */
module SoundUnit {
  import opened Prelude
  import opened Ring
  import opened Apu

  const REFILL: nat := 16

  datatype FifoSample = FifoSample(produced: bool, sample: int, refill: bool)

  /** Byte `i` of a word as a signed sample. */
  function SignedByte(word: u32, i: nat): int
    requires i < 4
  {
    var place := if i == 0 then 1 else if i == 1 then 0x100 else if i == 2 then 0x1_0000 else 0x100_0000;
    var byte := word / place % 256;
    if byte >= 128 then byte - 256 else byte
  }

  class ApuUnit {
    var masterEnabled: bool
    var mixer: Mixer
    var psg: Psg
    var frameRemainder: nat
    var audioRemainder: nat
    var frameStep: nat
    var frameCount: nat
    var sampleCount: nat
    var last: Sample
    const audio: RingBuffer<Sample>
    const fifoA: RingBuffer<int>
    const fifoB: RingBuffer<int>

    ghost function Repr(): set<object> {
      {this, audio, audio.samples, fifoA, fifoA.samples, fifoB, fifoB.samples}
    }

    ghost predicate Valid()
      reads Repr()
    {
      && audio.Valid() && fifoA.Valid() && fifoB.Valid()
      && audio.samples.Length == BUFFER && fifoA.samples.Length == FIFO && fifoB.samples.Length == FIFO
      && fifoA != fifoB && fifoA.samples != fifoB.samples
      && MixerOk(mixer) && ClockedOk(Clock())
    }

    /** What tick reads and changes, with the sample buffer as a queue. */
    ghost function Clock(): Clocked
      requires audio.Valid()
      reads this, audio, audio.samples
    {
      Clocked(psg, frameRemainder, audioRemainder, frameStep, frameCount, sampleCount, audio.Contents(), last)
    }

    constructor ()
      ensures Valid() && fresh(Repr())
      ensures !masterEnabled && psg == SILENT && audio.Contents() == [] && fifoA.Contents() == [] && fifoB.Contents() == []
    {
      masterEnabled := false;
      mixer := Mixer(0, 0, 0, [0, 0, 0, 0, 0, 0, 0, 0], [0, 0, 0, 0, 0, 0, 0, 0], false, 0, 0);
      psg := SILENT;
      frameRemainder, audioRemainder, frameStep, frameCount, sampleCount := 0, 0, 0, 0, 0;
      last := Sample(0, 0);
      audio := new RingBuffer(BUFFER, Sample(0, 0));
      fifoA := new RingBuffer(FIFO, 0);
      fifoB := new RingBuffer(FIFO, 0);
    }

    ghost predicate Ready()
      reads Repr()
    {
      && audio.Valid() && fifoA.Valid() && fifoB.Valid()
      && audio.samples.Length == BUFFER && fifoA.samples.Length == FIFO && fifoB.samples.Length == FIFO
      && fifoA != fifoB && fifoA.samples != fifoB.samples
      && MixerOk(mixer) && PsgOk(psg)
    }

    /** generate_audio_sample, with advance_psg_generators */
    method GenerateAudioSample()
      requires Ready()
      modifies this`last, this`psg, this`sampleCount, audio, audio.samples
      ensures Ready()
      ensures last == Mixed(mixer, old(psg)) && psg == Advanced(old(psg)) && sampleCount == old(sampleCount) + 1
      ensures audio.Contents() == Pushed(old(audio.Contents()), last, BUFFER)
      ensures fifoA.Contents() == old(fifoA.Contents()) && fifoB.Contents() == old(fifoB.Contents())
    {
      hide Mixed, Advanced, Pushed, PsgOk;
      last := Mixed(mixer, psg);
      audio.Push(last);
      sampleCount := sampleCount + 1;
      AdvancedOk(psg);
      psg := Advanced(psg);
    }

    /** The frame-sequencer part of tick. */
    method StepFrames() returns (lastStep: Option<FrameStep>)
      modifies this`frameRemainder, this`frameStep, this`frameCount
      ensures var steps := old(frameRemainder) / STEP_CYCLES;
              && frameRemainder == old(frameRemainder) % STEP_CYCLES
              && (steps > 0 ==> frameStep == StepAfter(old(frameStep), steps))
              && (steps == 0 ==> frameStep == old(frameStep))
              && frameCount == old(frameCount) + steps
              && lastStep == if steps == 0 then None else Some(FrameClocks(StepAfter(old(frameStep), steps)))
    {
      lastStep := None;
      ghost var steps: nat := 0;
      while frameRemainder >= STEP_CYCLES
        invariant old(frameRemainder) == frameRemainder + steps * STEP_CYCLES
        invariant frameStep == (if steps == 0 then old(frameStep) else StepAfter(old(frameStep), steps))
        invariant frameCount == old(frameCount) + steps
        invariant lastStep == if steps == 0 then None else Some(FrameClocks(frameStep))
      {
        frameRemainder := frameRemainder - STEP_CYCLES;
        frameStep := (frameStep + 1) % STEPS;
        StepsJoin(old(frameStep), steps, 1);
        frameCount := frameCount + 1;
        steps := steps + 1;
        lastStep := Some(FrameClocks(frameStep));
      }
    }

    /** The sampling part of tick. */
    method DrainSamples(ghost start: Clocked)
      requires Ready() && ClockedOk(start)
      requires psg == start.psg && last == start.last && sampleCount == start.sampleCount
               && audio.Contents() == start.buffer
      modifies this`audioRemainder, this`last, this`psg, this`sampleCount, audio, audio.samples
      ensures Ready() && audioRemainder == old(audioRemainder) % SAMPLE_CYCLES
      ensures var end := Sampled(mixer, start, old(audioRemainder) / SAMPLE_CYCLES);
              psg == end.psg && last == end.last && sampleCount == end.sampleCount && audio.Contents() == end.buffer
      ensures fifoA.Contents() == old(fifoA.Contents()) && fifoB.Contents() == old(fifoB.Contents())
    {
      hide Mixed, Advanced, Pushed, PsgOk, ClockedOk;
      ghost var n: nat := 0;
      while audioRemainder >= SAMPLE_CYCLES
        invariant Ready() && mixer == old(mixer) && old(audioRemainder) == audioRemainder + n * SAMPLE_CYCLES
        invariant var now := Sampled(mixer, start, n);
                  psg == now.psg && last == now.last && sampleCount == now.sampleCount && audio.Contents() == now.buffer
        invariant fifoA.Contents() == old(fifoA.Contents()) && fifoB.Contents() == old(fifoB.Contents())
      {
        audioRemainder := audioRemainder - SAMPLE_CYCLES;
        GenerateAudioSample();
        n := n + 1;
      }
    }

    /** tick: every whole frame-sequencer period steps it, and every whole sample period makes a sample. */
    method Tick(cycles: u32) returns (lastStep: Option<FrameStep>)
      requires Valid()
      modifies this`frameRemainder, this`audioRemainder, this`frameStep, this`frameCount,
               this`last, this`psg, this`sampleCount, audio, audio.samples
      ensures Valid()
      ensures Clock() == if masterEnabled then Ticked(mixer, old(Clock()), cycles) else old(Clock())
      ensures lastStep == if masterEnabled then LastStep(old(Clock()), cycles) else None
      ensures fifoA.Contents() == old(fifoA.Contents()) && fifoB.Contents() == old(fifoB.Contents())
    {
      hide Sampled, PsgOk, Accumulated, StepAfter;
      if !masterEnabled {
        return None;
      }
      ghost var start := Clock();
      frameRemainder := Accumulated(frameRemainder, cycles);
      audioRemainder := Accumulated(audioRemainder, cycles);
      lastStep := StepFrames();
      NoSteps(start.frameStep);
      DrainSamples(start);
      TickParts(mixer, start, cycles);
    }

    /** FIFO bytes enter lowest first; the oldest are dropped when it is full. */
    method WriteFifo(toB: bool, word: u32)
      requires Valid()
      modifies fifoA, fifoA.samples, fifoB, fifoB.samples
      ensures Valid() && Clock() == old(Clock())
      ensures var target, other := if toB then fifoB else fifoA, if toB then fifoA else fifoB;
              && target.Contents() == WordPushed(old(target.Contents()), word, 4)
              && other.Contents() == old(other.Contents())
    {
      hide Pushed, ClockedOk;
      var target := if toB then fifoB else fifoA;
      for i := 0 to 4
        invariant Valid() && Clock() == old(Clock())
        invariant target.Contents() == WordPushed(old(target.Contents()), word, i)
        invariant (if toB then fifoA else fifoB).Contents() == old((if toB then fifoA else fifoB).Contents())
      {
        target.Push(SignedByte(word, i));
      }
    }

    method PopFifo(fromB: bool) returns (r: FifoSample)
      requires Valid()
      modifies fifoA, fifoB
      ensures Valid() && Clock() == old(Clock())
      ensures var target, other := if fromB then fifoB else fifoA, if fromB then fifoA else fifoB;
              && other.Contents() == old(other.Contents())
              && (old(target.Contents()) == [] ==> r == FifoSample(false, 0, true) && target.Contents() == [])
              && (old(target.Contents()) != [] ==>
                    && old(target.Contents()) == [r.sample] + target.Contents()
                    && r.produced && (r.refill <==> |target.Contents()| <= REFILL))
    {
      hide ClockedOk;
      var target := if fromB then fifoB else fifoA;
      var value := target.Pop();
      if value.None? {
        return FifoSample(false, 0, true);
      }
      return FifoSample(true, value.value, target.size <= REFILL);
    }

    method ConfigureSquareChannel(second: bool, duty: nat, volume: nat, period: nat)
      requires Valid()
      modifies this`psg
      ensures Valid()
      ensures psg == if !masterEnabled then old(psg)
                     else var s := Square(true, duty % 4, Min(volume, 15), Max(1, period), 0);
                          if second then old(psg).(square1 := s) else old(psg).(square0 := s)
      ensures audio.Contents() == old(audio.Contents())
    {
      if masterEnabled {
        var s := Square(true, duty % 4, Min(volume, 15), Max(1, period), 0);
        psg := if second then psg.(square1 := s) else psg.(square0 := s);
      }
    }

    method ConfigureWaveChannel(shift: nat, period: nat)
      requires Valid()
      modifies this`psg
      ensures Valid()
      ensures psg == if masterEnabled then old(psg).(wave := Wave(true, Min(shift, 4), Max(1, period), 0)) else old(psg)
      ensures audio.Contents() == old(audio.Contents())
    {
      if masterEnabled {
        psg := psg.(wave := Wave(true, Min(shift, 4), Max(1, period), 0));
      }
    }

    method ConfigureNoiseChannel(volume: nat, period: nat, narrow: bool)
      requires Valid()
      modifies this`psg
      ensures Valid()
      ensures psg == if masterEnabled
                     then old(psg).(noise := Noise(true, Min(volume, 15), Max(1, period), 0, 0x7FFF, narrow))
                     else old(psg)
      ensures audio.Contents() == old(audio.Contents())
    {
      if masterEnabled {
        psg := psg.(noise := Noise(true, Min(volume, 15), Max(1, period), 0, 0x7FFF, narrow));
      }
    }

    /** clear_sound_circuit: everything but the wave RAM goes back to silence. */
    method ClearSoundCircuit()
      requires Valid()
      modifies Repr()
      ensures Valid() && !masterEnabled
      ensures Clock() == Clocked(SILENT, 0, 0, 0, 0, 0, [], Sample(0, 0))
      ensures mixer == Mixer(0, 0, 0, old(mixer).bank0, old(mixer).bank1, false, 0, 0)
      ensures fifoA.Contents() == [] && fifoB.Contents() == []
    {
      hide ClockedOk;
      masterEnabled := false;
      mixer := Mixer(0, 0, 0, mixer.bank0, mixer.bank1, false, 0, 0);
      psg := SILENT;
      frameRemainder, audioRemainder, frameStep, frameCount, sampleCount := 0, 0, 0, 0, 0;
      last := Sample(0, 0);
      fifoA.Clear(0);
      fifoB.Clear(0);
      audio.Clear(Sample(0, 0));
      assert ClockedOk(Clock()) by { SilentIsOk(); }
    }

    /** SOUNDCNT_X: clearing the master bit resets the sound circuit. */
    method WriteSoundcntX(enable: bool)
      requires Valid()
      modifies Repr()
      ensures Valid() && masterEnabled == enable
      ensures enable ==> Clock() == old(Clock()) && mixer == old(mixer)
                         && fifoA.Contents() == old(fifoA.Contents()) && fifoB.Contents() == old(fifoB.Contents())
      ensures !enable ==> Clock() == Clocked(SILENT, 0, 0, 0, 0, 0, [], Sample(0, 0))
                          && mixer == Mixer(0, 0, 0, old(mixer).bank0, old(mixer).bank1, false, 0, 0)
                          && fifoA.Contents() == [] && fifoB.Contents() == []
    {
      hide ClockedOk;
      if !enable {
        ClearSoundCircuit();
      } else {
        masterEnabled := true;
      }
    }
  }

  lemma SilentIsOk()
    ensures ClockedOk(Clocked(SILENT, 0, 0, 0, 0, 0, [], Sample(0, 0)))
  {
  }

  function WordPushed(queue: seq<int>, word: u32, n: nat): (r: seq<int>)
    requires n <= 4 && |queue| <= FIFO
    ensures |r| <= FIFO
    decreases n
  {
    if n == 0 then queue else Pushed(WordPushed(queue, word, n - 1), SignedByte(word, n - 1), FIFO)
  }

  lemma NoSteps(step: nat)
    requires step < STEPS
    ensures StepAfter(step, 0) == step
  {
  }
}
