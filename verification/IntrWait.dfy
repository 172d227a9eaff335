/** IntrWait by polling every cycle, and why jumping by whole batches is the same. */
module IntrWait {
  import D = Devices
  import H = WakeHorizon

  /** Outcome of a wait: whether a watched flag was seen, after how many cycles, and where. */
  datatype Waited = Waited(matched: bool, cycles: nat, devices: D.Devices)

  /** The legacy loop: look at the flags, advance one cycle, look again. */
  function PollWait(d: D.Devices, mask: set<nat>, budget: nat): Waited
    decreases budget
  {
    if d.flags * mask != {} then Waited(true, 0, d)
    else if budget == 0 then Waited(false, 0, d)
    else
      var rest := PollWait(D.Step(d), mask, budget - 1);
      rest.(cycles := rest.cycles + 1)
  }

  /** Polling stops at the first cycle after which a watched flag is set, or when the budget is spent. */
  lemma {:induction false} PollWaitIsFirst(d: D.Devices, mask: set<nat>, budget: nat)
    ensures var w := PollWait(d, mask, budget);
            && w.cycles <= budget && w.devices == D.Run(d, w.cycles)
            && (forall k: nat :: k < w.cycles ==> D.Run(d, k).flags * mask == {})
            && (w.matched <==> w.devices.flags * mask != {}) && (!w.matched ==> w.cycles == budget)
    decreases budget
  {
    hide D.Step;
    RunNone(d);
    if d.flags * mask == {} && budget > 0 {
      PollWaitIsFirst(D.Step(d), mask, budget - 1);
      var w := PollWait(d, mask, budget);
      forall k: nat | k < w.cycles
        ensures D.Run(d, k).flags * mask == {}
      {
        if k > 0 {
          assert D.Run(d, k) == D.Run(D.Step(d), k - 1);
        }
      }
    }
  }

  function Delayed(w: Waited, cycles: nat): Waited {
    w.(cycles := w.cycles + cycles)
  }

  /** Polling does nothing observable until the batch is over. */
  lemma {:induction false} BatchSkipsPolls(d: D.Devices, mask: set<nat>, budget: nat, k: nat)
    requires D.Good(d) && d.flags * mask == {}
    requires k <= budget && k <= H.BatchCycles(d, mask)
    ensures PollWait(d, mask, budget) == Delayed(PollWait(D.Run(d, k), mask, budget - k), k)
    decreases k
  {
    hide D.Good, D.Step, H.BatchCycles;
    if k == 0 {
      RunNone(d);
    } else {
      hide D.Run;
      BatchSkipsPolls(d, mask, budget, k - 1);
      H.BatchStopsAtEdge(d, mask, k - 1);
      D.RunSplits(d, k - 1, 1);
      RunOne(D.Run(d, k - 1));
    }
  }

  lemma RunNone(d: D.Devices)
    ensures D.Run(d, 0) == d
  {
    hide D.Step;
  }

  lemma RunOne(d: D.Devices)
    ensures D.Run(d, 1) == D.Step(d)
  {
    hide D.Step;
    assert D.Run(D.Step(d), 0) == D.Step(d);
  }
}
