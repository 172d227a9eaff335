/** tick() visits the timers in order; after visiting `k` of them it has applied the flow of
    the first `k` sources. */
module TimerSweep {
  import opened Prelude
  import opened TimerModel
  import opened TimerWindow
  import opened TimerChain

  /** The sources of the first `k` timers. */
  function Upto(e: Sources, k: nat): Sources {
    [if 0 < k then e[0] else [], if 1 < k then e[1] else [], if 2 < k then e[2] else [], if 3 < k then e[3] else []]
  }

  /** The sweep after `k` timers: the flow so far, with the first `k` timers settled. */
  function Swept(ts: Bank, wires: Wires, e: Sources, n: nat, k: nat): Outcome {
    var flow := Flow(ts, wires, Upto(e, k));
    flow.(ts := [if 0 < k then SettleTimer(flow.ts[0], n) else flow.ts[0],
                 if 1 < k then SettleTimer(flow.ts[1], n) else flow.ts[1],
                 if 2 < k then SettleTimer(flow.ts[2], n) else flow.ts[2],
                 if 3 < k then SettleTimer(flow.ts[3], n) else flow.ts[3]])
  }

  lemma SweptNone(ts: Bank, wires: Wires, e: Sources, n: nat)
    ensures Swept(ts, wires, e, n, 0) == Outcome(ts, {}, None)
  {
    SilentInput(ts, wires, Upto(e, 0), 0);
    SilentInput(ts, wires, Upto(e, 0), 1);
    SilentInput(ts, wires, Upto(e, 0), 2);
    SilentInput(ts, wires, Upto(e, 0), 3);
  }

  lemma SweptAll(ts: Bank, wires: Wires, e: Sources, n: nat)
    ensures Swept(ts, wires, e, n, 4)
         == Flow(ts, wires, e).(ts := Settle(Flow(ts, wires, e).ts, n))
  {
    hide Flow;
    assert Upto(e, 4) == e;
  }

  /** A timer that is no root leaves the flow alone and is only settled. */
  lemma SweepPast(ts: Bank, wires: Wires, e: Sources, n: nat, k: nat)
    requires k < TIMER_COUNT && e[k] == []
    ensures var before, after := Swept(ts, wires, e, n, k), Swept(ts, wires, e, n, k + 1);
            after == before.(ts := before.ts[k := SettleTimer(before.ts[k], n)])
  {
    hide Flow;
    assert Upto(e, k + 1) == Upto(e, k);
  }

  /** Timers at or above a root that has not been visited yet have not moved. */
  lemma {:induction false} Untouched(ts: Bank, wires: Wires, e: Sources, k: nat, i: nat)
    requires k <= i < TIMER_COUNT && !wires[k]
    ensures Input(ts, wires, Upto(e, k), i) == []
    ensures Output(ts, wires, Upto(e, k), i) == []
    ensures FlowTimer(ts, wires, Upto(e, k), i) == ts[i]
    decreases i
  {
    if wires[i] {
      Untouched(ts, wires, e, k, i - 1);
    }
  }

  lemma {:induction false} SameBelow(ts: Bank, wires: Wires, e: Sources, k: nat, i: nat)
    requires i < k < TIMER_COUNT
    ensures Input(ts, wires, Upto(e, k), i) == Input(ts, wires, Upto(e, k + 1), i)
    ensures Output(ts, wires, Upto(e, k), i) == Output(ts, wires, Upto(e, k + 1), i)
    decreases i
  {
    if wires[i] {
      SameBelow(ts, wires, e, k, i - 1);
    }
  }

  /** At and above the root, driving the chain is the newly added part of the flow. */
  lemma {:induction false} SameAbove(ts: Bank, wires: Wires, e: Sources, cur: Bank, k: nat, i: nat)
    requires k <= i < TIMER_COUNT && !wires[k]
    requires forall j: nat :: k < j < TIMER_COUNT ==> cur[j] == ts[j] && wires[j] == WiresAbove(cur, k)[j]
    requires SameCounting(ts[k], cur[k])
    ensures Input(ts, wires, Upto(e, k + 1), i) == Input(cur, WiresAbove(cur, k), Only(k, e[k]), i)
    ensures Output(ts, wires, Upto(e, k + 1), i) == Output(cur, WiresAbove(cur, k), Only(k, e[k]), i)
    decreases i
  {
    if i == k {
      RootInput(cur, k, e[k]);
      FeedSame(ts[k], cur[k], e[k]);
    } else {
      assert cur[i] == ts[i];
      SameAbove(ts, wires, e, cur, k, i - 1);
    }
  }

  /** Timer `i`'s part of visiting root `k`. */
  ghost predicate Visited(ts: Bank, wires: Wires, e: Sources, n: nat, cur: Bank, k: nat, i: nat)
    requires k < TIMER_COUNT && i < TIMER_COUNT
  {
    var up, upE := WiresAbove(cur, k), Only(k, e[k]);
    && FlowTimer(cur, up, upE, i) == Swept(ts, wires, e, n, k + 1).ts[i]
    && (Raises(ts, wires, Upto(e, k + 1), i) <==> Raises(ts, wires, Upto(e, k), i) || Raises(cur, up, upE, i))
    && FirstOf(ts, wires, Upto(e, k + 1), i)
       == Earlier(FirstOf(ts, wires, Upto(e, k), i), FirstOf(cur, up, upE, i))
  }

  lemma SweptAt(ts: Bank, wires: Wires, e: Sources, n: nat, k: nat, i: nat)
    requires i < TIMER_COUNT
    ensures Swept(ts, wires, e, n, k).ts[i]
         == (if i < k then SettleTimer(FlowTimer(ts, wires, Upto(e, k), i), n) else FlowTimer(ts, wires, Upto(e, k), i))
  {
    hide FlowTimer, Upto, FlowRaised, FlowFirst;
  }

  lemma VisitBelow(ts: Bank, wires: Wires, e: Sources, n: nat, cur: Bank, k: nat, i: nat)
    requires i < k < TIMER_COUNT
    requires cur[i] == SettleTimer(FlowTimer(ts, wires, Upto(e, k), i), n)
    ensures Visited(ts, wires, e, n, cur, k, i)
  {
    SweptAt(ts, wires, e, n, k + 1, i);
    SameBelow(ts, wires, e, k, i);
    SilentInput(cur, WiresAbove(cur, k), Only(k, e[k]), i);
    hide Swept, Upto, Only, WiresAbove, Input;
  }

  lemma WiresAboveAt(ts: Bank, k: nat, j: nat)
    requires j < TIMER_COUNT
    ensures WiresAbove(ts, k)[j] <==> j > k && Listens(ts, j)
  {
  }

  lemma OutputOf(ts: Bank, wires: Wires, e: Sources, i: nat)
    requires i < TIMER_COUNT
    ensures Fed(FlowTimer(ts, wires, e, i), Output(ts, wires, e, i)) == Feed(ts[i], Input(ts, wires, e, i))
  {
  }

  lemma VisitAbove(ts: Bank, wires: Wires, e: Sources, n: nat, cur: Bank, k: nat, i: nat)
    requires k <= i < TIMER_COUNT && !wires[k]
    requires forall j: nat :: k < j < TIMER_COUNT ==> wires[j] == Listens(ts, j) && cur[j] == ts[j]
    requires cur[k] == SettleTimer(ts[k], n)
    ensures Visited(ts, wires, e, n, cur, k, i)
  {
    hide Swept, Upto, Only, WiresAbove, Input, Output, Feed;
    SweptAt(ts, wires, e, n, k + 1, i);
    Untouched(ts, wires, e, k, i);
    forall j: nat | k < j < TIMER_COUNT
      ensures wires[j] == WiresAbove(cur, k)[j]
    {
      WiresAboveAt(cur, k, j);
    }
    SameAbove(ts, wires, e, cur, k, i);
    FeedSame(ts[i], cur[i], Input(ts, wires, Upto(e, k + 1), i));
    OutputOf(ts, wires, Upto(e, k + 1), i);
    OutputOf(cur, WiresAbove(cur, k), Only(k, e[k]), i);
  }

  lemma VisitOne(ts: Bank, wires: Wires, e: Sources, n: nat, cur: Bank, k: nat, i: nat)
    requires k < TIMER_COUNT && i < TIMER_COUNT && !wires[k]
    requires forall j: nat :: k < j < TIMER_COUNT ==> wires[j] == Listens(ts, j)
    requires var before := Swept(ts, wires, e, n, k).ts;
             cur == before[k := SettleTimer(before[k], n)]
    ensures Visited(ts, wires, e, n, cur, k, i)
  {
    hide Swept, Upto, Visited, FlowTimer;
    forall j: nat | j < TIMER_COUNT
      ensures k <= j ==> cur[j] == if j == k then SettleTimer(ts[j], n) else ts[j]
      ensures j < k ==> cur[j] == SettleTimer(FlowTimer(ts, wires, Upto(e, k), j), n)
    {
      SweptAt(ts, wires, e, n, k, j);
      if k <= j {
        Untouched(ts, wires, e, k, j);
      }
    }
    if i < k {
      VisitBelow(ts, wires, e, n, cur, k, i);
    } else {
      VisitAbove(ts, wires, e, n, cur, k, i);
    }
  }

  /** Visiting a root settles it and drives its chain; that is the next sweep state. */
  lemma SweepRoot(ts: Bank, wires: Wires, e: Sources, n: nat, k: nat)
    requires k < TIMER_COUNT && !wires[k]
    requires forall j: nat :: k < j < TIMER_COUNT ==> wires[j] == Listens(ts, j)
    ensures var before := Swept(ts, wires, e, n, k);
            var cur := before.ts[k := SettleTimer(before.ts[k], n)];
            Swept(ts, wires, e, n, k + 1) == Then(before, Drive(cur, k, e[k]))
  {
    var before := Swept(ts, wires, e, n, k);
    var cur := before.ts[k := SettleTimer(before.ts[k], n)];
    VisitOne(ts, wires, e, n, cur, k, 0);
    VisitOne(ts, wires, e, n, cur, k, 1);
    VisitOne(ts, wires, e, n, cur, k, 2);
    VisitOne(ts, wires, e, n, cur, k, 3);
    SweepCombine(ts, wires, e, n, cur, k);
  }

  lemma SweepCombine(ts: Bank, wires: Wires, e: Sources, n: nat, cur: Bank, k: nat)
    requires k < TIMER_COUNT
    requires forall i: nat :: i < TIMER_COUNT ==> Visited(ts, wires, e, n, cur, k, i)
    ensures Swept(ts, wires, e, n, k + 1) == Then(Swept(ts, wires, e, n, k), Drive(cur, k, e[k]))
  {
    hide Input, Output, Feed, FlowTimer, Raises, FirstOf, Upto, Only, WiresAbove;
    assert Visited(ts, wires, e, n, cur, k, 0);
    assert Visited(ts, wires, e, n, cur, k, 1);
    assert Visited(ts, wires, e, n, cur, k, 2);
    assert Visited(ts, wires, e, n, cur, k, 3);
    var up, upE := WiresAbove(cur, k), Only(k, e[k]);
    var old0, new0 := Upto(e, k), Upto(e, k + 1);
    EarliestOfPairs(
      FirstOf(ts, wires, old0, 0), FirstOf(ts, wires, old0, 1), FirstOf(ts, wires, old0, 2), FirstOf(ts, wires, old0, 3),
      FirstOf(cur, up, upE, 0), FirstOf(cur, up, upE, 1), FirstOf(cur, up, upE, 2), FirstOf(cur, up, upE, 3));
    RaisedByUnion(
      Raises(ts, wires, old0, 0), Raises(ts, wires, old0, 1), Raises(ts, wires, old0, 2), Raises(ts, wires, old0, 3),
      Raises(cur, up, upE, 0), Raises(cur, up, upE, 1), Raises(cur, up, upE, 2), Raises(cur, up, upE, 3));
    assert FlowRaised(ts, wires, new0) == FlowRaised(ts, wires, old0) + FlowRaised(cur, up, upE);
    assert FlowFirst(ts, wires, new0) == Earlier(FlowFirst(ts, wires, old0), FlowFirst(cur, up, upE));
    assert Swept(ts, wires, e, n, k + 1).ts == Drive(cur, k, e[k]).ts;
  }
}
