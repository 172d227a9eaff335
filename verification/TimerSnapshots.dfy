/**
 Save states drop `enabledAt` and rebuild it on load. Over every later run of register
 writes, deferrals and ticks, the restored timers cannot be told apart from the originals.
 */
module TimerSnapshots {
  import opened Prelude
  import opened TimerModel
  import opened TimerWindow
  import opened TimerUnit

  datatype Machine = Machine(ts: Bank, now: nat)

  datatype Op =
    | Reload(timer: nat, value: u16)
    | ControlWrite(timer: nat, value: u16)
    | Defer
    | Tick(cycles: nat)

  /** What the rest of the emulator sees of one operation. */
  datatype Seen = Seen(raised: set<nat>, first: Option<nat>)

  predicate OpOk(op: Op) {
    (op.Reload? || op.ControlWrite?) ==> op.timer < TIMER_COUNT
  }

  function Step(m: Machine, op: Op): (Machine, Seen)
    requires OpOk(op)
  {
    match op
    case Reload(i, value) => (m.(ts := WithReload(m.ts, i, value)), Seen({}, None))
    case ControlWrite(i, value) => (m.(ts := WithControl(m.ts, m.now, i, value)), Seen({}, None))
    case Defer => (m.(ts := Deferred(m.ts)), Seen({}, None))
    case Tick(n) =>
      var polled := Poll(m.ts, m.now, n);
      (Machine(polled.ts, m.now + n), Seen(polled.raised, polled.first))
  }

  function Run(m: Machine, ops: seq<Op>): (Machine, seq<Seen>)
    requires forall op :: op in ops ==> OpOk(op)
    decreases |ops|
  {
    if ops == [] then (m, [])
    else
      var (next, seen) := Step(m, ops[0]);
      var (end, rest) := Run(next, ops[1..]);
      (end, [seen] + rest)
  }

  ghost predicate Good(m: Machine) {
    BankReachable(m.ts, m.now) && RootedBank(m.ts)
  }

  /** Equal in everything but the enable anchor, which both states keep consistent. */
  ghost predicate Alike(m: Machine, r: Machine) {
    && Good(m) && Good(r)
    && m.now == r.now
    && forall i :: 0 <= i < TIMER_COUNT ==> r.ts[i] == m.ts[i].(enabledAt := r.ts[i].enabledAt)
  }

  lemma StepKeepsGood(m: Machine, op: Op)
    requires Good(m) && OpOk(op)
    ensures Good(Step(m, op).0)
  {
    forall i | 0 <= i < TIMER_COUNT
      ensures Reachable(Step(m, op).0.ts[i], Step(m, op).0.now)
    {
      assert Reachable(m.ts[i], m.now);
      if op.Tick? {
        WindowIsPolling(m.ts, m.now, op.cycles);
      }
    }
    if op.Tick? {
      PollRooted(m.ts, m.now, op.cycles);
    }
  }

  /** Every state reached from reset satisfies the timer invariant. */
  lemma {:induction false} ReachableFromReset(ops: seq<Op>)
    requires forall op :: op in ops ==> OpOk(op)
    ensures Good(Run(Machine([IDLE, IDLE, IDLE, IDLE], 0), ops).0)
  {
    RunKeepsGood(Machine([IDLE, IDLE, IDLE, IDLE], 0), ops);
  }

  lemma {:induction false} RunKeepsGood(m: Machine, ops: seq<Op>)
    requires Good(m) && forall op :: op in ops ==> OpOk(op)
    ensures Good(Run(m, ops).0)
    decreases |ops|
  {
    if ops != [] {
      StepKeepsGood(m, ops[0]);
      RunKeepsGood(Step(m, ops[0]).0, ops[1..]);
    }
  }

  lemma TickAlike(m: Machine, r: Machine, n: nat)
    requires Alike(m, r)
    ensures var a, b := Poll(m.ts, m.now, n), Poll(r.ts, r.now, n);
            && a.raised == b.raised && a.first == b.first
            && forall i :: 0 <= i < TIMER_COUNT ==> b.ts[i] == a.ts[i].(enabledAt := b.ts[i].enabledAt)
  {
    if n != 0 {
      var wires, e := WiresOf(m.ts), SourcesOf(m.ts, m.now, n);
      forall i: nat | i < TIMER_COUNT
        ensures r.ts[i] == m.ts[i].(enabledAt := r.ts[i].enabledAt)
        ensures Deaf(m.ts[i]) == Deaf(r.ts[i]) || (Deaf(m.ts[i]) <= m.now && Deaf(r.ts[i]) <= m.now)
      {
        assert Reachable(m.ts[i], m.now);
        assert Reachable(r.ts[i], r.now);
      }
      SourcesAlike(m, r, n);
      SourcesWithin(m.ts, m.now, n);
      FlowSameOutcome(m.ts, r.ts, wires, e, m.now, m.now + n);
      FlowAlike(m.ts, r.ts, wires, e, n);
      WindowIsPolling(m.ts, m.now, n);
      WindowIsPolling(r.ts, r.now, n);
      hide Poll, FlowBank, FlowRaised, FlowFirst;
    }
  }

  lemma SourcesAlike(m: Machine, r: Machine, n: nat)
    requires Alike(m, r)
    ensures WiresOf(r.ts) == WiresOf(m.ts)
    ensures SourcesOf(r.ts, r.now, n) == SourcesOf(m.ts, m.now, n)
  {
    forall i: nat | i < TIMER_COUNT
      ensures SourceOf(r.ts, i, r.now, n) == SourceOf(m.ts, i, m.now, n)
    {
      assert r.ts[i] == m.ts[i].(enabledAt := r.ts[i].enabledAt);
    }
  }

  lemma FlowAlike(ts: Bank, us: Bank, wires: Wires, e: Sources, n: nat)
    requires forall i: nat :: i < TIMER_COUNT ==> us[i] == ts[i].(enabledAt := us[i].enabledAt)
    requires forall k: nat :: k < TIMER_COUNT ==> SameCounting(FlowBank(ts, wires, e)[k], FlowBank(us, wires, e)[k])
    ensures var a, b := Settle(FlowBank(ts, wires, e), n), Settle(FlowBank(us, wires, e), n);
            forall i :: 0 <= i < TIMER_COUNT ==> b[i] == a[i].(enabledAt := b[i].enabledAt)
  {
    forall i: nat | i < TIMER_COUNT
      ensures var a, b := Settle(FlowBank(ts, wires, e), n), Settle(FlowBank(us, wires, e), n);
              b[i] == a[i].(enabledAt := b[i].enabledAt)
    {
      FlowAlikeAt(ts, us, wires, e, n, i);
      hide FlowTimer, SettleTimer, SameCounting, FlowBank;
    }
  }

  lemma FlowAlikeAt(ts: Bank, us: Bank, wires: Wires, e: Sources, n: nat, i: nat)
    requires i < TIMER_COUNT && us[i] == ts[i].(enabledAt := us[i].enabledAt)
    requires SameCounting(FlowBank(ts, wires, e)[i], FlowBank(us, wires, e)[i])
    ensures var a, b := SettleTimer(FlowBank(ts, wires, e)[i], n), SettleTimer(FlowBank(us, wires, e)[i], n);
            b == a.(enabledAt := b.enabledAt)
  {
    hide FlowBank;
  }

  lemma StepAlike(m: Machine, r: Machine, op: Op)
    requires Alike(m, r) && OpOk(op)
    ensures Alike(Step(m, op).0, Step(r, op).0)
    ensures Step(m, op).1 == Step(r, op).1
  {
    StepKeepsGood(m, op);
    StepKeepsGood(r, op);
    if op.Tick? {
      TickAlike(m, r, op.cycles);
    } else {
      forall i | 0 <= i < TIMER_COUNT
        ensures var a, b := Step(m, op).0.ts[i], Step(r, op).0.ts[i]; b == a.(enabledAt := b.enabledAt)
      {
        assert r.ts[i] == m.ts[i].(enabledAt := r.ts[i].enabledAt);
      }
    }
  }

  lemma {:induction false} RunAlike(m: Machine, r: Machine, ops: seq<Op>)
    requires Alike(m, r) && forall op :: op in ops ==> OpOk(op)
    ensures Alike(Run(m, ops).0, Run(r, ops).0)
    ensures Run(m, ops).1 == Run(r, ops).1
    decreases |ops|
  {
    if ops != [] {
      StepAlike(m, r, ops[0]);
      RunAlike(Step(m, ops[0]).0, Step(r, ops[0]).0, ops[1..]);
    }
  }

  /** A snapshot of a reachable state always loads, and the restored timers are alike. */
  lemma SavedLoads(m: Machine)
    requires Good(m)
    ensures Loadable(Saved(m.ts, m.now))
    ensures Alike(m, Machine(Loaded(Saved(m.ts, m.now)), m.now))
  {
    var state := Saved(m.ts, m.now);
    forall i: nat | i < TIMER_COUNT
      ensures LoadableTimer(state.timers[i], i)
      ensures Loaded(state)[i] == m.ts[i].(enabledAt := Loaded(state)[i].enabledAt)
      ensures Reachable(Loaded(state)[i], m.now)
    {
      assert Reachable(m.ts[i], m.now);
      ControlRoundTrip(m.ts[i].control);
    }
  }

  /** Saving and restoring at any point of any run changes nothing that happens afterwards. */
  lemma SnapshotIsTransparent(before: seq<Op>, after: seq<Op>)
    requires forall op :: op in before ==> OpOk(op)
    requires forall op :: op in after ==> OpOk(op)
    ensures var m := Run(Machine([IDLE, IDLE, IDLE, IDLE], 0), before).0;
            && BankReachable(m.ts, m.now)
            && var restored := Machine(Loaded(Saved(m.ts, m.now)), m.now);
               && Run(restored, after).1 == Run(m, after).1
               && forall i :: 0 <= i < TIMER_COUNT ==>
                    var a, b := Run(m, after).0.ts[i], Run(restored, after).0.ts[i];
                    b == a.(enabledAt := b.enabledAt)
  {
    ReachableFromReset(before);
    var m := Run(Machine([IDLE, IDLE, IDLE, IDLE], 0), before).0;
    SavedLoads(m);
    RunAlike(m, Machine(Loaded(Saved(m.ts, m.now)), m.now), after);
  }
}
