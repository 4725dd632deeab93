/**
 What the quantum counter does (sched.c). It is not reloaded by a switch, so a turn is as long as what the
 turn before left of it: after one expiry, every tick switches until one finds readyq empty.
 */
module Quantum {
  import opened Config
  import opened Processes
  import opened Runs

  /** A tick reloads the counter if nobody waits, and else switches exactly if it is used up; no call touches it. */
  lemma QuantumStep(p: Proc, c: Call)
    requires Inv(p)
    ensures var r := Step(p, c);
      if !c.Tick? then r.ticks == p.ticks
      else if p.readyq == [] then r.ticks == p.task[p.cur].quantum && r.cur == p.cur
      else r.ticks == p.ticks - 1 && r.cur == if p.ticks <= 0 then p.readyq[0] else p.cur
  {
    match c
    case Tick =>
    case Fork => ForkPre(p);
    case Exit => if p.cur != 0 { ExitPre(p); }
    case Block =>
    case Unblock(pid) => ChildSlots(p, p.cur);
    case Store =>
  }

  // ----- After an expiry

  /** Every tick of the run takes the processor from whoever runs. */
  predicate TicksSwitch(p: Proc, cs: seq<Call>)
    requires Inv(p)
    decreases |cs|
  {
    cs == [] ||
    (StepKeeps(p, cs[0]);
     (cs[0].Tick? ==> Step(p, cs[0]).cur != p.cur) && TicksSwitch(Step(p, cs[0]), cs[1..]))
  }

  /** Every tick of the run finds somebody waiting. */
  predicate TicksFindReady(p: Proc, cs: seq<Call>)
    requires Inv(p)
    decreases |cs|
  {
    cs == [] ||
    (StepKeeps(p, cs[0]);
     (cs[0].Tick? ==> p.readyq != []) && TicksFindReady(Step(p, cs[0]), cs[1..]))
  }

  /** Once expired, the counter stays so, and every tick switches, for exactly as long as no tick finds readyq empty. */
  lemma {:induction false} ExpiredStaysExpired(p: Proc, cs: seq<Call>)
    requires Inv(p) && p.ticks < 0
    ensures TicksSwitch(p, cs) <==> TicksFindReady(p, cs)
    ensures TicksFindReady(p, cs) ==> Run(p, cs).ticks == p.ticks - Ticks(cs)
    decreases |cs|
  {
    if cs != [] {
      StepKeeps(p, cs[0]);
      QuantumStep(p, cs[0]);
      if p.readyq != [] { assert p.readyq[0] in p.readyq; }
      if !(cs[0].Tick? && p.readyq == []) {
        ExpiredStaysExpired(Step(p, cs[0]), cs[1..]);
      }
    }
  }

  // ----- The length of a turn

  /** The running process keeps the processor through `n` ticks in a row. */
  predicate KeepsCpu(p: Proc, n: nat)
    requires Inv(p)
    decreases n, |p.task|
  {
    n == 0 || (StepKeeps(p, Tick); Step(p, Tick).cur == p.cur && KeepsCpu(Step(p, Tick), n - 1))
  }

  /** A turn goes on for exactly as many ticks as the counter has left, or for ever if nobody waits. */
  lemma {:induction false} TurnLength(p: Proc, n: nat)
    requires Inv(p)
    ensures KeepsCpu(p, n) <==> p.readyq == [] || n <= Positive(p.ticks)
    decreases n
  {
    if n > 0 {
      StepKeeps(p, Tick);
      QuantumStep(p, Tick);
      if p.readyq != [] { assert p.readyq[0] in p.readyq; }
      if p.readyq == [] || p.ticks > 0 {
        assert Step(p, Tick).readyq == p.readyq;
        TurnLength(Step(p, Tick), n - 1);
      }
    }
  }

  /** Not every turn is a full quantum: whoever a tick dispatches loses the processor at the next tick. */
  lemma DispatchedByTickHasNoTurn(p: Proc)
    requires Inv(p) && Switches(p, Tick)
    ensures (StepKeeps(p, Tick); var r := Step(p, Tick);
      r.ticks < 0 && r.readyq != [] && Step(r, Tick).cur == r.readyq[0] && !KeepsCpu(r, 1))
  {
    StepKeeps(p, Tick);
    QuantumStep(p, Tick);
    SwitchesToAnother(p, Tick);
    var r := Step(p, Tick);
    assert r.readyq[|r.readyq| - 1] == p.cur;
    QuantumStep(r, Tick);
    TurnLength(r, 1);
  }

  /** Whoever runs gets a whole quantum from here exactly if nobody waits or the counter still holds one. */
  lemma FullQuantumIff(p: Proc)
    requires Inv(p)
    ensures p.task[p.cur].quantum > 0
    ensures KeepsCpu(p, p.task[p.cur].quantum) <==> p.readyq == [] || p.task[p.cur].quantum <= p.ticks
  {
    assert p.cur != 0 ==> Live(p, p.cur);
    TurnLength(p, p.task[p.cur].quantum);
  }

  // ----- Turns with calls in between

  /** The call gives the processor up of its own accord. */
  predicate GivesUp(p: Proc, c: Call)
    requires p.cur < |p.task|
  {
    p.cur != 0 && (c.Exit? || (c.Block? && p.task[p.cur].pending == 0))
  }

  predicate NobodyGivesUp(p: Proc, cs: seq<Call>)
    requires Inv(p)
    decreases |cs|
  {
    cs == [] || (StepKeeps(p, cs[0]); !GivesUp(p, cs[0]) && NobodyGivesUp(Step(p, cs[0]), cs[1..]))
  }

  /** The running process keeps the processor through the whole run. */
  predicate KeepsCpuOver(p: Proc, cs: seq<Call>)
    requires Inv(p)
    decreases |cs|
  {
    cs == [] ||
    (StepKeeps(p, cs[0]); Step(p, cs[0]).cur == p.cur && KeepsCpuOver(Step(p, cs[0]), cs[1..]))
  }

  /** A step that leaves the processor where it is takes nobody off readyq. */
  lemma ReadyStaysReady(p: Proc, c: Call)
    requires Inv(p) && p.readyq != [] && Step(p, c).cur == p.cur
    ensures Step(p, c).readyq != []
  {
    match c
    case Tick => QuantumStep(p, c);
    case Fork => ForkPre(p);
    case Exit => SwitchesToAnother(p, c);
    case Block => SwitchesToAnother(p, c);
    case Unblock(pid) => ChildSlots(p, p.cur);
    case Store =>
  }

  /** While somebody waits, a process keeps the processor exactly until it gives it up or the counter runs out. */
  lemma {:induction false} TurnOverRun(p: Proc, cs: seq<Call>)
    requires Inv(p) && p.readyq != []
    ensures KeepsCpuOver(p, cs) <==> NobodyGivesUp(p, cs) && Ticks(cs) <= Positive(p.ticks)
    decreases |cs|
  {
    if cs != [] {
      var r := Step(p, cs[0]);
      StepKeeps(p, cs[0]);
      QuantumStep(p, cs[0]);
      SwitchesToAnother(p, cs[0]);
      if r.cur == p.cur {
        ReadyStaysReady(p, cs[0]);
        TurnOverRun(r, cs[1..]);
      }
    }
  }

  // ----- The waiting bound is attained

  /** `n` ticks in a row. */
  function TickRun(n: nat): seq<Call> {
    seq(n, _ => Tick)
  }

  lemma TickRunSplits(n: nat)
    ensures n > 0 ==> TickRun(n)[0] == Tick && TickRun(n)[1..] == TickRun(n - 1)
    ensures TickRun(n + 1) == TickRun(n) + [Tick]
  {
  }

  /** A tick brings a waiting process one tick nearer, and no more; it dispatches nobody before their time. */
  lemma OneTickNearer(p: Proc, k: nat) returns (k': nat)
    requires Inv(p) && k < |p.readyq| && 1 < Patience(p, k)
    ensures var r := Step(p, Tick);
      && k' < |r.readyq| && r.readyq[k'] == p.readyq[k] && r.cur != p.readyq[k]
      && Patience(r, k') + 1 == Patience(p, k)
  {
    assert p.readyq[k] in p.readyq;
    if p.ticks > 0 {
      QuantumStep(p, Tick);
      assert Step(p, Tick) == p.(ticks := p.ticks - 1);
      k' := k;
    } else {
      ExpiringTick(p);
      k' := k - 1;
    }
  }

  lemma RunsInTicks(p: Proc, n: nat, x: nat)
    requires Inv(p) && n > 0
    ensures Inv(Step(p, Tick))
    ensures GetsToRun(p, TickRun(n), x) <==> p.cur == x || GetsToRun(Step(p, Tick), TickRun(n - 1), x)
  {
    StepKeeps(p, Tick);
    TickRunSplits(n);
  }

  /** With ticks alone a waiting process is not dispatched any earlier than BoundedWaiting says it is at the latest. */
  lemma {:induction false} BoundIsAttained(p: Proc, k: nat, n: nat)
    requires Inv(p) && k < |p.readyq| && n < Patience(p, k)
    ensures !GetsToRun(p, TickRun(n), p.readyq[k])
    decreases n
  {
    assert p.readyq[k] in p.readyq;
    if n > 0 {
      RunsInTicks(p, n, p.readyq[k]);
      var k' := OneTickNearer(p, k);
      BoundIsAttained(Step(p, Tick), k', n - 1);
    }
  }

  /** While the counter lasts, ticks only count it down. */
  lemma {:induction false} CountsDown(p: Proc, n: nat)
    requires Inv(p) && p.readyq != [] && n <= p.ticks
    ensures Run(p, TickRun(n)) == p.(ticks := p.ticks - n)
    decreases n
  {
    if n > 0 {
      StepKeeps(p, Tick);
      assert Step(p, Tick) == p.(ticks := p.ticks - 1);
      CountsDown(Step(p, Tick), n - 1);
      TickRunSplits(n);
    }
  }

  /** A turn ends at the tick behind the last the counter has left. */
  lemma TurnEnds(p: Proc)
    requires Inv(p) && p.readyq != [] && p.ticks >= 0
    ensures var r := Run(p, TickRun(p.ticks + 1));
      r.cur == p.readyq[0] && r.readyq == p.readyq[1..] + [p.cur] && r.ticks == -1
  {
    CountsDown(p, p.ticks);
    OneMoreTick(p, p.ticks);
    ExpiringTick(Run(p, TickRun(p.ticks)));
  }

  /** A tick with the counter used up and somebody waiting. */
  lemma ExpiringTick(p: Proc)
    requires Inv(p) && p.readyq != [] && p.ticks <= 0
    ensures Step(p, Tick) == p.(cur := p.readyq[0], readyq := p.readyq[1..] + [p.cur], ticks := p.ticks - 1)
  {
    assert (p.readyq + [p.cur])[1..] == p.readyq[1..] + [p.cur];
  }

  lemma OneMoreTick(p: Proc, n: nat)
    requires Inv(p)
    ensures Run(p, TickRun(n + 1)) == Step(Run(p, TickRun(n)), Tick)
  {
    var e := Run(p, TickRun(n));
    TickRunSplits(n);
    RunConcat(p, TickRun(n), [Tick]);
    RunCons(e, Tick, []);
    assert [Tick] + [] == [Tick];
  }

  lemma BootFork()
    ensures (BootInv(); var f := Step(Boot(), Fork);
      Inv(f) && f.cur == 1 && f.readyq == [2] && f.ticks == INIT_QUANTUM)
  {
    BootInv();
    StepKeeps(Boot(), Fork);
    ForkPre(Boot());
  }

  /** After a fork the initial process runs out its quantum and process 2 is dispatched: for not even one tick. */
  lemma FirstChildHasNoTurn()
    ensures (BootInv(); var p := Run(Boot(), [Fork] + TickRun(101));
      p.cur == 2 && p.readyq == [1] && p.ticks == -1 && Step(p, Tick).cur == 1)
  {
    BootInv();
    BootFork();
    TurnEnds(Step(Boot(), Fork));
    var cs := [Fork] + TickRun(INIT_QUANTUM + 1);
    assert cs[0] == Fork && cs[1..] == TickRun(INIT_QUANTUM + 1);
    QuantumStep(Run(Boot(), cs), Tick);
  }
}
