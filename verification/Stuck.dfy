/**
 Which blocked processes can ever run again (sys.c). A process is released by its parent only, and exit hands
 children to idle, which releases nobody. So some blocked processes are stuck; this says exactly which.
 */
module Stuck {
  import opened Config
  import opened SlotSeqs
  import opened Processes
  import opened Runs
  import opened Quantum

  /** The process is not blocked, or some process up its line of parents is not; idle does not count. */
  predicate Hope(p: Proc, x: nat)
    requires Inv(p) && Live(p, x)
    decreases p.task[x].pid
  {
    x !in p.blocked ||
    (assert ParentOk(p, x); var a := p.task[x].parent; a > 0 && Hope(p, a))
  }

  // ----- Without hope: blocked for ever

  /** A process without hope is blocked, and so is its parent if it has one besides idle. */
  lemma HopelessIsBlocked(p: Proc, x: nat)
    requires Inv(p) && Live(p, x) && !Hope(p, x)
    ensures x in p.blocked && (p.cur == 0 || p.task[x].parent != p.cur)
    ensures var a := p.task[x].parent;
      a > 0 ==> Live(p, a) && a in p.blocked && !Hope(p, a) && p.task[a].pid < p.task[x].pid
  {
    assert ParentOk(p, x);
    var a := p.task[x].parent;
    if a > 0 { assert a in p.blocked; }
  }

  /** Only its parent can release a blocked process, and only its parent's exit can give it another. */
  lemma OnlyParentReleases(p: Proc, c: Call, x: nat)
    requires Inv(p) && x in p.blocked && (p.cur == 0 || p.task[x].parent != p.cur)
    ensures var r := Step(p, c); x in r.blocked && Live(r, x) && r.task[x] == p.task[x]
  {
    match c
    case Tick =>
    case Store =>
    case Fork => ForkPre(p);
    case Exit => if p.cur != 0 { ExitPre(p); }
    case Block => AppendFacts(p.blocked, p.cur);
    case Unblock(pid) =>
      if p.cur != 0 {
        ChildSlots(p, p.cur);
        var f := FindPid(p.task, p.childs[p.cur], pid);
        if f != NOBODY { WithoutFacts(p.blocked, f); }
      }
  }

  /** A step gives no hope to who has none. */
  lemma {:induction false} HopelessStep(p: Proc, c: Call, x: nat)
    requires Inv(p) && Live(p, x) && !Hope(p, x)
    ensures (StepKeeps(p, c); var r := Step(p, c); x in r.blocked && Live(r, x) && !Hope(r, x))
    decreases p.task[x].pid
  {
    StepKeeps(p, c);
    HopelessIsBlocked(p, x);
    OnlyParentReleases(p, c, x);
    var a := p.task[x].parent;
    if a > 0 { HopelessStep(p, c, a); }
  }

  /** A process without hope stays blocked, and keeps its slot, in every run. */
  lemma {:induction false} HopelessStaysBlocked(p: Proc, cs: seq<Call>, x: nat)
    requires Inv(p) && Live(p, x) && !Hope(p, x)
    ensures x in Run(p, cs).blocked && Stays(p, cs, x) && !Hope(Run(p, cs), x)
    decreases |cs|
  {
    HopelessIsBlocked(p, x);
    if cs != [] {
      StepKeeps(p, cs[0]);
      HopelessStep(p, cs[0], x);
      HopelessStaysBlocked(Step(p, cs[0]), cs[1..], x);
    }
  }

  // ----- With hope: some run releases it

  /** Ticks and unblocks only. */
  predicate Gentle(cs: seq<Call>) {
    forall i :: 0 <= i < |cs| ==> cs[i].Tick? || cs[i].Unblock?
  }

  /** What such calls leave as it is: the processes, the tree, and everybody who is not blocked. */
  ghost predicate Undisturbed(p: Proc, r: Proc) {
    && |r.task| == |p.task| == NR_TASKS && r.childs == p.childs
    && (forall s :: 0 <= s < NR_TASKS ==> r.task[s].parent == p.task[s].parent && r.task[s].pid == p.task[s].pid)
    && (forall s :: Live(r, s) <==> Live(p, s))
    && (forall s :: s in r.blocked ==> s in p.blocked)
  }

  lemma GentleStep(p: Proc, c: Call)
    requires Inv(p) && (c.Tick? || c.Unblock?)
    ensures Undisturbed(p, Step(p, c))
  {
    LiveStep(p, c);
    if c.Unblock? && p.cur != 0 {
      ChildSlots(p, p.cur);
      var f := FindPid(p.task, p.childs[p.cur], c.pid);
      if f != NOBODY { WithoutFacts(p.blocked, f); }
    }
  }

  lemma {:induction false} GentleRun(p: Proc, cs: seq<Call>)
    requires Inv(p) && Gentle(cs)
    ensures Undisturbed(p, Run(p, cs))
    ensures forall x :: Live(p, x) ==> Stays(p, cs, x)
    decreases |cs|
  {
    if cs != [] {
      StepKeeps(p, cs[0]);
      GentleStep(p, cs[0]);
      GentleRun(Step(p, cs[0]), cs[1..]);
    }
  }

  lemma {:induction false} TicksOfTickRun(n: nat)
    ensures Ticks(TickRun(n)) == n
  {
    if n > 0 {
      TickRunSplits(n);
      TicksOfTickRun(n - 1);
    }
  }

  /** A run in which a process runs has a beginning after which it does. */
  lemma {:induction false} RunsAfter(p: Proc, cs: seq<Call>, x: nat) returns (n: nat)
    requires Inv(p) && GetsToRun(p, cs, x)
    ensures n <= |cs| && Run(p, cs[..n]).cur == x
    decreases |cs|
  {
    if p.cur == x {
      n := 0;
    } else {
      StepKeeps(p, cs[0]);
      var k := RunsAfter(Step(p, cs[0]), cs[1..], x);
      n := k + 1;
      assert cs[..n][0] == cs[0] && cs[..n][1..] == cs[1..][..k];
    }
  }

  /** Ticks alone give the processor to any process that is not blocked. */
  lemma TicksDispatch(p: Proc, x: nat) returns (cs: seq<Call>)
    requires Inv(p) && Live(p, x) && x !in p.blocked
    ensures Gentle(cs) && Run(p, cs).cur == x
  {
    if p.cur == x {
      cs := [];
    } else {
      var k :| 0 <= k < |p.readyq| && p.readyq[k] == x;
      var n := Patience(p, k);
      TicksOfTickRun(n);
      BoundedWaiting(p, TickRun(n), k);
      var i := RunsAfter(p, TickRun(n), x);
      cs := TickRun(n)[..i];
    }
  }

  /** A running process releases any blocked child of its own by one call. */
  lemma ParentReleases(p: Proc, x: nat)
    requires Inv(p) && x in p.blocked && p.cur > 0 && p.task[x].parent == p.cur
    ensures x !in Run(p, [Unblock(p.task[x].pid)]).blocked
  {
    var c := Unblock(p.task[x].pid);
    assert Live(p, x) && ParentOk(p, x);
    ChildSlots(p, p.cur);
    UnblockFinds(p, p.task[x].pid, x);
    WithoutFacts(p.blocked, x);
    StepKeeps(p, c);
    assert Run(p, [c]) == Step(p, c);
  }

  /** A process whose parent is not blocked can be released. */
  lemma ReleasedByParent(p: Proc, x: nat) returns (cs: seq<Call>)
    requires Inv(p) && x in p.blocked
    requires var a := p.task[x].parent; a > 0 && Live(p, a) && a !in p.blocked
    ensures Gentle(cs) && x !in Run(p, cs).blocked
  {
    var ts := TicksDispatch(p, p.task[x].parent);
    GentleRun(p, ts);
    cs := ts;
    if x in Run(p, ts).blocked {
      var us := [Unblock(p.task[x].pid)];
      ParentReleases(Run(p, ts), x);
      RunConcat(p, ts, us);
      cs := ts + us;
    }
  }

  /** A process with hope is released, alive, by some ticks and unblocks. */
  lemma {:induction false} HopefulIsReleased(p: Proc, x: nat) returns (cs: seq<Call>)
    requires Inv(p) && Live(p, x) && Hope(p, x)
    ensures Gentle(cs) && x !in Run(p, cs).blocked && Stays(p, cs, x)
    decreases p.task[x].pid
  {
    cs := [];
    if x in p.blocked {
      assert ParentOk(p, x);
      var a := p.task[x].parent;
      var ts := HopefulIsReleased(p, a);
      GentleRun(p, ts);
      var q := Run(p, ts);
      cs := ts;
      if x in q.blocked {
        var us := ReleasedByParent(q, x);
        RunConcat(p, ts, us);
        cs := ts + us;
      }
      GentleRun(p, cs);
    }
  }

  // ----- Exactly

  ghost predicate CanBeReleased(p: Proc, x: nat)
    requires Inv(p)
  {
    exists cs :: x !in Run(p, cs).blocked
  }

  /** A process can ever leave the blocked queue exactly if it, or a process up its line of parents, is not blocked. */
  lemma ReleaseIff(p: Proc, x: nat)
    requires Inv(p) && Live(p, x)
    ensures CanBeReleased(p, x) <==> Hope(p, x)
  {
    if Hope(p, x) {
      var cs := HopefulIsReleased(p, x);
    } else {
      forall cs ensures x in Run(p, cs).blocked {
        HopelessStaysBlocked(p, cs, x);
      }
    }
  }

  /** A blocked process that has been handed to idle keeps its slot and stays blocked for ever. */
  lemma BlockedOrphanIsStuck(p: Proc, cs: seq<Call>, x: nat)
    requires Inv(p) && x in p.blocked && p.task[x].parent == 0
    ensures x in Run(p, cs).blocked && Stays(p, cs, x)
  {
    assert Live(p, x) && !Hope(p, x);
    HopelessStaysBlocked(p, cs, x);
  }

  /** So does the initial process once it blocks: it has no parent. */
  lemma BlockedFirstIsStuck(p: Proc, cs: seq<Call>, x: nat)
    requires Inv(p) && x in p.blocked && p.task[x].parent == NOBODY
    ensures x in Run(p, cs).blocked && Stays(p, cs, x)
  {
    assert Live(p, x) && !Hope(p, x);
    HopelessStaysBlocked(p, cs, x);
  }

  /** Blocking with nothing pending can be undone exactly if the parent, or a process further up, is not blocked. */
  lemma BlockingIsFinalIff(p: Proc)
    requires Inv(p) && p.cur != 0 && p.task[p.cur].pending == 0
    ensures var a := p.task[p.cur].parent;
      (StepKeeps(p, Block); LiveStep(p, Block);
       CanBeReleased(Step(p, Block), p.cur) <==> a > 0 && Live(p, a) && Hope(p, a))
  {
    var x, r, a := p.cur, Step(p, Block), p.task[p.cur].parent;
    StepKeeps(p, Block);
    LiveStep(p, Block);
    assert Live(p, x) && ParentOk(p, x);
    AppendFacts(p.blocked, x);
    ReleaseIff(r, x);
    if a > 0 { SameHope(p, r, a); }
  }

  /** The shortest way to get stuck: the initial process blocks first thing, and the machine idles for ever. */
  lemma FirstBlockIsFinal()
    ensures (BootInv(); var r := Step(Boot(), Block); Inv(r) && r.cur == 0 && r.blocked == [1] && !CanBeReleased(r, 1))
  {
    BootInv();
    StepKeeps(Boot(), Block);
    BlockingIsFinalIff(Boot());
  }

  /** Hope above a process does not depend on the process. */
  lemma {:induction false} SameHope(p: Proc, r: Proc, a: nat)
    requires Inv(p) && Inv(r) && Live(p, a) && Live(r, a) && r.task == p.task
    requires p.task[a].pid < p.task[p.cur].pid
    requires forall s :: s in r.blocked <==> s in p.blocked || s == p.cur
    requires forall s :: Live(r, s) <==> Live(p, s)
    ensures Hope(r, a) <==> Hope(p, a)
    decreases p.task[a].pid
  {
    assert ParentOk(p, a);
    var b := p.task[a].parent;
    if b > 0 { SameHope(p, r, b); }
  }

  // ----- Orphans

  lemma OrphanStep(p: Proc, c: Call, x: nat)
    requires Inv(p) && Live(p, x) && p.task[x].parent == 0 && Live(Step(p, c), x)
    ensures var r := Step(p, c);
      && r.task[x].parent == 0 && r.task[x].pid == p.task[x].pid
      && r.task[x].pending <= p.task[x].pending
      && (x in p.blocked ==> x in r.blocked)
  {
    match c
    case Tick =>
    case Store =>
    case Fork => ForkPre(p);
    case Exit => if p.cur != 0 { ExitPre(p); }
    case Block => AppendFacts(p.blocked, p.cur);
    case Unblock(pid) =>
      if p.cur != 0 {
        ChildSlots(p, p.cur);
        UnblockFinds(p, pid, x);
        var f := FindPid(p.task, p.childs[p.cur], pid);
        if f != NOBODY { WithoutFacts(p.blocked, f); }
      }
  }

  /** A process handed to idle never receives another unblock. */
  lemma {:induction false} OrphansAreNeverUnblocked(p: Proc, cs: seq<Call>, x: nat)
    requires Inv(p) && Stays(p, cs, x) && p.task[x].parent == 0
    ensures Run(p, cs).task[x].pending <= p.task[x].pending
    ensures Run(p, cs).task[x].parent == 0 && Run(p, cs).task[x].pid == p.task[x].pid
    decreases |cs|
  {
    if cs != [] {
      StepKeeps(p, cs[0]);
      OrphanStep(p, cs[0], x);
      OrphansAreNeverUnblocked(Step(p, cs[0]), cs[1..], x);
    }
  }

  /** Exit hands exactly the children of the process to idle; with ExitRings, in order. */
  lemma ExitOrphans(p: Proc, x: nat)
    requires Inv(p) && p.cur != 0 && x in p.childs[p.cur]
    ensures var r := Step(p, Exit);
      Live(r, x) && r.task[x] == p.task[x].(parent := 0) && (x in p.blocked ==> x in r.blocked)
  {
    ExitPre(p);
    ExitParts(p);
  }
}
