/**
 What a stuck process costs the whole kernel, and that the kernel can do whatever its process table can: every
 run of the table is the table's part of some run of the kernel.
 */
module KernelStuck {
  import opened Config
  import opened Processes
  import opened Memory
  import opened Stacks
  import opened Runs
  import opened Stuck
  import opened System
  import opened KernelRuns

  // ----- Every run of the table is one of the kernel

  /** A running slot with room on its stack for any call. */
  function Roomy(k: Kern): Act {
    var middle := Base(k.p.cur) + KERNEL_STACK_SIZE / 2;
    var r := Regs(Val(0), Val(0), Val(0), Val(0), Val(middle), middle, Val(0));
    Act(seq(KERNEL_STACK_SIZE, _ => Val(0)), r)
  }

  lemma RealizesStep(k: Kern, c: Call)
    requires KInv(k)
    ensures KStep(k, Kernel(c, Roomy(k))).p == Step(k.p, c)
  {
    var e := Kernel(c, Roomy(k));
    assert Possible(k, e) <==> Enabled(k.p, c) && !c.Store?;
    Projects(k, e);
  }

  /** The partner of ProjectsRun. */
  lemma {:induction false} RealizesRun(k: Kern, cs: seq<Call>) returns (es: seq<Event>)
    requires KInv(k)
    ensures KRun(k, es).p == Run(k.p, cs)
    decreases |cs|
  {
    if cs == [] {
      es := [];
    } else {
      var e := Kernel(cs[0], Roomy(k));
      KStepKeeps(k, e);
      RealizesStep(k, cs[0]);
      StepKeeps(k.p, cs[0]);
      var rest := RealizesRun(KStep(k, e), cs[1..]);
      es := [e] + rest;
      assert es[0] == e && es[1..] == rest;
    }
  }

  // ----- Release, exactly

  ghost predicate CanBeReleasedInKernel(k: Kern, x: nat)
    requires KInv(k)
  {
    exists es :: x !in KRun(k, es).p.blocked
  }

  /** In the kernel too a process can leave the blocked queue exactly if it, or one up its line, is not blocked. */
  lemma KernelReleaseIff(k: Kern, x: nat)
    requires KInv(k) && Live(k.p, x)
    ensures CanBeReleasedInKernel(k, x) <==> Hope(k.p, x)
  {
    if Hope(k.p, x) {
      var cs := HopefulIsReleased(k.p, x);
      var es := RealizesRun(k, cs);
    } else {
      forall es ensures x in KRun(k, es).p.blocked {
        ProjectsRun(k, es);
        HopelessStaysBlocked(k.p, CallsOf(k, es), x);
      }
    }
  }

  // ----- What is lost

  lemma HopelessKeepsTableStep(k: Kern, e: Event, x: nat)
    requires KInv(k) && Live(k.p, x) && !Hope(k.p, x)
    ensures (KStepKeeps(k, e); Live(KStep(k, e).p, x) && !Hope(KStep(k, e).p, x))
    ensures KStep(k, e).m.pt[x] == k.m.pt[x]
  {
    KStepKeeps(k, e);
    Projects(k, e);
    HopelessStep(k.p, CallOf(k, e), x);
    StepKeepsTable(k, e, x);
  }

  lemma {:induction false} HopelessKeepsTable(k: Kern, es: seq<Event>, x: nat)
    requires KInv(k) && Live(k.p, x) && !Hope(k.p, x)
    ensures Live(KRun(k, es).p, x) && x in KRun(k, es).p.blocked && KRun(k, es).m.pt[x] == k.m.pt[x]
    decreases |es|
  {
    if es == [] {
      HopelessIsBlocked(k.p, x);
    } else {
      KStepKeeps(k, es[0]);
      HopelessKeepsTableStep(k, es[0], x);
      HopelessKeepsTable(KStep(k, es[0]), es[1..], x);
    }
  }

  /** A process without hope holds its slot and every one of its data frames for ever. */
  lemma HopelessHoldsFrames(k: Kern, es: seq<Event>, x: nat)
    requires KInv(k) && Live(k.p, x) && !Hope(k.p, x)
    ensures x in KRun(k, es).p.blocked
    ensures forall pg :: DataPage(pg) ==> Frame(k.m, x, pg) < TOTAL_PAGES && KRun(k, es).m.used[Frame(k.m, x, pg)]
  {
    HopelessKeepsTable(k, es, x);
    var r := KRun(k, es);
    assert x in LiveSet(r.p);
    assert UserMap(r.m.used, r.m.pt[x]);
  }

  /** In particular a blocked process that has been handed to idle. */
  lemma OrphanHoldsFrames(k: Kern, es: seq<Event>, x: nat)
    requires KInv(k) && x in k.p.blocked && k.p.task[x].parent == 0
    ensures x in KRun(k, es).p.blocked
    ensures forall pg :: DataPage(pg) ==> Frame(k.m, x, pg) < TOTAL_PAGES && KRun(k, es).m.used[Frame(k.m, x, pg)]
  {
    assert Live(k.p, x) && !Hope(k.p, x);
    HopelessHoldsFrames(k, es, x);
  }
}
