/** What holds over every run of the whole kernel: memory isolation, frame counts, context switches. */
module KernelRuns {
  import opened Config
  import opened Processes
  import opened Memory
  import opened MemoryBoot
  import opened Stacks
  import opened Runs
  import opened System

  function KRun(k: Kern, es: seq<Event>): (r: Kern)
    requires KInv(k)
    ensures KInv(r)
    decreases |es|
  {
    if es == [] then k else KStepKeeps(k, es[0]); KRun(KStep(k, es[0]), es[1..])
  }

  // ----- Boot

  /** The stack init_idle prepares, so that idle's first dispatch enters cpu_idle. */
  function IdleStack(words: seq<Word>): (r: seq<Word>)
    requires |words| == KERNEL_STACK_SIZE
    ensures |r| == KERNEL_STACK_SIZE
  {
    words[KERNEL_STACK_SIZE - 1 := Code(CpuIdle)][KERNEL_STACK_SIZE - 2 := Val(Base(0) + KERNEL_STACK_SIZE - 1)]
  }

  /** A TLB that may be left after the first directory has been loaded and memory has been used. */
  ghost predicate BootTlb(phys: seq<Byte>, tlb: set<(nat, Pte)>)
    requires |phys| == TOTAL_PAGES * PAGE_SIZE
  {
    Coherent(BootMem(phys).(tlb := tlb))
  }

  /** The machine when it first enters user mode, whatever the frames, stacks and registers hold. */
  function KBoot(phys: seq<Byte>, tlb: set<(nat, Pte)>, c: Cpu): Kern
    requires |phys| == TOTAL_PAGES * PAGE_SIZE && StackSizes(c)
  {
    Kern(Boot(), BootMem(phys).(tlb := tlb), BootCpu(c))
  }

  /** The stacks init_idle and init_task1 leave, and the one the first interrupt of user code will use. */
  function BootCpu(c: Cpu): Cpu
    requires StackSizes(c)
  {
    var top := KERNEL_STACK_SIZE - 2;
    Cpu(c.stack[0 := IdleStack(c.stack[0])], c.kesp[0 := Base(0) + top][1 := Base(1) + top],
        c.r, Base(1) + KERNEL_STACK_SIZE)
  }

  lemma BootMemWith(phys: seq<Byte>, tlb: set<(nat, Pte)>)
    requires |phys| == TOTAL_PAGES * PAGE_SIZE && BootTlb(phys, tlb)
    ensures MemInv(BootMem(phys).(tlb := tlb), {1})
  {
    BootMemInv(phys);
    var m, r := BootMem(phys), BootMem(phys).(tlb := tlb);
    assert forall s, pg :: 0 <= s < NR_TASKS && 0 <= pg < TOTAL_PAGES ==> Frame(r, s, pg) == Frame(m, s, pg);
  }

  lemma KBootInv(phys: seq<Byte>, tlb: set<(nat, Pte)>, c: Cpu)
    requires |phys| == TOTAL_PAGES * PAGE_SIZE && StackSizes(c) && BootTlb(phys, tlb)
    ensures KInv(KBoot(phys, tlb, c))
  {
    BootInv();
    BootMemWith(phys, tlb);
    var p := Boot();
    assert forall s :: s in p.freeq ==> 2 <= s < NR_TASKS;
    assert forall s :: Live(p, s) <==> s == 1;
    assert LiveSet(p) == {1};
  }

  // ----- The table's runs are the kernel's

  function CallsOf(k: Kern, es: seq<Event>): seq<Call>
    requires KInv(k)
    decreases |es|
  {
    if es == [] then [] else
    KStepKeeps(k, es[0]);
    [CallOf(k, es[0])] + CallsOf(KStep(k, es[0]), es[1..])
  }

  /** Whatever is proved of every run of the process table holds of every run of the kernel. */
  lemma {:induction false} ProjectsRun(k: Kern, es: seq<Event>)
    requires KInv(k)
    ensures KRun(k, es).p == Run(k.p, CallsOf(k, es))
    decreases |es|
  {
    if es != [] {
      KStepKeeps(k, es[0]);
      Projects(k, es[0]);
      ProjectsRun(KStep(k, es[0]), es[1..]);
      assert CallsOf(k, es)[1..] == CallsOf(KStep(k, es[0]), es[1..]);
    }
  }

  // ----- Frames

  /** From boot on, the used frames are the code frames and 20 for each process, at even distances only. */
  lemma FramesAreConserved(phys: seq<Byte>, tlb: set<(nat, Pte)>, c: Cpu, es: seq<Event>)
    requires |phys| == TOTAL_PAGES * PAGE_SIZE && StackSizes(c) && BootTlb(phys, tlb)
    ensures (KBootInv(phys, tlb, c); var r := KRun(KBoot(phys, tlb, c), es);
      && Count(r.m.used, NUM_PAG_KERNEL) == NUM_PAG_CODE + NUM_PAG_DATA * |LiveSet(r.p)|
      && forall f :: NUM_PAG_KERNEL <= f < TOTAL_PAGES && r.m.used[f] ==> f % 2 == 0)
  {
    KBootInv(phys, tlb, c);
    var r := KRun(KBoot(phys, tlb, c), es);
    assert MemInv(r.m, LiveSet(r.p));
  }

  // ----- Isolation

  /** The process in slot `x` is the same one throughout. */
  predicate Lives(k: Kern, es: seq<Event>, x: nat)
    requires KInv(k)
    decreases |es|
  {
    Live(k.p, x) && (es == [] || (KStepKeeps(k, es[0]); Lives(KStep(k, es[0]), es[1..], x)))
  }

  /** The view `v` of process `x` after its own writes in the run, and nothing else. */
  function OwnWrites(k: Kern, es: seq<Event>, x: nat, v: seq<seq<Byte>>): seq<seq<Byte>>
    requires KInv(k)
    decreases |es|
  {
    if es == [] then v else
    KStepKeeps(k, es[0]);
    OwnWrites(KStep(k, es[0]), es[1..], x,
              if es[0].User? && k.p.cur == x && Possible(k, es[0]) then WriteView(v, es[0].access) else v)
  }

  /** Fork leaves every view alone and gives the child the parent's, byte for byte. */
  lemma ForkStepSees(k: Kern, act: Act, x: nat)
    requires KInv(k) && Possible(k, Kernel(Fork, act)) && k.p.freeq != [] && (Live(k.p, x) || x == k.p.freeq[0])
    ensures x < NR_TASKS && View(KFork(k, act).m, x) == View(k.m, if x == k.p.freeq[0] then k.p.cur else x)
  {
    ForkLives(k.p);
    ForkMemOf(k, act);
    assert Live(k.p, x) ==> x in LiveSet(k.p);
    ForkSees(k.m, LiveSet(k.p), k.p.cur, k.p.freeq[0], x);
  }

  lemma ExitStepSees(k: Kern, act: Act, x: nat)
    requires KInv(k) && Possible(k, Kernel(Exit, act)) && Live(k.p, x) && x != k.p.cur
    ensures View(KStep(k, Kernel(Exit, act)).m, x) == View(k.m, x)
  {
    ExitKeeps(k.p);
    assert k.p.cur in LiveSet(k.p) && x in LiveSet(k.p);
    ExitSees(k.m, LiveSet(k.p), k.p.cur, Step(k.p, Exit).cur, x);
  }

  lemma QuietStepSees(k: Kern, call: Call, act: Act, x: nat)
    requires KInv(k) && x < NR_TASKS && !call.Fork? && !call.Exit?
    ensures View(KStep(k, Kernel(call, act)).m, x) == View(k.m, x)
  {
    SameView(k.m, x, KStep(k, Kernel(call, act)).m, x);
  }

  lemma KernelStepSees(k: Kern, call: Call, act: Act, x: nat)
    requires KInv(k) && Live(k.p, x) && Live(KStep(k, Kernel(call, act)).p, x)
    ensures View(KStep(k, Kernel(call, act)).m, x) == View(k.m, x)
  {
    if !Possible(k, Kernel(call, act)) {
    } else if call.Fork? {
      if k.p.freeq != [] { ForkPre(k.p); ForkStepSees(k, act, x); }
    } else if call.Exit? {
      ExitParts(k.p);
      ExitStepSees(k, act, x);
    } else {
      QuietStepSees(k, call, act, x);
    }
  }

  lemma StepSees(k: Kern, e: Event, x: nat)
    requires KInv(k) && Live(k.p, x) && Live(KStep(k, e).p, x)
    ensures View(KStep(k, e).m, x)
      == if e.User? && k.p.cur == x && Possible(k, e) then WriteView(View(k.m, x), e.access) else View(k.m, x)
  {
    match e
    case User(a) =>
      assert x in LiveSet(k.p);
      AccessSees(k.m, LiveSet(k.p), a, x);
    case Kernel(call, act) =>
      KernelStepSees(k, call, act, x);
  }

  /** What a process sees in its data pages changes by its own writes only, however the others run. */
  lemma {:induction false} Isolation(k: Kern, es: seq<Event>, x: nat)
    requires KInv(k) && Lives(k, es, x)
    ensures View(KRun(k, es).m, x) == OwnWrites(k, es, x, View(k.m, x))
    decreases |es|
  {
    if es != [] {
      KStepKeeps(k, es[0]);
      StepSees(k, es[0], x);
      Isolation(KStep(k, es[0]), es[1..], x);
    }
  }

  // ----- Shared code

  /** The contents of the code frame behind a code page. */
  function CodeContents(m: Mem, pg: nat): seq<Byte>
    requires CodePage(pg)
  {
    Page(m.phys, CodeFrame(pg))
  }

  lemma AccessKeepsCode(m: Mem, live: set<nat>, a: Access, pg: nat)
    requires MemInv(m, live) && CodePage(pg)
    ensures CodeContents(UserAccess(m, a), pg) == CodeContents(m, pg)
  {
    if Allowed(m, a) && a.write {
      WriteGoesHome(m, live, a);
      assert UserMap(m.used, m.pt[m.cr3]);
      StorePage(m.phys, a.pte.frame, a.off, a.value, CodeFrame(pg));
    }
  }

  lemma ForkKeepsCode(k: Kern, act: Act, pg: nat)
    requires KInv(k) && Possible(k, Kernel(Fork, act)) && k.p.freeq != [] && CodePage(pg)
    ensures CodeContents(KFork(k, act).m, pg) == CodeContents(k.m, pg)
  {
    ForkLives(k.p);
    ForkMemOf(k, act);
    CodeIsUsed(k.m.used, pg);
    ForkKeepsUsed(k.m, LiveSet(k.p), k.p.cur, k.p.freeq[0], CodeFrame(pg));
  }

  lemma StepKeepsCode(k: Kern, e: Event, pg: nat)
    requires KInv(k) && CodePage(pg)
    ensures CodeContents(KStep(k, e).m, pg) == CodeContents(k.m, pg)
  {
    if !Possible(k, e) {
    } else if e.User? {
      AccessKeepsCode(k.m, LiveSet(k.p), e.access, pg);
    } else if e.call.Fork? {
      if k.p.freeq != [] { ForkKeepsCode(k, e.act, pg); }
    } else if e.call.Exit? {
      FreePagesKeepContents(k.m, k.p.cur, NUM_PAG_DATA);
    }
  }

  lemma {:induction false} FreePagesKeepContents(m: Mem, s: nat, n: nat)
    requires Sizes(m) && s < NR_TASKS && n <= NUM_PAG_DATA
    ensures FreePages(m, s, n).phys == m.phys
  {
    if n > 0 { FreePagesKeepContents(m, s, n - 1); }
  }

  /** The shared code is never changed by anyone, in any run. */
  lemma {:induction false} CodeIsNeverChanged(k: Kern, es: seq<Event>, pg: nat)
    requires KInv(k) && CodePage(pg)
    ensures CodeContents(KRun(k, es).m, pg) == CodeContents(k.m, pg)
    decreases |es|
  {
    if es != [] {
      KStepKeeps(k, es[0]);
      StepKeepsCode(k, es[0], pg);
      CodeIsNeverChanged(KStep(k, es[0]), es[1..], pg);
    }
  }

  // ----- Page tables

  lemma ForkKeepsTable(k: Kern, act: Act, x: nat)
    requires KInv(k) && Possible(k, Kernel(Fork, act)) && k.p.freeq != [] && Live(k.p, x)
    ensures KFork(k, act).m.pt[x] == k.m.pt[x]
  {
    ForkLives(k.p);
    ForkMemOf(k, act);
    assert x in LiveSet(k.p);
    ForkMemIs(k.m, LiveSet(k.p), k.p.cur, k.p.freeq[0]);
  }

  /** The page table of a process does not change while it lives. */
  lemma StepKeepsTable(k: Kern, e: Event, x: nat)
    requires KInv(k) && Live(k.p, x) && Live(KStep(k, e).p, x)
    ensures KStep(k, e).m.pt[x] == k.m.pt[x]
  {
    if !Possible(k, e) || e.User? || (!e.call.Fork? && !e.call.Exit?) {
      QuietKeepsTables(k, e);
    } else if e.call.Fork? {
      if k.p.freeq != [] { ForkKeepsTable(k, e.act, x); }
    } else {
      ExitKeepsTable(k, e.act, x);
    }
  }

  lemma QuietKeepsTables(k: Kern, e: Event)
    requires KInv(k) && (!Possible(k, e) || e.User? || (!e.call.Fork? && !e.call.Exit?))
    ensures KStep(k, e).m.pt == k.m.pt
  {
  }

  lemma ExitKeepsTable(k: Kern, act: Act, x: nat)
    requires KInv(k) && Possible(k, Kernel(Exit, act)) && Live(KStep(k, Kernel(Exit, act)).p, x)
    ensures KStep(k, Kernel(Exit, act)).m.pt[x] == k.m.pt[x]
  {
    ExitParts(k.p);
    FreePagesKeepTables(k.m, k.p.cur, NUM_PAG_DATA, x);
  }

  lemma {:induction false} FreePagesKeepTables(m: Mem, s: nat, n: nat, t: nat)
    requires Sizes(m) && s < NR_TASKS && t < NR_TASKS && s != t && n <= NUM_PAG_DATA
    ensures FreePages(m, s, n).pt[t] == m.pt[t]
  {
    if n > 0 { FreePagesKeepTables(m, s, n - 1, t); }
  }

  // ----- Context switches

  /** Slot `x` holds a process, or is idle's, and does not run. */
  predicate Asleep(k: Kern, x: nat) {
    k.p.cur != x && (x == 0 || Live(k.p, x))
  }

  predicate Sleeps(k: Kern, es: seq<Event>, x: nat)
    requires KInv(k)
    decreases |es|
  {
    Asleep(k, x) && (es == [] || (KStepKeeps(k, es[0]); Sleeps(KStep(k, es[0]), es[1..], x)))
  }

  /** No step writes the saved stack of a live slot other than the running one. */
  lemma StepKeepsStack(k: Kern, e: Event, x: nat)
    requires KInv(k) && Asleep(k, x) && x < NR_TASKS
    ensures KStep(k, e).c.stack[x] == k.c.stack[x] && KStep(k, e).c.kesp[x] == k.c.kesp[x]
  {
    if KStep(k, e).p.cur == k.p.cur {
      StepIsNoSwitch(k, e, x);
    } else {
      StepIsSwitch(k, e);
      SwitchWrites(Enter(k.c, k.p.cur, e.act), k.p.cur, KStep(k, e).p.cur);
    }
  }

  lemma {:induction false} SleepKeepsStack(k: Kern, es: seq<Event>, x: nat)
    requires KInv(k) && Sleeps(k, es, x) && x < NR_TASKS
    ensures var r := KRun(k, es).c; r.stack[x] == k.c.stack[x] && r.kesp[x] == k.c.kesp[x]
    ensures Asleep(KRun(k, es), x)
    decreases |es|
  {
    if es != [] {
      KStepKeeps(k, es[0]);
      StepKeepsStack(k, es[0], x);
      SleepKeepsStack(KStep(k, es[0]), es[1..], x);
    }
  }

  /** Sleeping and being dispatched resumes exactly the stack the slot was left with. */
  lemma WakesAsLeft(k: Kern, es: seq<Event>, back: Event, x: nat) returns (d: Cpu)
    requires KInv(k) && Sleeps(k, es, x) && x < NR_TASKS && KStep(KRun(k, es), back).p.cur == x
    ensures StackSizes(d) && d.stack[x] == k.c.stack[x] && d.kesp[x] == k.c.kesp[x]
    ensures KStep(KRun(k, es), back).c == Resume(d, x).(esp0 := Base(x) + KERNEL_STACK_SIZE - 1)
  {
    var r := KRun(k, es);
    SleepKeepsStack(k, es, x);
    StepIsSwitch(r, back);
    var at := Enter(r.c, r.p.cur, back.act);
    d := SaveContext(at, r.p.cur);
    SwitchWrites(at, r.p.cur, x);
  }

  /** The continuation of a task_switch call made at `at`, seen on its own stack. */
  ghost predicate Continues(at: Cpu, now: Cpu, x: nat)
    requires StackSizes(at) && StackSizes(now) && x < NR_TASKS
  {
    && now.r.ebx == at.r.ebx && now.r.esi == at.r.esi && now.r.edi == at.r.edi && now.r.ebp == at.r.ebp
    && now.r.eip == Top(at, x) && now.r.esp == at.r.esp + 1
    && forall a :: OnStack(x, a) && a >= at.r.esp ==> Get(now, x, a) == Get(at, x, a)
  }

  lemma ContinuesAsLeft(at: Cpu, x: nat, left: Cpu, d: Cpu, now: Cpu)
    requires StackSizes(at) && StackSizes(d) && StackSizes(left) && StackSizes(now)
    requires x < NR_TASKS && CanSwitch(x, at.r)
    requires left.stack[x] == SaveContext(at, x).stack[x] && left.kesp[x] == SaveContext(at, x).kesp[x]
    requires d.stack[x] == left.stack[x] && d.kesp[x] == left.kesp[x]
    requires now == Resume(d, x).(esp0 := now.esp0)
    ensures Continues(at, now, x)
  {
    SwitchRoundTrip(at, x, d);
    assert forall a :: Get(now, x, a) == Get(Resume(d, x), x, a);
  }

  /**
   Over any run: a process switched out by `out` that sleeps through `es` and is dispatched by `back`
   continues after its task_switch call with the same registers and the same stack.
   */
  lemma ContextSwitchRoundTrip(k: Kern, out: Event, k1: Kern, es: seq<Event>, back: Event)
    requires KInv(k) && KInv(k1) && k1 == KStep(k, out) && out.Kernel? && |out.act.words| == KERNEL_STACK_SIZE
    requires Sleeps(k1, es, k.p.cur) && KStep(KRun(k1, es), back).p.cur == k.p.cur
    ensures Continues(Enter(k.c, k.p.cur, out.act), KStep(KRun(k1, es), back).c, k.p.cur)
  {
    var x := k.p.cur;
    StepIsSwitch(k, out);
    var at := Enter(k.c, x, out.act);
    SwitchWrites(at, x, k1.p.cur);
    var d := WakesAsLeft(k1, es, back, x);
    ContinuesAsLeft(at, x, k1.c, d, KStep(KRun(k1, es), back).c);
  }

  /** Parent and child of a fork, when each has returned to the system call handler. */
  ghost predicate ReturnsTwice(at: Cpu, s: nat, first: Cpu, n: nat, pid: int)
    requires StackSizes(at) && StackSizes(first) && s < NR_TASKS && n < NR_TASKS && at.r.ebp.Val?
  {
    var child, parent := RunRetFromFork(first, n), ReturnFromFork(at, s, at.r.ebp.v, pid);
    && first.r.ebp == Val(0) && first.r.eip == Code(RetFromFork)
    && child.r.eip == parent.r.eip == Get(at, s, at.r.ebp.v + 1)
    && child.r.esp - Base(n) == parent.r.esp - Base(s)
    && parent.r.eax == Val(pid) && child.r.eax == Val(0)
    && UserContext(child, n) == UserContext(parent, s)[6 := Val(0)]
  }

  lemma ReturnsAsBuilt(at: Cpu, s: nat, n: nat, left: Cpu, d: Cpu, first: Cpu, pid: int)
    requires StackSizes(at) && StackSizes(d) && StackSizes(left) && StackSizes(first)
    requires s < NR_TASKS && n < NR_TASKS && s != n && at.r.ebp.Val? && CanFork(s, at.r.ebp.v)
    requires left.stack[n] == ForkStack(at, s, n, at.r.ebp.v).stack[n]
    requires left.kesp[n] == ForkStack(at, s, n, at.r.ebp.v).kesp[n]
    requires d.stack[n] == left.stack[n] && d.kesp[n] == left.kesp[n]
    requires first == Resume(d, n).(esp0 := first.esp0)
    ensures ReturnsTwice(at, s, first, n, pid)
  {
    ForkReturnsTwice(at, s, n, at.r.ebp.v, pid, d);
    var a, b := RunRetFromFork(first, n), RunRetFromFork(Resume(d, n), n);
    assert a == b.(esp0 := a.esp0);
    forall i | 0 <= i < 16 ensures UserContext(a, n)[i] == UserContext(b, n)[i] {
      assert Get(a, n, a.r.esp + i) == Get(b, n, b.r.esp + i);
    }
  }

  lemma ForkBuilds(k: Kern, act: Act)
    requires KInv(k) && Possible(k, Kernel(Fork, act)) && k.p.freeq != []
    ensures var r, n, at := KFork(k, act), k.p.freeq[0], Enter(k.c, k.p.cur, act);
      && n < NR_TASKS && n != k.p.cur && |r.p.task| == NR_TASKS
      && r.c.stack[n] == ForkStack(at, k.p.cur, n, at.r.ebp.v).stack[n]
      && r.c.kesp[n] == ForkStack(at, k.p.cur, n, at.r.ebp.v).kesp[n]
      && r.c.r.eax == Val(r.p.task[n].pid)
  {
    ForkPre(k.p);
    ForkNeverRunsOut(k);
  }

  /**
   Over any run: the child of a fork, first dispatched by `back` after sleeping through `es`, returns from the
   same system call as its parent, with the parent's user context but eax = 0; the parent gets the child's PID.
   */
  lemma ForkChildReturns(k: Kern, act: Act, k1: Kern, es: seq<Event>, back: Event)
    requires KInv(k) && KInv(k1) && Possible(k, Kernel(Fork, act)) && k.p.freeq != [] && k1 == KFork(k, act)
    requires Sleeps(k1, es, k.p.freeq[0]) && KStep(KRun(k1, es), back).p.cur == k.p.freeq[0]
    ensures var n := k.p.freeq[0];
      && n < NR_TASKS && k1.c.r.eax == Val(k1.p.task[n].pid)
      && ReturnsTwice(Enter(k.c, k.p.cur, act), k.p.cur, KStep(KRun(k1, es), back).c, n, k1.p.task[n].pid)
  {
    var s, n := k.p.cur, k.p.freeq[0];
    var at := Enter(k.c, s, act);
    ForkBuilds(k, act);
    var d := WakesAsLeft(k1, es, back, n);
    ReturnsAsBuilt(at, s, n, k1.c, d, KStep(KRun(k1, es), back).c, k1.p.task[n].pid);
  }
}
