/**
 What the runs of the kernel mean to a process, in its own terms: the bytes it reads, the pages it may touch, the
 answers of its calls, and the registers and stack it continues with.
 */
module KernelFacts {
  import opened Config
  import opened Processes
  import opened Memory
  import opened MemoryBoot
  import opened MemoryFacts
  import opened Stacks
  import opened Runs
  import opened System
  import opened KernelRuns

  // ----- Memory

  /** In every state of every run a process may touch its own data, read its code, and nothing else. */
  lemma AllowedInRuns(k: Kern, es: seq<Event>, pg: nat, write: bool, off: nat, v: Byte)
    requires KInv(k) && KRun(k, es).p.cur != 0 && pg < TOTAL_PAGES && off < PAGE_SIZE
    ensures var m := KRun(k, es).m;
      Possible(KRun(k, es), User(Access(pg, m.pt[m.cr3][pg], write, off, v)))
      <==> 256 <= pg < 276 || (276 <= pg < 284 && !write)
  {
    var r := KRun(k, es);
    assert Live(r.p, r.p.cur) && r.p.cur in LiveSet(r.p);
    AllowedIff(r.m, LiveSet(r.p), pg, write, off, v);
  }

  /** The event is a write by process `x` to this byte of its memory. */
  predicate Writes(k: Kern, e: Event, x: nat, pg: nat, off: nat)
    requires KInv(k)
  {
    && e.User? && Possible(k, e) && k.p.cur == x
    && e.access.write && e.access.page == pg && e.access.off == off
  }

  /** The last value process `x` has written to one byte of its memory in the run, or what was there. */
  function LastWritten(k: Kern, es: seq<Event>, x: nat, pg: nat, off: nat, b: Byte): Byte
    requires KInv(k)
    decreases |es|
  {
    if es == [] then b else
    KStepKeeps(k, es[0]);
    LastWritten(KStep(k, es[0]), es[1..], x, pg, off, if Writes(k, es[0], x, pg, off) then es[0].access.value else b)
  }

  /** A step changes a byte of a process only as that process writes it. */
  lemma ByteStep(k: Kern, e: Event, x: nat, pg: nat, off: nat)
    requires KInv(k) && Live(k.p, x) && Live(KStep(k, e).p, x) && 256 <= pg < 284 && off < PAGE_SIZE
    ensures ByteOf(KStep(k, e).m, x, pg, off)
         == if Writes(k, e, x, pg, off) then e.access.value else ByteOf(k.m, x, pg, off)
  {
    if e.User? && Possible(k, e) {
      UserByteStep(k, e.access, x, pg, off);
    } else {
      OtherByteStep(k, e, x, pg, off);
    }
  }

  lemma UserByteStep(k: Kern, a: Access, x: nat, pg: nat, off: nat)
    requires KInv(k) && Live(k.p, x) && Possible(k, User(a)) && 256 <= pg < 284 && off < PAGE_SIZE
    ensures ByteOf(KStep(k, User(a)).m, x, pg, off)
         == if a.write && x == k.p.cur && pg == a.page && off == a.off then a.value else ByteOf(k.m, x, pg, off)
  {
    assert x in LiveSet(k.p);
    AccessByte(k.m, LiveSet(k.p), a, x, pg, off);
  }

  lemma OtherByteStep(k: Kern, e: Event, x: nat, pg: nat, off: nat)
    requires KInv(k) && Live(k.p, x) && Live(KStep(k, e).p, x) && 256 <= pg < 284 && off < PAGE_SIZE
    requires !e.User? || !Possible(k, e)
    ensures ByteOf(KStep(k, e).m, x, pg, off) == ByteOf(k.m, x, pg, off)
  {
    var r := KStep(k, e);
    KStepKeeps(k, e);
    assert x in LiveSet(k.p) && x in LiveSet(r.p);
    if pg < 276 {
      StepSees(k, e, x);
      ViewIsBytes(k.m, LiveSet(k.p), x, pg, off);
      ViewIsBytes(r.m, LiveSet(r.p), x, pg, off);
    } else {
      StepKeepsCode(k, e, pg);
      CodeIsBytes(k.m, LiveSet(k.p), x, pg, off);
      CodeIsBytes(r.m, LiveSet(r.p), x, pg, off);
    }
  }

  /** Over every run: what a process reads, in data or code, is its own last write there, or what it began with. */
  lemma {:induction false} ReadsOwnLastWrite(k: Kern, es: seq<Event>, x: nat, pg: nat, off: nat)
    requires KInv(k) && Lives(k, es, x) && 256 <= pg < 284 && off < PAGE_SIZE
    ensures ByteOf(KRun(k, es).m, x, pg, off) == LastWritten(k, es, x, pg, off, ByteOf(k.m, x, pg, off))
    decreases |es|
  {
    if es != [] {
      KStepKeeps(k, es[0]);
      ByteStep(k, es[0], x, pg, off);
      ReadsOwnLastWrite(KStep(k, es[0]), es[1..], x, pg, off);
    }
  }

  /** The child of a fork begins with its parent's bytes. */
  lemma ChildBytes(k: Kern, act: Act, pg: nat, off: nat)
    requires KInv(k) && Possible(k, Kernel(Fork, act)) && k.p.freeq != [] && 256 <= pg < 284 && off < PAGE_SIZE
    ensures k.p.freeq[0] < NR_TASKS
    ensures ByteOf(KStep(k, Kernel(Fork, act)).m, k.p.freeq[0], pg, off) == ByteOf(k.m, k.p.cur, pg, off)
  {
    ForkLives(k.p);
    ForkMemOf(k, act);
    ForkBytes(k.m, LiveSet(k.p), k.p.cur, k.p.freeq[0], k.p.freeq[0], pg, off);
  }

  // ----- Answers

  /** unblock answers 0 if the caller has a child with that PID, and -1 if not; no other register changes. */
  lemma UnblockAnswer(k: Kern, pid: int, act: Act)
    requires KInv(k) && Possible(k, Kernel(Unblock(pid), act))
    ensures var c := KStep(k, Kernel(Unblock(pid), act)).c;
      && c.r == act.r.(eax := Val(if exists x :: x in k.p.childs[k.p.cur] && k.p.task[x].pid == pid then 0 else -1))
      && c.stack[k.p.cur] == act.words
  {
    ChildSlots(k.p, k.p.cur);
  }

  /** fork answers the child's PID, or -1 if no slot is free; no other register changes. */
  lemma ForkAnswer(k: Kern, act: Act)
    requires KInv(k) && Possible(k, Kernel(Fork, act))
    ensures var r := KStep(k, Kernel(Fork, act));
      && |r.p.task| == NR_TASKS && (k.p.freeq != [] ==> k.p.freeq[0] < NR_TASKS)
      && r.c.r == act.r.(eax := Val(if k.p.freeq == [] then -1 else r.p.task[k.p.freeq[0]].pid))
      && r.c.stack[k.p.cur] == act.words
  {
    if k.p.freeq != [] {
      ForkBuilds(k, act);
      ForkNeverRunsOut(k);
      ForkStacks(k.p, k.c, act);
    }
  }

  /** Without frames a fork would answer -1, and the slot it took would be on no queue and in no family. */
  lemma FailedFork(p: Proc, m: Mem, c: Cpu)
    requires Inv(p) && p.freeq != [] && Sizes(m) && StackSizes(c) && c.r.ebp.Val?
    ensures (ForkPre(p); !ForkMem(m, p.cur, p.freeq[0]).ok ==>
      var r := ForkInto(p, m, c);
      && r.c.r == c.r.(eax := Val(-1)) && r.c.stack[p.cur] == c.stack[p.cur]
      && r.c.stack[p.freeq[0]] == c.stack[p.cur] && r.c.kesp[p.freeq[0]] == c.kesp[p.cur]
      && r.p.freeq == p.freeq[1..] && r.p.readyq == p.readyq && r.p.blocked == p.blocked
      && r.p.childs == p.childs && r.p.lastPid == p.lastPid && r.p.cur == p.cur)
  {
    ForkPre(p);
  }

  /** A tick or a block that does not switch leaves the process as it came. */
  lemma QuietAnswer(k: Kern, call: Call, act: Act)
    requires KInv(k) && Possible(k, Kernel(call, act)) && (call.Tick? || call.Block?) && !Switches(k.p, call)
    ensures var r := KStep(k, Kernel(call, act));
      r.c.r == act.r && r.c.stack[k.p.cur] == act.words && r.m == k.m && r.p.cur == k.p.cur
  {
    SwitchesToAnother(k.p, call);
  }

  /** A user access changes memory only. */
  lemma UserStepKeepsRest(k: Kern, a: Access)
    requires KInv(k)
    ensures KStep(k, User(a)).p == k.p && KStep(k, User(a)).c == k.c
  {
  }

  // ----- Stacks

  /** The stack the next entry from user mode starts on: the new slot's last word after a switch, else as it was. */
  lemma EntryStack(k: Kern, e: Event)
    requires KInv(k)
    ensures var r := KStep(k, e);
      r.c.esp0 == if r.p.cur == k.p.cur then k.c.esp0 else r.p.cur * 1024 + 1023
  {
    var r := KStep(k, e);
    if r.p.cur != k.p.cur {
      StepIsSwitch(k, e);
    } else if Possible(k, e) && e.Kernel? {
      EntryStackKept(k, e.call, e.act);
    }
  }

  lemma EntryStackKept(k: Kern, call: Call, act: Act)
    requires KInv(k) && Possible(k, Kernel(call, act)) && KStep(k, Kernel(call, act)).p.cur == k.p.cur
    ensures KStep(k, Kernel(call, act)).c.esp0 == k.c.esp0
  {
    if call.Fork? {
      if k.p.freeq != [] {
        ForkPre(k.p);
        ForkNeverRunsOut(k);
        ForkWrites(Enter(k.c, k.p.cur, act), k.p.cur, k.p.freeq[0], act.r.ebp.v);
      }
    } else {
      QuietProjects(k, call, act);
      SwitchesToAnother(k.p, call);
    }
  }

  /** The stacks at boot, word by word. */
  lemma BootStacks(phys: seq<Byte>, tlb: set<(nat, Pte)>, c: Cpu)
    requires |phys| == TOTAL_PAGES * PAGE_SIZE && StackSizes(c)
    ensures var k := KBoot(phys, tlb, c);
      && k.c.esp0 == 2048 && k.c.kesp[0] == 1022 && k.c.kesp[1] == 2046 && k.c.r == c.r && k.m.cr3 == 1
      && k.c.stack[0][1023] == Code(CpuIdle) && k.c.stack[0][1022] == Val(1023)
      && forall s :: 1 <= s < NR_TASKS ==> k.c.stack[s] == c.stack[s]
  {
  }

  /** Over every run from boot: when idle is first dispatched it enters cpu_idle, on its own stack. */
  lemma IdleEntersItsLoop(phys: seq<Byte>, tlb: set<(nat, Pte)>, c: Cpu, k: Kern, es: seq<Event>, back: Event)
    requires |phys| == TOTAL_PAGES * PAGE_SIZE && StackSizes(c) && k == KBoot(phys, tlb, c) && KInv(k)
    requires Sleeps(k, es, 0) && KStep(KRun(k, es), back).p.cur == 0
    ensures var r := KStep(KRun(k, es), back).c.r; r.eip == Code(CpuIdle) && r.ebp == Val(1023) && r.esp == 1024
  {
    BootStacks(phys, tlb, c);
    var d := WakesAsLeft(k, es, back, 0);
  }

  /** The processor goes on behind a call to task_switch made with this stack and these registers. */
  ghost predicate Resumes(now: Cpu, was: Act, x: nat)
    requires StackSizes(now) && x < NR_TASKS && |was.words| == KERNEL_STACK_SIZE
  {
    && OnStack(x, was.r.esp)
    && now.r.ebx == was.r.ebx && now.r.esi == was.r.esi && now.r.edi == was.r.edi && now.r.ebp == was.r.ebp
    && now.r.esp == was.r.esp + 1 && now.r.eip == was.words[was.r.esp - x * 1024]
    && now.stack[x][was.r.esp - x * 1024..] == was.words[was.r.esp - x * 1024..]
  }

  lemma ContinuesIs(at: Cpu, now: Cpu, x: nat, was: Act)
    requires StackSizes(at) && StackSizes(now) && x < NR_TASKS && Continues(at, now, x)
    requires at.stack[x] == was.words && at.r == was.r && CanSwitch(x, was.r)
    ensures Resumes(now, was, x)
  {
    var lo := was.r.esp - x * 1024;
    var t, u := now.stack[x], was.words;
    forall i | lo <= i < KERNEL_STACK_SIZE ensures t[i] == u[i] {
      assert Get(now, x, x * 1024 + i) == Get(at, x, x * 1024 + i);
    }
  }

  /**
   ContextSwitchRoundTrip in terms of what the process itself had: the registers and the stack it came to its call
   with are those it continues with.
   */
  lemma ContinuesWithItsOwn(k: Kern, out: Event, k1: Kern, es: seq<Event>, back: Event)
    requires KInv(k) && KInv(k1) && k1 == KStep(k, out) && out.Kernel? && |out.act.words| == KERNEL_STACK_SIZE
    requires Sleeps(k1, es, k.p.cur) && KStep(KRun(k1, es), back).p.cur == k.p.cur
    ensures Resumes(KStep(KRun(k1, es), back).c, out.act, k.p.cur)
  {
    StepIsSwitch(k, out);
    ContextSwitchRoundTrip(k, out, k1, es, back);
    ContinuesIs(Enter(k.c, k.p.cur, out.act), KStep(KRun(k1, es), back).c, k.p.cur, out.act);
  }

  // ----- Frames

  /** The user frames in use. */
  function UsedFrames(used: seq<bool>, from: nat): (r: set<nat>)
    requires |used| == TOTAL_PAGES
    ensures forall f :: f in r <==> from <= f < TOTAL_PAGES && used[f]
    decreases TOTAL_PAGES - from
  {
    if from >= TOTAL_PAGES then {} else
    (if used[from] then {from} else {}) + UsedFrames(used, from + 1)
  }

  /** How many there are. */
  function CountAll(used: seq<bool>, i: nat): nat
    requires |used| == TOTAL_PAGES
    decreases |used| - i
  {
    if i >= TOTAL_PAGES then 0 else (if used[i] then 1 else 0) + CountAll(used, i + 1)
  }

  lemma {:induction false} CountAllIsSize(used: seq<bool>, i: nat)
    requires |used| == TOTAL_PAGES
    ensures CountAll(used, i) == |UsedFrames(used, i)|
    decreases TOTAL_PAGES - i
  {
    if i < TOTAL_PAGES {
      CountAllIsSize(used, i + 1);
      assert i !in UsedFrames(used, i + 1);
      if !used[i] { assert UsedFrames(used, i) == UsedFrames(used, i + 1); }
    }
  }

  /** Counting every second frame counts them all when no other is ever used. */
  lemma {:induction false} CountIsAll(used: seq<bool>, i: nat)
    requires |used| == TOTAL_PAGES && i % 2 == 0 && forall f :: i <= f < TOTAL_PAGES && f % 2 == 1 ==> !used[f]
    ensures CountAll(used, i) == Count(used, i)
    decreases TOTAL_PAGES - i
  {
    if i < TOTAL_PAGES {
      assert !used[i + 1];
      CountIsAll(used, i + 2);
    }
  }

  /** In every state of every run the user frames in use number 8 for the code and 20 for each process. */
  lemma FramesInUse(k: Kern, es: seq<Event>)
    requires KInv(k)
    ensures var r := KRun(k, es); |UsedFrames(r.m.used, 256)| == 8 + 20 * |LiveSet(r.p)|
  {
    UsedNumber(KRun(k, es).m, LiveSet(KRun(k, es).p));
  }

  lemma UsedNumber(m: Mem, live: set<nat>)
    requires MemInv(m, live)
    ensures |UsedFrames(m.used, 256)| == 8 + 20 * |live|
  {
    assert Bytemap(m.used);
    CountIsAll(m.used, 256);
    CountAllIsSize(m.used, 256);
  }
}
