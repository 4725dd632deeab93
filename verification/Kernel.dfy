/**
 The kernel on its real data structures: linked lists, descriptors, page tables, frames and stacks together.
 Every call of this class, made with any stack and registers, is one step of the state machine of the whole kernel.
 */
module Kernels {
  import opened Config
  import opened Processes
  import opened Memory
  import opened UserImage
  import opened Stacks
  import opened Runs
  import opened System
  import opened KernelRuns
  import opened ProcessTables
  import opened KernelHardware

  // ----- A step and its parts

  /** Whoever a step dispatches has a stack to resume, also once the running slot has used its own. */
  lemma NextIsResumable(k: Kern, call: Call, act: Act)
    requires KInv(k) && !call.Fork? && |act.words| == KERNEL_STACK_SIZE
    ensures var next := Step(k.p, call).cur;
      next < NR_TASKS && (next != k.p.cur ==> Resumable(Enter(k.c, k.p.cur, act), next))
  {
    StepKeeps(k.p, call);
    if call.Exit? && k.p.cur != 0 { ExitParts(k.p); } else if !call.Exit? { LiveStep(k.p, call); }
    var q := Step(k.p, call);
    assert q.cur == 0 || Live(q, q.cur);
    if q.cur != k.p.cur { ResumableSame(k.c, Enter(k.c, k.p.cur, act), q.cur); }
  }

  /** A tick or block is its table part, followed by task_switch when another slot is to run. */
  lemma QuietParts(k: Kern, call: Call, act: Act)
    requires KInv(k) && Possible(k, Event.Kernel(call, act)) && (call.Tick? || call.Block?)
    ensures var next, c := Step(k.p, call).cur, Enter(k.c, k.p.cur, act);
      && (next != k.p.cur ==> CanSwitch(k.p.cur, act.r))
      && KStep(k, Event.Kernel(call, act)) == if next == k.p.cur then Kern(Step(k.p, call), k.m, c)
           else Kern(Step(k.p, call), SetCr3(k.m, next), SwitchTo(c, k.p.cur, next))
  {
    SwitchesToAnother(k.p, call);
  }

  lemma UnblockParts(k: Kern, pid: int, act: Act)
    requires KInv(k) && Possible(k, Event.Kernel(Call.Unblock(pid), act))
    ensures k.p.cur != 0
    ensures KStep(k, Event.Kernel(Call.Unblock(pid), act))
      == Kern(Step(k.p, Call.Unblock(pid)), k.m, Result(Enter(k.c, k.p.cur, act), UnblockResult(k.p, pid)))
  {
  }

  /** An exit is its table part, the return of the data frames, and task_switch to another slot. */
  lemma ExitCallParts(k: Kern, act: Act)
    requires KInv(k) && Possible(k, Event.Kernel(Call.Exit, act))
    ensures var t, next, c := k.p.cur, Step(k.p, Call.Exit).cur, Enter(k.c, k.p.cur, act);
      && t != 0 && next != t && CanSwitch(t, act.r)
      && KStep(k, Event.Kernel(Call.Exit, act))
      == Kern(Step(k.p, Call.Exit), SetCr3(FreePages(k.m, t, NUM_PAG_DATA), next), SwitchTo(c, t, next))
  {
    SwitchesToAnother(k.p, Call.Exit);
  }

  lemma NoSlotParts(k: Kern, act: Act)
    requires KInv(k) && Possible(k, Event.Kernel(Call.Fork, act)) && k.p.freeq == []
    ensures KStep(k, Event.Kernel(Call.Fork, act)) == k.(c := Result(Enter(k.c, k.p.cur, act), -1))
  {
  }

  /** With a free slot the parent can be copied, the frames are found, and the child's heads are the only new ones. */
  lemma ForkCallParts(k: Kern, act: Act)
    requires KInv(k) && Possible(k, Event.Kernel(Call.Fork, act)) && k.p.freeq != []
    ensures var s, n := k.p.cur, k.p.freeq[0];
      && s != 0 && n < NR_TASKS && s != n && Copyable(k.m, s) && act.r.ebp.Val? && CanFork(s, act.r.ebp.v)
      && ForkMem(k.m, s, n).ok
      && KStep(k, Event.Kernel(Call.Fork, act)) == ForkInto(k.p, k.m, Enter(k.c, s, act))
      && forall x :: Live(KStep(k, Event.Kernel(Call.Fork, act)).p, x) ==> Live(k.p, x) || x == n
  {
    ForkLives(k.p);
    LiveIsCopyable(k.m, LiveSet(k.p));
    ForkNeverRunsOut(k);
    ForkProjects(k, act);
    ForkParts(k.p);
  }

  /** What sys_fork makes of a slot: first the copy, then the rest. */
  function Filled(k: Kern, n: nat): Kern
    requires k.p.cur < |k.p.task| == |k.p.childs| == NR_TASKS && n < NR_TASKS
    requires Sizes(k.m) && StackSizes(k.c) && k.c.r.ebp.Val?
  {
    var f, p := ForkMem(k.m, k.p.cur, n), Linked(k.p, n);
    if !f.ok then Kern(k.p, f.m, Result(CopySlot(k.c, k.p.cur, n), -1))
    else Kern(p, f.m, Result(ForkStack(k.c, k.p.cur, n, k.c.r.ebp.v), p.lastPid))
  }

  lemma ForkIntoParts(k: Kern)
    requires Inv(k.p) && k.p.freeq != [] && Sizes(k.m) && StackSizes(k.c) && k.c.r.ebp.Val?
    ensures k.p.freeq[0] < NR_TASKS
    ensures ForkInto(k.p, k.m, k.c) == Filled(k.(p := StepForkNoFrames(k.p)), k.p.freeq[0])
  {
    ForkPre(k.p);
    assert k.p.freeq[0] != k.p.cur;
    TakeThenLink(k.p);
  }

  /** The access the loaded page table gives for a page. */
  function Through(m: Mem, pg: nat, write: bool, off: nat, value: Byte): Access
    requires Sizes(m) && pg < TOTAL_PAGES
  {
    Access(pg, m.pt[m.cr3][pg], write, off, value)
  }

  /** Under the invariant there is only one translation an access can use. */
  lemma OneTranslation(m: Mem, a: Access)
    requires Sizes(m) && Coherent(m) && Allowed(m, a)
    ensures a == Through(m, a.page, a.write, a.off, a.value)
  {
  }

  /** No event of the run is one that cannot happen. */
  predicate AllPossible(k: Kern, es: seq<Event>)
    requires KInv(k)
    decreases |es|
  {
    es == [] || (KStepKeeps(k, es[0]); Possible(k, es[0]) && AllPossible(KStep(k, es[0]), es[1..]))
  }

  lemma BootIsBare()
    ensures forall s :: Live(Boot(), s) <==> s == 1
  {
    assert forall s :: s in Boot().freeq ==> 2 <= s;
  }

  class Kernel {
    const table: ProcessTable
    const hw: Hardware

    constructor (table: ProcessTable, hw: Hardware)
      ensures this.table == table && this.hw == hw
    {
      this.table, this.hw := table, hw;
    }

    ghost predicate Apart() {
      table.Objects() !! hw.mm.objects && table.Objects() !! hw.cpu.objects
    }

    /** The data structures are in order, also in the middle of a call. */
    ghost predicate Whole()
      reads table, table.task, table.queues, table.kin, table.queues.objects, table.kin.objects
      reads hw.mm, hw.cpu, hw.mm.objects, hw.cpu.objects
    {
      table.Wired() && hw.Valid() && Apart()
    }

    ghost function State(): Kern
      requires Whole()
      reads table, table.task, table.queues, table.kin, table.queues.objects, table.kin.objects
      reads hw.mm, hw.cpu, hw.mm.objects, hw.cpu.objects
    {
      Kern(table.Table(), hw.mm.m, hw.cpu.c)
    }

    /** Between calls: in a state of some run. */
    ghost predicate Ready()
      reads table, table.task, table.queues, table.kin, table.queues.objects, table.kin.objects
      reads hw.mm, hw.cpu, hw.mm.objects, hw.cpu.objects
    {
      Whole() && KInv(State()) && table.HeadsReady()
    }

    // ----- Boot

    method BootTable()
      requires table.Zeroed() && hw.mm.Layout() && hw.cpu.Valid() && Apart()
      modifies table, table.task, table.queues`qs, table.queues`act, table.queues.objects
      modifies table.kin`act, table.kin.objects
      ensures table.Valid() && table.Table() == Boot()
      ensures hw.cpu.Valid() && hw.cpu.c == old(hw.cpu.c) && hw.mm.phys[..] == old(hw.mm.phys[..])
    {
      BootInv();
      BootIsBare();
      table.InitTable();
    }

    method BootHardware(start: nat, size: nat)
      requires hw.mm.Layout() && hw.cpu.Valid() && hw.mm.objects !! hw.cpu.objects && Apart() && Fits(start, size)
      requires table.Valid() && table.Table() == Boot()
      modifies hw.mm.objects, hw.cpu.objects
      ensures Whole() && table.Valid() && State() == KBoot(State().m.phys, State().m.tlb, old(hw.cpu.c))
      ensures BootTlb(State().m.phys, State().m.tlb)
      ensures FirstTable(State().m.pt[1]) && State().m.phys == Loaded(State().m.pt[1], old(hw.mm.phys[..]), start, size)
    {
      hw.Boot(start, size);
      assert table.Valid() && table.Table() == Boot();
    }

    /**
     init_mm, init_sched, init_idle and init_task1, over whatever frames, stacks and registers held, and the copy of
     the user's image from the kernel's frames to user memory.
     */
    method BootKernel(start: nat, size: nat)
      requires table.Zeroed() && hw.mm.Layout() && hw.cpu.Valid() && hw.mm.objects !! hw.cpu.objects && Apart()
      requires Fits(start, size)
      modifies table, table.task, table.queues`qs, table.queues`act, table.queues.objects
      modifies table.kin`act, table.kin.objects
      modifies hw.mm.objects, hw.cpu.objects
      ensures Ready() && State() == KBoot(State().m.phys, State().m.tlb, old(hw.cpu.c))
      ensures FirstTable(State().m.pt[1]) && State().m.phys == Loaded(State().m.pt[1], old(hw.mm.phys[..]), start, size)
    {
      BootTable();
      BootHardware(start, size);
      KBootInv(State().m.phys, State().m.tlb, old(hw.cpu.c));
    }

    // ----- Parts of a call on the table, which leave the hardware alone

    method TableTick()
      requires Whole() && table.Valid()
      modifies table`current, table`quantumTicks, table.queues`qs, table.queues.objects
      ensures Whole() && table.Valid() && State() == old(State()).(p := Step(old(State()).p, Call.Tick))
    {
      ghost var m, c := hw.mm.m, hw.cpu.c;
      table.Tick();
      assert hw.Valid() && hw.mm.m == m && hw.cpu.c == c;
    }

    method TableBlock()
      requires Whole() && table.Valid() && table.current != 0
      modifies table`current, table.task, table.queues`qs, table.queues.objects
      ensures Whole() && table.Valid() && State() == old(State()).(p := Step(old(State()).p, Call.Block))
    {
      ghost var m, c := hw.mm.m, hw.cpu.c;
      table.SysBlock();
      assert hw.Valid() && hw.mm.m == m && hw.cpu.c == c;
    }

    method TableUnblock(pid: int) returns (r: int)
      requires Whole() && table.Valid() && table.current != 0
      modifies table.task, table.queues`qs, table.queues.objects
      ensures Whole() && table.Valid() && State() == old(State()).(p := Step(old(State()).p, Call.Unblock(pid)))
      ensures r == UnblockResult(old(State()).p, pid)
    {
      ghost var m, c := hw.mm.m, hw.cpu.c;
      ChildSlots(table.Table(), table.current);
      r := table.SysUnblock(pid);
      assert hw.Valid() && hw.mm.m == m && hw.cpu.c == c;
    }

    // ----- Parts of a call on the hardware, which leave the table alone

    /** The running process, and the kernel on its behalf, have used its stack and registers up to the call. */
    method Arrive(act: Act)
      requires Whole() && |act.words| == KERNEL_STACK_SIZE
      modifies hw.mm.objects, hw.cpu.objects
      ensures Whole() && State() == old(State()).(c := Enter(old(State()).c, table.current, act))
    {
      ghost var p := table.Table();
      hw.Arrive(table.current, act);
      assert table.Wired() && table.Table() == p;
    }

    method Switch(from: nat)
      requires Whole() && from < NR_TASKS && from != table.current
      requires CanSwitch(from, hw.cpu.r) && Resumable(hw.cpu.c, table.current)
      modifies hw.mm.objects, hw.cpu.objects
      ensures Whole()
      ensures var k := old(State()); State() == Kern(k.p, SetCr3(k.m, k.p.cur), SwitchTo(k.c, from, k.p.cur))
    {
      ghost var p := table.Table();
      hw.Switch(from, table.current);
      assert table.Wired() && table.Table() == p;
    }

    method Return(v: int)
      requires Whole()
      modifies hw.mm.objects, hw.cpu.objects
      ensures Whole() && State() == old(State()).(c := Result(old(State()).c, v))
    {
      ghost var p := table.Table();
      hw.Return(v);
      assert table.Wired() && table.Table() == p;
    }

    // ----- Ticks, block and unblock

    /** The running slot comes to a call from a state between calls. */
    method Come(act: Act)
      requires Ready() && |act.words| == KERNEL_STACK_SIZE
      modifies hw.mm.objects, hw.cpu.objects
      ensures Whole() && table.Valid() && State() == old(State()).(c := Enter(old(State()).c, table.current, act))
    {
      Arrive(act);
    }

    /** A clock tick: scheduler() */
    method Tick(act: Act)
      requires Ready() && Possible(State(), Event.Kernel(Call.Tick, act))
      modifies table`current, table`quantumTicks, table.queues`qs, table.queues.objects
      modifies hw.mm.objects, hw.cpu.objects
      ensures Ready() && State() == KStep(old(State()), Event.Kernel(Call.Tick, act))
    {
      ghost var k := State();
      KStepKeeps(k, Event.Kernel(Call.Tick, act));
      QuietParts(k, Call.Tick, act);
      NextIsResumable(k, Call.Tick, act);
      var t := table.current;
      Come(act);
      TableTick();
      if table.current != t {
        Switch(t);
      }
    }

    method SysBlock(act: Act)
      requires Ready() && Possible(State(), Event.Kernel(Call.Block, act))
      modifies table`current, table.task, table.queues`qs, table.queues.objects
      modifies hw.mm.objects, hw.cpu.objects
      ensures Ready() && State() == KStep(old(State()), Event.Kernel(Call.Block, act))
    {
      ghost var k := State();
      KStepKeeps(k, Event.Kernel(Call.Block, act));
      QuietParts(k, Call.Block, act);
      NextIsResumable(k, Call.Block, act);
      var t := table.current;
      Come(act);
      TableBlock();
      if table.current != t {
        Switch(t);
      }
    }

    method SysUnblock(pid: int, act: Act)
      requires Ready() && Possible(State(), Event.Kernel(Call.Unblock(pid), act))
      modifies table.task, table.queues`qs, table.queues.objects
      modifies hw.mm.objects, hw.cpu.objects
      ensures Ready() && State() == KStep(old(State()), Event.Kernel(Call.Unblock(pid), act))
    {
      ghost var k := State();
      KStepKeeps(k, Event.Kernel(Call.Unblock(pid), act));
      UnblockParts(k, pid, act);
      Come(act);
      var r := TableUnblock(pid);
      Return(r);
    }

    // ----- Exit

    /** Out of the tree, with the children handed to idle. */
    method LeaveTree()
      requires Whole() && table.Valid() && table.current != 0
      modifies table.task, table.kin`qs, table.kin.objects
      ensures Whole() && CanExit(old(State()).p) && State() == old(State()).(p := LeftTree(old(State()).p))
      ensures table.kin.act == old(table.kin.act) && !table.queues.Queued(table.current)
    {
      ghost var m, c := hw.mm.m, hw.cpu.c;
      table.Depart();
      assert hw.Valid() && hw.mm.m == m && hw.cpu.c == c;
    }

    /** free_user_pages, while the directory of the dying process is still loaded. */
    method FreeFrames()
      requires Whole()
      modifies hw.mm.objects, hw.cpu.objects
      ensures Whole() && State() == old(State()).(m := FreePages(old(State()).m, table.current, NUM_PAG_DATA))
    {
      ghost var p := table.Table();
      hw.FreeFrames(table.current);
      assert table.Wired() && table.Table() == p;
    }

    /** The slot becomes free and the next one is chosen. */
    method GiveUpSlot()
      requires Whole() && !table.queues.Queued(table.current)
      modifies table`current, table.queues`qs, table.queues.objects
      ensures Whole() && table.kin.act == old(table.kin.act)
      ensures var p := old(State()).p; State() == old(State()).(p := SchedNext(p.(freeq := p.freeq + [p.cur])))
    {
      ghost var m, c := hw.mm.m, hw.cpu.c;
      table.GiveUpSlot();
      assert hw.Valid() && hw.mm.m == m && hw.cpu.c == c;
    }

    /** sys_exit up to the switch, in the order of the code. */
    method Leave()
      requires Whole() && table.Valid() && table.current != 0
      modifies table`current, table.task, table.queues`qs, table.queues.objects, table.kin`qs, table.kin.objects
      modifies hw.mm.objects, hw.cpu.objects
      ensures Whole() && table.kin.act == old(table.kin.act)
      ensures var k := old(State());
        CanExit(k.p) && State() == Kern(StepExit(k.p), FreePages(k.m, k.p.cur, NUM_PAG_DATA), k.c)
    {
      LeaveTree();
      FreeFrames();
      GiveUpSlot();
    }

    /** sys_exit */
    method SysExit(act: Act)
      requires Ready() && Possible(State(), Event.Kernel(Call.Exit, act))
      modifies table`current, table.task, table.queues`qs, table.queues.objects, table.kin`qs, table.kin.objects
      modifies hw.mm.objects, hw.cpu.objects
      ensures Ready() && State() == KStep(old(State()), Event.Kernel(Call.Exit, act))
    {
      ghost var k := State();
      KStepKeeps(k, Event.Kernel(Call.Exit, act));
      ExitCallParts(k, act);
      ExitReady(k.p);
      NextIsResumable(k, Call.Exit, act);
      var t := table.current;
      Come(act);
      Leave();
      Switch(t);
    }

    // ----- Fork

    /** The slot a fork has taken: on no queue, nobody's child, heading no ring. */
    ghost predicate Taken(n: nat)
      requires table.Wired()
      reads table, table.task, table.queues, table.kin, table.queues.objects, table.kin.objects
    {
      && n < NR_TASKS && n != table.current && table.current in table.kin.act
      && !table.kin.Queued(n) && table.kin.qs[n] == [] && !table.queues.Queued(n)
    }

    method FirstFree() returns (n: int)
      requires Whole()
      ensures n == if table.queues.qs[FREEQ] == [] then -1 else table.queues.qs[FREEQ][0]
    {
      var empty := table.queues.Empty(FREEQ);
      if empty {
        n := -1;
      } else {
        n := table.queues.First(FREEQ);
      }
    }

    /** The first free slot leaves freeq; descriptor and links of the running slot are copied over it. */
    method TakeSlot() returns (n: nat)
      requires Whole() && table.Valid() && table.queues.qs[FREEQ] != []
      modifies table.task, table.queues`qs, table.queues.objects, table.kin`act, table.kin.objects
      ensures Whole() && n == old(table.queues.qs)[FREEQ][0] && Taken(n) && table.kin.act == old(table.kin.act) - {n}
      ensures State() == old(State()).(p := StepForkNoFrames(old(State()).p))
    {
      ghost var m, c := hw.mm.m, hw.cpu.c;
      table.RunningIsUnqueued();
      table.FreeSlotIsBare();
      n := table.TakeSlot();
      assert hw.Valid() && hw.mm.m == m && hw.cpu.c == c;
    }

    /** The stack words of the slot, and private copies of the data pages. */
    method CopyProcess(n: nat) returns (ok: bool)
      requires Whole() && n < NR_TASKS && n != table.current && Copyable(hw.mm.m, table.current)
      modifies hw.mm.objects, hw.cpu.objects
      ensures Whole() && State().p == old(State()).p && State().c == CopySlot(old(State()).c, table.current, n)
      ensures Forked(State().m, ok) == ForkMem(old(State()).m, table.current, n)
    {
      ghost var p := table.Table();
      ok := hw.Copy(table.current, n);
      assert table.Wired() && table.Table() == p;
    }

    /** PID, parent and family of the child. */
    method Join(n: nat) returns (pid: int)
      requires Whole() && Taken(n)
      modifies table`lastPid, table.task, table.kin`qs, table.kin`act, table.kin.objects
      ensures Whole() && !table.queues.Queued(n) && table.kin.act == old(table.kin.act) + {n}
      ensures State() == old(State()).(p := Joined(old(State()).p, n)) && pid == State().p.lastPid
    {
      ghost var m, c := hw.mm.m, hw.cpu.c;
      pid := table.Join(n);
      assert hw.Valid() && hw.mm.m == m && hw.cpu.c == c;
    }

    method Plant(n: nat)
      requires Whole() && n < NR_TASKS && n != table.current
      requires hw.cpu.r.ebp.Val? && CanFork(table.current, hw.cpu.r.ebp.v)
      modifies hw.mm.objects, hw.cpu.objects
      ensures Whole()
      ensures var k := old(State()); State() == k.(c := PlantReturn(k.c, k.p.cur, n, k.c.r.ebp.v))
    {
      ghost var p := table.Table();
      hw.Plant(table.current, n);
      assert table.Wired() && table.Table() == p;
    }

    method Enqueue(n: nat)
      requires Whole() && n < NR_TASKS && !table.queues.Queued(n)
      modifies table.queues`qs, table.queues.objects
      ensures Whole() && State() == old(State()).(p := old(State()).p.(readyq := old(State()).p.readyq + [n]))
    {
      ghost var m, c := hw.mm.m, hw.cpu.c;
      table.Enqueue(n);
      assert hw.Valid() && hw.mm.m == m && hw.cpu.c == c;
    }

    /** sys_fork once the frames have been found, in the order of the code. */
    method Finish(n: nat)
      requires Whole() && Taken(n) && hw.cpu.r.ebp.Val? && CanFork(table.current, hw.cpu.r.ebp.v)
      modifies table`lastPid, table.task, table.queues`qs, table.queues.objects
      modifies table.kin`qs, table.kin`act, table.kin.objects
      modifies hw.mm.objects, hw.cpu.objects
      ensures Whole() && table.kin.act == old(table.kin.act) + {n}
      ensures var k := old(State()); State() == Kern(Linked(k.p, n), k.m,
        Result(PlantReturn(k.c, k.p.cur, n, k.c.r.ebp.v), Linked(k.p, n).lastPid))
    {
      var pid := Join(n);
      Plant(n);
      Publish(n, pid);
    }

    /** The child is ready and the parent has its PID. */
    method Publish(n: nat, pid: int)
      requires Whole() && n < NR_TASKS && !table.queues.Queued(n)
      modifies table.queues`qs, table.queues.objects, hw.mm.objects, hw.cpu.objects
      ensures Whole()
      ensures var k := old(State()); State() == Kern(k.p.(readyq := k.p.readyq + [n]), k.m, Result(k.c, pid))
    {
      Enqueue(n);
      Return(pid);
    }

    /** sys_fork once the slot has been taken, whether or not the frames are found. */
    method FillSlot(n: nat)
      requires Whole() && Taken(n) && Copyable(hw.mm.m, table.current)
      requires hw.cpu.r.ebp.Val? && CanFork(table.current, hw.cpu.r.ebp.v)
      modifies table`lastPid, table.task, table.queues`qs, table.queues.objects
      modifies table.kin`qs, table.kin`act, table.kin.objects
      modifies hw.mm.objects, hw.cpu.objects
      ensures Whole() && State() == Filled(old(State()), n)
      ensures ForkMem(old(State()).m, old(State()).p.cur, n).ok ==> table.kin.act == old(table.kin.act) + {n}
    {
      var ok := CopyProcess(n);
      if !ok {
        Return(-1);
      } else {
        Finish(n);
      }
    }

    /** sys_fork with a free slot, in the order of the code, whether or not the frames are found. */
    method ForkSlot()
      requires Whole() && table.Valid() && table.current != 0 && table.queues.qs[FREEQ] != []
      requires Copyable(hw.mm.m, table.current) && hw.cpu.r.ebp.Val? && CanFork(table.current, hw.cpu.r.ebp.v)
      modifies table`lastPid, table.task, table.queues`qs, table.queues.objects
      modifies table.kin`qs, table.kin`act, table.kin.objects
      modifies hw.mm.objects, hw.cpu.objects
      ensures var k, n := old(State()), old(table.queues.qs)[FREEQ][0];
        && Whole() && n < NR_TASKS && State() == ForkInto(k.p, k.m, k.c)
        && (ForkMem(k.m, k.p.cur, n).ok ==> table.kin.act == old(table.kin.act) - {n} + {n})
    {
      ForkIntoParts(State());
      var n := TakeSlot();
      FillSlot(n);
    }

    /** A fork from a reachable state: frames are always found. */
    method ForkFree(act: Act)
      requires Ready() && Possible(State(), Event.Kernel(Call.Fork, act)) && table.queues.qs[FREEQ] != []
      modifies table`lastPid, table.task, table.queues`qs, table.queues.objects
      modifies table.kin`qs, table.kin`act, table.kin.objects
      modifies hw.mm.objects, hw.cpu.objects
      ensures Whole() && State() == KStep(old(State()), Event.Kernel(Call.Fork, act)) && table.HeadsReady()
    {
      ForkCallParts(State(), act);
      Come(act);
      ForkSlot();
    }

    method ForkNone(act: Act)
      requires Ready() && Possible(State(), Event.Kernel(Call.Fork, act)) && table.queues.qs[FREEQ] == []
      modifies hw.mm.objects, hw.cpu.objects
      ensures Whole() && State() == KStep(old(State()), Event.Kernel(Call.Fork, act)) && table.HeadsReady()
    {
      NoSlotParts(State(), act);
      Come(act);
      Return(-1);
    }

    method ForkEither(act: Act)
      requires Ready() && Possible(State(), Event.Kernel(Call.Fork, act))
      modifies table`lastPid, table.task, table.queues`qs, table.queues.objects
      modifies table.kin`qs, table.kin`act, table.kin.objects
      modifies hw.mm.objects, hw.cpu.objects
      ensures Whole() && State() == KStep(old(State()), Event.Kernel(Call.Fork, act)) && table.HeadsReady()
    {
      var n := FirstFree();
      if n == -1 {
        ForkNone(act);
      } else {
        ForkFree(act);
      }
    }

    /** sys_fork: -1 without a free slot, else the child's PID. */
    method SysFork(act: Act)
      requires Ready() && Possible(State(), Event.Kernel(Call.Fork, act))
      modifies table`lastPid, table.task, table.queues`qs, table.queues.objects
      modifies table.kin`qs, table.kin`act, table.kin.objects
      modifies hw.mm.objects, hw.cpu.objects
      ensures Ready() && State() == KStep(old(State()), Event.Kernel(Call.Fork, act))
    {
      KStepKeeps(State(), Event.Kernel(Call.Fork, act));
      ForkEither(act);
    }

    // ----- User code

    method UserMemory(pg: nat, write: bool, off: nat, value: Byte) returns (b: Byte)
      requires Whole() && Coherent(hw.mm.m) && pg < TOTAL_PAGES
      requires Allowed(hw.mm.m, Through(hw.mm.m, pg, write, off, value))
      modifies hw.mm`m, hw.mm`tlb, hw.mm.phys
      ensures Whole() && var k := old(State());
        State() == k.(m := UserAccess(k.m, Through(k.m, pg, write, off, value)))
      ensures b == ByteSeen(State().m, pg, off) && (write ==> b == value)
    {
      ghost var p := table.Table();
      b := hw.mm.UserByte(pg, write, off, value);
      assert table.Wired() && table.Table() == p;
    }

    /** User code reads or writes one byte, by whichever translation the processor picks. */
    method UserByte(pg: nat, write: bool, off: nat, value: Byte) returns (b: Byte)
      requires Ready() && table.current != 0 && pg < TOTAL_PAGES
      requires Allowed(hw.mm.m, Through(hw.mm.m, pg, write, off, value))
      modifies hw.mm`m, hw.mm`tlb, hw.mm.phys
      ensures Ready() && var k := old(State()); State() == KStep(k, Event.User(Through(k.m, pg, write, off, value)))
      ensures b == ByteSeen(State().m, pg, off) && (write ==> b == value)
    {
      KStepKeeps(State(), Event.User(Through(hw.mm.m, pg, write, off, value)));
      b := UserMemory(pg, write, off, value);
    }

    // ----- Whole runs

    /** One event of the machine. */
    method Do(e: Event)
      requires Ready() && Possible(State(), e)
      modifies table, table.task, table.queues, table.queues.objects, table.kin, table.kin.objects
      modifies hw.mm.objects, hw.cpu.objects
      ensures Ready() && State() == KStep(old(State()), e)
    {
      match e
      case User(a) =>
        OneTranslation(State().m, a);
        var b := UserByte(a.page, a.write, a.off, a.value);
      case Kernel(call, act) => DoCall(call, act);
    }

    /** One tick or system call. */
    method DoCall(call: Call, act: Act)
      requires Ready() && Possible(State(), Event.Kernel(call, act))
      modifies table, table.task, table.queues, table.queues.objects, table.kin, table.kin.objects
      modifies hw.mm.objects, hw.cpu.objects
      ensures Ready() && State() == KStep(old(State()), Event.Kernel(call, act))
    {
      match call
      case Tick => Tick(act);
      case Fork => SysFork(act);
      case Exit => SysExit(act);
      case Block => SysBlock(act);
      case Unblock(pid) => SysUnblock(pid, act);
      case Store => assert false;
    }

    /** Any run of the machine, on the real data structures. */
    method RunAll(es: seq<Event>)
      requires Ready() && AllPossible(State(), es)
      modifies table, table.task, table.queues, table.queues.objects, table.kin, table.kin.objects
      modifies hw.mm.objects, hw.cpu.objects
      ensures Ready() && State() == KRun(old(State()), es)
      decreases |es|
    {
      if es != [] {
        KStepKeeps(State(), es[0]);
        Do(es[0]);
        RunAll(es[1..]);
      }
    }
  }
}
