/**
 The whole kernel as one state machine: process table, memory and stacks move together in every tick,
 system call and user access (sys.c, sched.c, mm.c, entry.S).
 */
module System {
  import opened Config
  import opened Processes
  import opened Memory
  import opened Stacks
  import opened Runs

  datatype Kern = Kern(p: Proc, m: Mem, c: Cpu)

  /** What the running slot has done to its own kernel stack and registers when the kernel code acts. */
  datatype Act = Act(words: seq<Word>, r: Regs)

  datatype Event = Kernel(call: Call, act: Act) | User(access: Access)

  /** The slots that hold a process. */
  function LiveSet(p: Proc): set<nat> {
    set s: nat | 1 <= s < NR_TASKS && Live(p, s)
  }

  // ----- The invariant

  /** Every slot that can be dispatched has a stack that can be resumed. */
  ghost predicate StackInv(p: Proc, c: Cpu) {
    && StackSizes(c) && p.cur < NR_TASKS
    && (forall s :: (s == 0 || Live(p, s)) && s != p.cur ==> Resumable(c, s))
    && Base(p.cur) < c.esp0 <= Base(p.cur) + KERNEL_STACK_SIZE
  }

  ghost predicate KInv(k: Kern) {
    && Inv(k.p) && MemInv(k.m, LiveSet(k.p)) && k.m.cr3 == k.p.cur
    && StackInv(k.p, k.c)
  }

  // ----- Steps

  /** Idle makes no calls, user code touches memory only as the processor lets it, and stacks do not overflow. */
  predicate Possible(k: Kern, e: Event)
    requires KInv(k)
  {
    match e
    case User(a) => k.p.cur != 0 && Allowed(k.m, a)
    case Kernel(call, act) =>
      && Enabled(k.p, call) && !call.Store? && |act.words| == KERNEL_STACK_SIZE
      && (Switches(k.p, call) ==> CanSwitch(k.p.cur, act.r))
      && (call.Fork? ==> act.r.ebp.Val? && CanFork(k.p.cur, act.r.ebp.v))
  }

  function Enter(c: Cpu, s: nat, act: Act): (r: Cpu)
    requires StackSizes(c) && s < NR_TASKS && |act.words| == KERNEL_STACK_SIZE
    ensures StackSizes(r)
  {
    c.(stack := c.stack[s := act.words], r := act.r)
  }

  function Result(c: Cpu, v: int): Cpu { c.(r := c.r.(eax := Val(v))) }

  /** sys_fork with a free slot, whether or not the frames are found. */
  function ForkInto(p: Proc, m: Mem, c: Cpu): (r: Kern)
    requires p.cur < NR_TASKS == |p.task| == |p.childs| && p.freeq != [] && p.freeq[0] < NR_TASKS
    requires Sizes(m) && StackSizes(c) && c.r.ebp.Val?
    ensures Sizes(r.m) && StackSizes(r.c)
  {
    var n := p.freeq[0];
    var f := ForkMem(m, p.cur, n);
    if !f.ok then
      Kern(StepForkNoFrames(p), f.m, Result(CopySlot(c, p.cur, n), -1))
    else
      Kern(StepFork(p), f.m, Result(ForkStack(c, p.cur, n, c.r.ebp.v), StepFork(p).lastPid))
  }

  function KFork(k: Kern, act: Act): (r: Kern)
    requires KInv(k) && Possible(k, Kernel(Fork, act))
    ensures Sizes(r.m) && StackSizes(r.c)
  {
    var c := Enter(k.c, k.p.cur, act);
    if k.p.freeq == [] then k.(c := Result(c, -1)) else
    ForkPre(k.p);
    ForkInto(k.p, k.m, c)
  }

  /** sched_next_rr and task_switch, once the queues have been updated to `p`. */
  function KSwitch(p: Proc, m: Mem, c: Cpu, from: nat): (r: Kern)
    requires Sizes(m) && StackSizes(c) && from < NR_TASKS && p.cur < NR_TASKS
    ensures Sizes(r.m) && StackSizes(r.c)
  {
    Kern(p, SetCr3(m, p.cur), SwitchTo(c, from, p.cur))
  }

  function UnblockResult(p: Proc, pid: int): int
    requires Inv(p)
  {
    ChildSlots(p, p.cur);
    if FindPid(p.task, p.childs[p.cur], pid) == NOBODY then -1 else 0
  }

  function KStep(k: Kern, e: Event): (r: Kern)
    requires KInv(k)
    ensures Sizes(r.m) && StackSizes(r.c)
  {
    if !Possible(k, e) then k else
    match e
    case User(a) => k.(m := UserAccess(k.m, a))
    case Kernel(call, act) =>
      if call.Fork? then KFork(k, act) else
      StepKeeps(k.p, call);
      var p := Step(k.p, call);
      var c := Enter(k.c, k.p.cur, act);
      if call.Exit? then KSwitch(p, FreePages(k.m, k.p.cur, NUM_PAG_DATA), c, k.p.cur)
      else if Switches(k.p, call) then KSwitch(p, k.m, c, k.p.cur)
      else if call.Unblock? then Kern(p, k.m, Result(c, UnblockResult(k.p, call.pid)))
      else Kern(p, k.m, c)
  }

  // ----- The invariant is kept

  lemma LiveBound(p: Proc)
    requires Inv(p) && p.freeq != []
    ensures |LiveSet(p)| < NR_TASKS - 1
  {
    ForkPre(p);
    OneSlotShort(LiveSet(p), NR_TASKS, p.freeq[0]);
  }

  lemma OneSlotShort(live: set<nat>, limit: nat, free: nat)
    requires 1 <= free < limit && free !in live && forall s :: s in live ==> 1 <= s < limit
    ensures |live| < limit - 1
  {
    SubsetSize(live, SlotsBelow(limit) - {free});
  }

  /** The slots a process can have, up to a limit. */
  function SlotsBelow(n: nat): (r: set<nat>)
    ensures forall s :: s in r <==> 1 <= s < n
    ensures n > 0 ==> |r| == n - 1
  {
    if n <= 1 then {} else SlotsBelow(n - 1) + {n - 1}
  }

  lemma {:induction false} SubsetSize(a: set<nat>, b: set<nat>)
    requires a <= b
    ensures |a| <= |b|
    decreases a
  {
    if a != {} {
      var x :| x in a;
      SubsetSize(a - {x}, b - {x});
    }
  }

  /** Fork always finds its frames: the path that gives them back and loses the slot is dead. */
  lemma ForkNeverRunsOut(k: Kern)
    requires KInv(k) && k.p.cur != 0 && k.p.freeq != []
    ensures (ForkPre(k.p); ForkMem(k.m, k.p.cur, k.p.freeq[0]).ok)
  {
    ForkMemory(k);
  }

  /** The memory a fork leaves, found its frames or not. */
  lemma ForkMemOf(k: Kern, act: Act)
    requires KInv(k) && Possible(k, Kernel(Fork, act)) && k.p.freeq != []
    ensures (ForkPre(k.p); KFork(k, act).m == ForkMem(k.m, k.p.cur, k.p.freeq[0]).m)
  {
  }

  /** Slots that are neither running nor dying are left alone by the kernel. */
  ghost predicate OthersKept(p: Proc, c: Cpu, d: Cpu, n: int)
    requires StackSizes(c) && StackSizes(d)
  {
    forall s :: 0 <= s < NR_TASKS && s != p.cur && s != n ==> d.stack[s] == c.stack[s] && d.kesp[s] == c.kesp[s]
  }

  lemma StacksAfter(p: Proc, c: Cpu, q: Proc, d: Cpu, n: int)
    requires StackInv(p, c) && StackSizes(d) && OthersKept(p, c, d, n)
    requires forall s :: Live(q, s) ==> Live(p, s) || s == n
    requires q.cur != p.cur ==> Resumable(d, p.cur)
    requires 0 <= n < NR_TASKS ==> Resumable(d, n)
    requires q.cur < NR_TASKS && Base(q.cur) < d.esp0 <= Base(q.cur) + KERNEL_STACK_SIZE
    ensures StackInv(q, d)
  {
    forall s | (s == 0 || Live(q, s)) && s != q.cur ensures Resumable(d, s) {
      if s != p.cur && s != n { ResumableSame(c, d, s); }
    }
  }

  /** What a fork does to the set of processes. */
  lemma ForkLives(p: Proc)
    requires Inv(p) && p.cur != 0 && p.freeq != []
    ensures var n, live := p.freeq[0], LiveSet(p);
      && n < NR_TASKS && p.cur in live && n !in live && |live| < NR_TASKS - 1
      && LiveSet(Step(p, Fork)) == live + {n}
  {
    ForkPre(p);
    LiveBound(p);
    ForkParts(p);
    assert LiveSet(Step(p, Fork)) == LiveSet(p) + {p.freeq[0]};
  }

  lemma ForkMemory(k: Kern)
    requires KInv(k) && k.p.cur != 0 && k.p.freeq != []
    ensures (ForkPre(k.p); var f := ForkMem(k.m, k.p.cur, k.p.freeq[0]);
      f.ok && MemInv(f.m, LiveSet(Step(k.p, Fork))) && f.m.cr3 == k.p.cur && f.m.tlb == {})
  {
    ForkLives(k.p);
    ForkMemKeeps(k.m, LiveSet(k.p), k.p.cur, k.p.freeq[0]);
  }

  lemma ForkStacks(p: Proc, c: Cpu, act: Act)
    requires Inv(p) && StackInv(p, c) && p.cur != 0 && p.freeq != []
    requires |act.words| == KERNEL_STACK_SIZE && act.r.ebp.Val? && CanFork(p.cur, act.r.ebp.v)
    ensures (ForkPre(p);
      var d := ForkStack(Enter(c, p.cur, act), p.cur, p.freeq[0], act.r.ebp.v);
      StackInv(Step(p, Fork), d) && OthersKept(p, c, d, p.freeq[0]) && d.stack[p.cur] == act.words)
  {
    ForkPre(p);
    ForkParts(p);
    var d := ForkStack(Enter(c, p.cur, act), p.cur, p.freeq[0], act.r.ebp.v);
    ForkWrites(Enter(c, p.cur, act), p.cur, p.freeq[0], act.r.ebp.v);
    StacksAfter(p, c, Step(p, Fork), d, p.freeq[0]);
  }

  lemma ResultKeeps(p: Proc, c: Cpu, v: int)
    requires StackInv(p, c)
    ensures StackInv(p, Result(c, v))
  {
    StacksAfter(p, c, p, Result(c, v), -1);
  }

  lemma KForkKeeps(k: Kern, act: Act)
    requires KInv(k) && Possible(k, Kernel(Fork, act)) && k.p.freeq != []
    ensures KFork(k, act).p == Step(k.p, Fork) && KInv(KFork(k, act))
  {
    ForkPre(k.p);
    ForkMemory(k);
    ForkKeeps(k.p);
    ForkStacks(k.p, k.c, act);
    var d := ForkStack(Enter(k.c, k.p.cur, act), k.p.cur, k.p.freeq[0], act.r.ebp.v);
    ResultKeeps(Step(k.p, Fork), d, Step(k.p, Fork).lastPid);
  }

  lemma SwitchStacks(p: Proc, c: Cpu, q: Proc, act: Act)
    requires StackInv(p, c) && q.cur < NR_TASKS
    requires |act.words| == KERNEL_STACK_SIZE && CanSwitch(p.cur, act.r)
    requires q.cur != p.cur && forall s :: Live(q, s) ==> Live(p, s)
    ensures var d := SwitchTo(Enter(c, p.cur, act), p.cur, q.cur);
      StackInv(q, d) && OthersKept(p, c, d, -1)
  {
    var d := SwitchTo(Enter(c, p.cur, act), p.cur, q.cur);
    SwitchWrites(Enter(c, p.cur, act), p.cur, q.cur);
    StacksAfter(p, c, q, d, -1);
  }

  lemma EnterStacks(p: Proc, c: Cpu, q: Proc, act: Act)
    requires StackInv(p, c) && |act.words| == KERNEL_STACK_SIZE
    requires q.cur == p.cur && forall s :: Live(q, s) ==> Live(p, s)
    ensures StackInv(q, Enter(c, p.cur, act))
  {
    StacksAfter(p, c, q, Enter(c, p.cur, act), -1);
  }

  /** What an exit does to the set of processes. */
  lemma ExitLives(p: Proc)
    requires Inv(p) && p.cur != 0
    ensures Step(p, Exit).cur < NR_TASKS && p.cur in LiveSet(p)
    ensures LiveSet(Step(p, Exit)) == LiveSet(p) - {p.cur}
  {
    ExitParts(p);
    assert LiveSet(Step(p, Exit)) == LiveSet(p) - {p.cur};
  }

  lemma KExitKeeps(k: Kern, act: Act)
    requires KInv(k) && Possible(k, Kernel(Exit, act))
    ensures KInv(KStep(k, Kernel(Exit, act)))
  {
    ExitKeeps(k.p);
    ExitParts(k.p);
    SwitchesToAnother(k.p, Exit);
    ExitLives(k.p);
    ExitMemKeeps(k.m, LiveSet(k.p), k.p.cur, Step(k.p, Exit).cur);
    SwitchStacks(k.p, k.c, Step(k.p, Exit), act);
  }

  lemma KQuietKeeps(k: Kern, call: Call, act: Act)
    requires KInv(k) && Possible(k, Kernel(call, act)) && !call.Fork? && !call.Exit?
    ensures KInv(KStep(k, Kernel(call, act)))
  {
    var q := Step(k.p, call);
    StepKeeps(k.p, call);
    LiveStep(k.p, call);
    SwitchesToAnother(k.p, call);
    assert LiveSet(q) == LiveSet(k.p);
    if Switches(k.p, call) {
      SwitchMemKeeps(k.m, LiveSet(k.p), q.cur);
      SwitchStacks(k.p, k.c, q, act);
    } else {
      EnterStacks(k.p, k.c, q, act);
      if call.Unblock? { ResultKeeps(q, Enter(k.c, k.p.cur, act), UnblockResult(k.p, call.pid)); }
    }
  }

  /** Every event keeps the invariant of table, memory and stacks together. */
  lemma KStepKeeps(k: Kern, e: Event)
    requires KInv(k)
    ensures KInv(KStep(k, e))
  {
    if Possible(k, e) {
      match e
      case User(a) => AccessKeeps(k.m, LiveSet(k.p), a);
      case Kernel(call, act) =>
        if call.Fork? {
          if k.p.freeq == [] {
            EnterStacks(k.p, k.c, k.p, act);
            ResultKeeps(k.p, Enter(k.c, k.p.cur, act), -1);
          } else {
            KForkKeeps(k, act);
          }
        } else if call.Exit? {
          KExitKeeps(k, act);
        } else {
          KQuietKeeps(k, call, act);
        }
    }
  }

  /** What an event is to the process table; an event that cannot happen is no step at all. */
  function CallOf(k: Kern, e: Event): Call
    requires KInv(k)
  {
    if Possible(k, e) && e.Kernel? then e.call else Store
  }

  lemma ForkProjects(k: Kern, act: Act)
    requires KInv(k) && Possible(k, Kernel(Fork, act))
    ensures KFork(k, act).p == Step(k.p, Fork)
  {
    ForkPre(k.p);
    if k.p.freeq != [] { ForkNeverRunsOut(k); }
  }

  lemma QuietProjects(k: Kern, call: Call, act: Act)
    requires KInv(k) && Possible(k, Kernel(call, act)) && !call.Fork?
    ensures KStep(k, Kernel(call, act)).p == Step(k.p, call)
  {
  }

  /** The process table of the kernel steps as the table alone does: fork never takes its failing path. */
  lemma Projects(k: Kern, e: Event)
    requires KInv(k)
    ensures KStep(k, e).p == Step(k.p, CallOf(k, e))
  {
    if !Possible(k, e) || e.User? {
      assert CallOf(k, e) == Store && KStep(k, e).p == k.p;
    } else if e.call.Fork? {
      ForkProjects(k, e.act);
    } else {
      QuietProjects(k, e.call, e.act);
    }
  }

  /** When the running slot changes, the step was a task_switch from the one to the other. */
  lemma StepIsSwitch(k: Kern, e: Event)
    requires KInv(k) && KStep(k, e).p.cur != k.p.cur
    ensures Possible(k, e) && e.Kernel? && Switches(k.p, e.call) && CanSwitch(k.p.cur, e.act.r)
    ensures var t := KStep(k, e).p.cur;
      t < NR_TASKS && KStep(k, e).c == SwitchTo(Enter(k.c, k.p.cur, e.act), k.p.cur, t)
  {
    Projects(k, e);
    SwitchesToAnother(k.p, CallOf(k, e));
    StepKeeps(k.p, CallOf(k, e));
  }

  /** Otherwise it wrote at most the running slot's stack and, in a fork, the child's. */
  lemma StepIsNoSwitch(k: Kern, e: Event, x: nat)
    requires KInv(k) && KStep(k, e).p.cur == k.p.cur && x < NR_TASKS && x != k.p.cur && x !in k.p.freeq
    ensures KStep(k, e).c.stack[x] == k.c.stack[x] && KStep(k, e).c.kesp[x] == k.c.kesp[x]
  {
    if Possible(k, e) && e.Kernel? {
      if e.call.Fork? {
        if k.p.freeq != [] { ForkKeepsOthers(k, e.act, x); }
      } else {
        QuietProjects(k, e.call, e.act);
        SwitchesToAnother(k.p, e.call);
      }
    }
  }

  lemma ForkKeepsOthers(k: Kern, act: Act, x: nat)
    requires KInv(k) && Possible(k, Kernel(Fork, act)) && k.p.freeq != []
    requires x < NR_TASKS && x != k.p.cur && x !in k.p.freeq
    ensures KFork(k, act).c.stack[x] == k.c.stack[x] && KFork(k, act).c.kesp[x] == k.c.kesp[x]
  {
    ForkPre(k.p);
    assert k.p.freeq[0] in k.p.freeq;
    ForkWrites(Enter(k.c, k.p.cur, act), k.p.cur, k.p.freeq[0], act.r.ebp.v);
  }
}
