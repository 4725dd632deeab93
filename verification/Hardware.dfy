/** The parts of the system calls that work on memory and stacks, on the real arrays. */
module KernelHardware {
  import opened Config
  import opened Memory
  import opened MemoryBoot
  import opened UserImage
  import opened Stacks
  import opened System
  import opened KernelRuns
  import Paging
  import Switching

  class Hardware {
    const mm: Paging.Machine
    const cpu: Switching.Processor

    constructor (mm: Paging.Machine, cpu: Switching.Processor)
      ensures this.mm == mm && this.cpu == cpu
    {
      this.mm, this.cpu := mm, cpu;
    }

    ghost predicate Valid()
      reads mm, cpu, mm.objects, cpu.objects
    {
      mm.Valid() && cpu.Valid() && mm.objects !! cpu.objects
    }

    /** init_mm, the memory and stack parts of init_idle and init_task1, and the copy of the user's image. */
    method Boot(start: nat, size: nat)
      requires mm.Layout() && cpu.Valid() && mm.objects !! cpu.objects && Fits(start, size)
      modifies mm.objects, cpu.objects
      ensures Valid() && cpu.c == BootCpu(old(cpu.c))
      ensures mm.m == BootMem(mm.m.phys).(tlb := mm.m.tlb) && BootTlb(mm.m.phys, mm.m.tlb)
      ensures FirstTable(mm.m.pt[1]) && mm.m.phys == Loaded(mm.m.pt[1], old(mm.phys[..]), start, size)
    {
      mm.BootMemory();
      cpu.InitIdleStack();
      cpu.InitFirstStack();
      mm.LoadImage(start, size);
    }

    /** task_switch: first the directory, then the stack. */
    method Switch(from: nat, next: nat)
      requires Valid() && from < NR_TASKS && next < NR_TASKS && from != next
      requires CanSwitch(from, cpu.r) && Resumable(cpu.c, next)
      modifies mm.objects, cpu.objects
      ensures Valid() && mm.m == SetCr3(old(mm.m), next) && cpu.c == SwitchTo(old(cpu.c), from, next)
    {
      mm.LoadCr3(next);
      cpu.TaskSwitch(from, next);
    }

    /** free_user_pages */
    method FreeFrames(t: nat)
      requires Valid() && t < NR_TASKS
      modifies mm.objects, cpu.objects
      ensures Valid() && mm.m == FreePages(old(mm.m), t, NUM_PAG_DATA) && cpu.c == old(cpu.c)
    {
      mm.FreeUserPages(t, NUM_PAG_DATA);
    }

    /** The stack words of the slot copied by sys_fork, then the page tables and frames. */
    method Copy(s: nat, n: nat) returns (ok: bool)
      requires Valid() && s < NR_TASKS && n < NR_TASKS && s != n && Copyable(mm.m, s)
      modifies mm.objects, cpu.objects
      ensures Valid() && Forked(mm.m, ok) == ForkMem(old(mm.m), s, n) && cpu.c == CopySlot(old(cpu.c), s, n)
    {
      cpu.CopyStack(s, n);
      ok := mm.ForkMemory(s, n);
    }

    /** The return path planted in the child's stack. */
    method Plant(s: nat, n: nat)
      requires Valid() && s < NR_TASKS && n < NR_TASKS && s != n && cpu.r.ebp.Val? && CanFork(s, cpu.r.ebp.v)
      modifies mm.objects, cpu.objects
      ensures Valid() && mm.m == old(mm.m) && cpu.c == PlantReturn(old(cpu.c), s, n, old(cpu.r.ebp.v))
    {
      cpu.PlantChildReturn(s, n);
    }

    /** The running slot comes to its call with this stack and these registers. */
    method Arrive(s: nat, act: Act)
      requires Valid() && s < NR_TASKS && |act.words| == KERNEL_STACK_SIZE
      modifies mm.objects, cpu.objects
      ensures Valid() && mm.m == old(mm.m) && cpu.c == Enter(old(cpu.c), s, act)
    {
      cpu.Overwrite(s, act.words, act.r);
    }

    method Return(v: int)
      requires Valid()
      modifies mm.objects, cpu.objects
      ensures Valid() && mm.m == old(mm.m) && cpu.c == Result(old(cpu.c), v)
    {
      cpu.ReturnValue(v);
    }
  }
}
