/**
 The context switch and the child's stack, push by push and pop by pop, on the stack arrays:
 task_switch (entry.S), inner_task_switch (sched.c) and the end of sys_fork (sys.c).
 */
module Switching {
  import opened Config
  import opened SlotSeqs
  import opened Stacks

  class Processor {
    /** The stack of each task_union, and the kernel_esp field of each task. */
    const stack: seq<array<Word>>
    const kernelEsp: array<int>
    var r: Regs
    /** tss.esp0 */
    var esp0: int
    /** The abstract stacks and registers. */
    ghost var c: Cpu

    /** Everything a switch may write. */
    ghost const objects: set<object>

    constructor (stack: seq<array<Word>>, kernelEsp: array<int>, r: Regs)
      requires kernelEsp.Length == NR_TASKS && |stack| == NR_TASKS && NoDup(stack)
      requires forall s :: 0 <= s < NR_TASKS ==> stack[s].Length == KERNEL_STACK_SIZE
      ensures this.stack == stack && this.kernelEsp == kernelEsp && this.r == r
      ensures Valid() && objects == {this, kernelEsp} + set t | t in stack
    {
      this.stack, this.kernelEsp, this.r, esp0 := stack, kernelEsp, r, 0;
      objects := {this, kernelEsp} + set t | t in stack;
      ghost var words: seq<seq<Word>> := [];
      while |words| < NR_TASKS
        invariant |words| <= NR_TASKS && forall s :: 0 <= s < |words| ==> words[s] == stack[s][..]
      {
        words := words + [stack[|words|][..]];
      }
      c := Cpu(words, kernelEsp[..], r, 0);
    }

    ghost predicate Layout() {
      && kernelEsp.Length == NR_TASKS && |stack| == NR_TASKS && NoDup(stack)
      && (forall s :: 0 <= s < NR_TASKS ==> stack[s].Length == KERNEL_STACK_SIZE && stack[s] in objects)
      && this in objects && kernelEsp in objects
    }

    ghost predicate Valid()
      reads this, objects
    {
      && Layout() && StackSizes(c)
      && c.kesp == kernelEsp[..] && c.r == r && c.esp0 == esp0
      && (forall s :: 0 <= s < NR_TASKS ==> c.stack[s] == stack[s][..])
    }

    method PushWord(s: nat, w: Word)
      requires Valid() && s < NR_TASKS && OnStack(s, r.esp - 1)
      modifies this`r, this`c, stack[s]
      ensures Valid() && c == Push(old(c), s, w)
    {
      r := r.(esp := r.esp - 1);
      stack[s][r.esp - Base(s)] := w;
      c := Push(c, s, w);
    }

    method PopWord(s: nat) returns (w: Word)
      requires Valid() && s < NR_TASKS && OnStack(s, r.esp)
      modifies this`r, this`c
      ensures Valid() && w == Get(old(c), s, old(r.esp)) && c == old(c).(r := old(c.r).(esp := old(r.esp) + 1))
    {
      w := stack[s][r.esp - Base(s)];
      r := r.(esp := r.esp + 1);
      c := c.(r := r);
    }

    /** task_switch up to its call */
    method PushSwitchFrame(s: nat)
      requires Valid() && s < NR_TASKS && CanSwitch(s, r)
      modifies this`r, this`c, stack[s]
      ensures Valid() && c == PushFrame(old(c), s)
    {
      PushWord(s, r.ebp);
      r := r.(ebp := Val(r.esp));
      c := c.(r := r);
      PushWord(s, r.edi);
      PushWord(s, r.esi);
      PushWord(s, r.ebx);
      PushWord(s, stack[s][r.ebp.v + 2 - Base(s)]);
    }

    /** task_switch down to the saving of kernel_esp in inner_task_switch. */
    method Save(s: nat)
      requires Valid() && s < NR_TASKS && CanSwitch(s, r)
      modifies this`r, this`c, kernelEsp, stack[s]
      ensures Valid() && c == SaveContext(old(c), s)
    {
      PushSwitchFrame(s);
      PushWord(s, Code(AfterInnerSwitch));
      PushWord(s, r.ebp);
      r := r.(ebp := Val(r.esp));
      kernelEsp[s] := r.ebp.v;
      c := c.(r := r, kesp := c.kesp[s := r.ebp.v]);
    }

    method PopThree(t: nat) returns (x: Word, y: Word, z: Word)
      requires Valid() && t < NR_TASKS && OnStack(t, r.esp) && OnStack(t, r.esp + 2)
      modifies this`r, this`c
      ensures Valid() && c == old(c).(r := old(c.r).(esp := old(r.esp) + 3))
      ensures var e := old(r.esp); x == Get(old(c), t, e) && y == Get(old(c), t, e + 1) && z == Get(old(c), t, e + 2)
    {
      x := PopWord(t);
      y := PopWord(t);
      z := PopWord(t);
    }

    /** The tail of task_switch. */
    method PopSwitchFrame(t: nat)
      requires Valid() && t < NR_TASKS && OnStack(t, r.esp) && OnStack(t, r.esp + 5)
      modifies this`r, this`c
      ensures Valid() && c == PopFrame(old(c), t)
    {
      var argument, ebx, esi := PopThree(t);
      var edi, ebp, eip := PopThree(t);
      r := r.(ebx := ebx, esi := esi, edi := edi, ebp := ebp, eip := eip);
      c := c.(r := r);
    }

    /** The rest of inner_task_switch on the stack of `t`, and of task_switch if it returns there. */
    method Restore(t: nat)
      requires Valid() && t < NR_TASKS && Resumable(c, t)
      modifies this`r, this`c
      ensures Valid() && c == Resume(old(c), t)
    {
      r := r.(esp := kernelEsp[t]);
      c := c.(r := r);
      PopReturn(t);
      if r.eip == Code(AfterInnerSwitch) {
        PopSwitchFrame(t);
      }
    }

    /** popl %ebp and ret */
    method PopReturn(t: nat)
      requires Valid() && t < NR_TASKS && OnStack(t, r.esp) && OnStack(t, r.esp + 1)
      modifies this`r, this`c
      ensures Valid()
      ensures var e := old(r.esp);
        c == old(c).(r := old(c.r).(ebp := Get(old(c), t, e), eip := Get(old(c), t, e + 1), esp := e + 2))
    {
      var ebp := PopWord(t);
      var eip := PopWord(t);
      r := r.(ebp := ebp, eip := eip);
      c := c.(r := r);
    }

    /** task_switch from the running slot `s` to `t`. */
    method TaskSwitch(s: nat, t: nat)
      requires Valid() && s < NR_TASKS && t < NR_TASKS && s != t && CanSwitch(s, r) && Resumable(c, t)
      modifies this`r, this`c, this`esp0, kernelEsp, stack[s]
      ensures Valid() && c == SwitchTo(old(c), s, t)
    {
      Saved(c, s);
      Save(s);
      ResumableSame(old(c), c, t);
      Restore(t);
      esp0 := Base(t) + KERNEL_STACK_SIZE - 1;
      c := c.(esp0 := esp0);
    }

    /** copy_data(current(), new_s, 4096), for the stack words and kernel_esp */
    method CopyStack(s: nat, n: nat)
      requires Valid() && s < NR_TASKS && n < NR_TASKS && s != n
      modifies this`c, kernelEsp, stack[n]
      ensures Valid() && c == CopySlot(old(c), s, n)
    {
      for i := 0 to KERNEL_STACK_SIZE
        modifies stack[n]
        invariant forall k :: 0 <= k < i ==> stack[n][k] == old(stack[s][k])
        invariant forall k :: 0 <= k < KERNEL_STACK_SIZE ==> stack[s][k] == old(stack[s][k])
      {
        stack[n][i] := stack[s][i];
      }
      kernelEsp[n] := kernelEsp[s];
      assert stack[n][..] == old(stack[s][..]);
      c := CopySlot(c, s, n);
    }

    /** The end of sys_fork: the two words planted in the child's stack, and its kernel_esp. */
    method PlantChildReturn(s: nat, n: nat)
      requires Valid() && s < NR_TASKS && n < NR_TASKS && s != n && r.ebp.Val? && CanFork(s, r.ebp.v)
      modifies this`c, kernelEsp, stack[n]
      ensures Valid() && c == PlantReturn(old(c), s, n, old(r.ebp.v))
    {
      var diff := Base(s) + KERNEL_STACK_SIZE - 1 - (r.ebp.v - 1);
      kernelEsp[n] := Base(n) + KERNEL_STACK_SIZE - 1 - diff;
      stack[n][KERNEL_STACK_SIZE - diff] := Code(RetFromFork);
      stack[n][KERNEL_STACK_SIZE - diff - 1] := Val(0);
      c := PlantReturn(c, s, n, r.ebp.v);
    }

    /** The stack part of init_idle: idle's first dispatch pops a frame pointer and enters cpu_idle. */
    method InitIdleStack()
      requires Valid()
      modifies this`c, kernelEsp, stack[0]
      ensures Valid()
      ensures var top := KERNEL_STACK_SIZE - 1;
        c == old(c).(kesp := old(c.kesp)[0 := Base(0) + top - 1],
          stack := old(c.stack)[0 := old(c.stack)[0][top := Code(CpuIdle)][top - 1 := Val(Base(0) + top)]])
    {
      var top := KERNEL_STACK_SIZE - 1;
      kernelEsp[0] := Base(0) + top - 1;
      stack[0][top] := Code(CpuIdle);
      stack[0][top - 1] := Val(Base(0) + top);
      c := c.(kesp := c.kesp[0 := Base(0) + top - 1],
        stack := c.stack[0 := c.stack[0][top := Code(CpuIdle)][top - 1 := Val(Base(0) + top)]]);
    }

    /** The stack part of init_task1, and the stack the first interrupt of user code will use. */
    method InitFirstStack()
      requires Valid()
      modifies this`c, this`esp0, kernelEsp
      ensures Valid()
      ensures c == old(c).(kesp := old(c.kesp)[1 := Base(1) + KERNEL_STACK_SIZE - 2],
                           esp0 := Base(1) + KERNEL_STACK_SIZE)
    {
      kernelEsp[1] := Base(1) + KERNEL_STACK_SIZE - 2;
      esp0 := Base(1) + KERNEL_STACK_SIZE;
      c := c.(kesp := c.kesp[1 := Base(1) + KERNEL_STACK_SIZE - 2], esp0 := esp0);
    }

    /** The running process, or the kernel for it, has used its stack and registers as it likes. */
    method Overwrite(s: nat, words: seq<Word>, regs: Regs)
      requires Valid() && s < NR_TASKS && |words| == KERNEL_STACK_SIZE
      modifies this`r, this`c, stack[s]
      ensures Valid() && c == old(c).(stack := old(c.stack)[s := words], r := regs)
    {
      for i := 0 to KERNEL_STACK_SIZE
        modifies stack[s]
        invariant forall k :: 0 <= k < i ==> stack[s][k] == words[k]
      {
        stack[s][i] := words[i];
      }
      assert stack[s][..] == words;
      r := regs;
      c := c.(stack := c.stack[s := words], r := regs);
    }

    /** A system call leaves its result in eax. */
    method ReturnValue(v: int)
      requires Valid()
      modifies this`r, this`c
      ensures Valid() && c == old(c).(r := old(c.r).(eax := Val(v)))
    {
      r := r.(eax := Val(v));
      c := c.(r := r);
    }
  }
}
