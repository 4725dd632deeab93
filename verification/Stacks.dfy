/**
 Kernel stacks and the context switch: entry.S, inner_task_switch, ret_from_fork and the stack that
 sys_fork builds. Addresses count words from the start of task[]: stack[i] of slot s is
 at s * KERNEL_STACK_SIZE + i.
 */
module Stacks {
  import opened Config

  /** The code addresses that matter: the three a saved stack can resume at, and all others. */
  datatype Label = AfterInnerSwitch | RetFromFork | CpuIdle | Elsewhere(n: int)

  datatype Word = Val(v: int) | Code(l: Label)

  datatype Regs = Regs(eax: Word, ebx: Word, esi: Word, edi: Word, ebp: Word, esp: int, eip: Word)

  /** `kesp` is the kernel_esp field of each slot, `esp0` the stack the next entry from user mode starts on. */
  datatype Cpu = Cpu(stack: seq<seq<Word>>, kesp: seq<int>, r: Regs, esp0: int)

  /** The words of a slot that overlap its task_struct. */
  const TASK_WORDS: nat := 13

  function Base(s: nat): int { s * KERNEL_STACK_SIZE }

  ghost predicate StackSizes(c: Cpu) {
    && |c.stack| == NR_TASKS && |c.kesp| == NR_TASKS
    && forall s :: 0 <= s < NR_TASKS ==> |c.stack[s]| == KERNEL_STACK_SIZE
  }

  /** An address inside the stack of slot `s`, clear of its descriptor. */
  predicate OnStack(s: nat, a: int) {
    Base(s) + TASK_WORDS <= a < Base(s) + KERNEL_STACK_SIZE
  }

  function Get(c: Cpu, s: nat, a: int): Word
    requires StackSizes(c) && s < NR_TASKS
  {
    if OnStack(s, a) then c.stack[s][a - Base(s)] else Val(0)
  }

  function Put(c: Cpu, s: nat, a: int, w: Word): (r: Cpu)
    requires StackSizes(c) && s < NR_TASKS
    ensures StackSizes(r)
  {
    if OnStack(s, a) then c.(stack := c.stack[s := c.stack[s][a - Base(s) := w]]) else c
  }

  function Push(c: Cpu, s: nat, w: Word): (r: Cpu)
    requires StackSizes(c) && s < NR_TASKS
    ensures StackSizes(r)
  {
    Put(c, s, c.r.esp - 1, w).(r := c.r.(esp := c.r.esp - 1))
  }

  function Top(c: Cpu, s: nat): Word
    requires StackSizes(c) && s < NR_TASKS
  {
    Get(c, s, c.r.esp)
  }

  // ----- task_switch and inner_task_switch

  /** task_switch up to its call: ebp, the callee-saved registers and the argument are pushed. */
  function PushFrame(c: Cpu, s: nat): (r: Cpu)
    requires StackSizes(c) && s < NR_TASKS
    ensures StackSizes(r)
  {
    var c1 := Push(c, s, c.r.ebp);
    var c2 := c1.(r := c1.r.(ebp := Val(c1.r.esp)));
    var c3 := Push(Push(Push(c2, s, c2.r.edi), s, c2.r.esi), s, c2.r.ebx);
    Push(c3, s, Get(c3, s, c2.r.esp + 2))
  }

  /** From the entry of task_switch to the point where inner_task_switch has saved kernel_esp. */
  function SaveContext(c: Cpu, s: nat): (r: Cpu)
    requires StackSizes(c) && s < NR_TASKS
    ensures StackSizes(r)
  {
    var c4 := PushFrame(c, s);
    var c5 := Push(Push(c4, s, Code(AfterInnerSwitch)), s, c4.r.ebp);
    c5.(r := c5.r.(ebp := Val(c5.r.esp)), kesp := c5.kesp[s := c5.r.esp])
  }

  /** Load the saved stack pointer of `t`, pop ebp, return; then the tail of task_switch if that is where it returns. */
  function Resume(c: Cpu, t: nat): (r: Cpu)
    requires StackSizes(c) && t < NR_TASKS
    ensures StackSizes(r)
  {
    var e := c.kesp[t];
    var entered := c.(r := c.r.(ebp := Get(c, t, e), eip := Get(c, t, e + 1), esp := e + 2));
    if entered.r.eip == Code(AfterInnerSwitch) then PopFrame(entered, t) else entered
  }

  /** The tail of task_switch: discard the argument, pop the callee-saved registers, return. */
  function PopFrame(c: Cpu, t: nat): (r: Cpu)
    requires StackSizes(c) && t < NR_TASKS
    ensures StackSizes(r)
  {
    var e := c.r.esp;
    c.(r := c.r.(ebx := Get(c, t, e + 1), esi := Get(c, t, e + 2), edi := Get(c, t, e + 3),
                 ebp := Get(c, t, e + 4), eip := Get(c, t, e + 5), esp := e + 6))
  }

  /** The whole switch from slot `s` to slot `t`. */
  function SwitchTo(c: Cpu, s: nat, t: nat): (r: Cpu)
    requires StackSizes(c) && s < NR_TASKS && t < NR_TASKS
    ensures StackSizes(r)
  {
    Resume(SaveContext(c, s), t).(esp0 := Base(t) + KERNEL_STACK_SIZE - 1)
  }

  /** There is room for the seven words a switch pushes, and the return address and argument are in place. */
  predicate CanSwitch(s: nat, r: Regs) {
    OnStack(s, r.esp - 7) && OnStack(s, r.esp + 1)
  }

  /** The seven words down to the descriptor's end, and the two at the top, in numbers. */
  lemma RoomToSwitch(s: nat, r: Regs)
    ensures CanSwitch(s, r) <==> s * 1024 + 20 <= r.esp < s * 1024 + 1023
  {
  }

  lemma Saved(c: Cpu, s: nat)
    requires StackSizes(c) && s < NR_TASKS && CanSwitch(s, c.r)
    ensures var r, e := SaveContext(c, s), c.r.esp;
      && r.kesp == c.kesp[s := e - 7]
      && r.stack == c.stack[s := r.stack[s]]
      && Get(r, s, e - 7) == Val(e - 1) && Get(r, s, e - 6) == Code(AfterInnerSwitch)
      && Get(r, s, e - 5) == Get(c, s, e + 1)
      && Get(r, s, e - 4) == c.r.ebx && Get(r, s, e - 3) == c.r.esi && Get(r, s, e - 2) == c.r.edi
      && Get(r, s, e - 1) == c.r.ebp
      && (forall a :: OnStack(s, a) && a >= e ==> Get(r, s, a) == Get(c, s, a))
  {
  }

  /** A switch away and back is invisible: registers, stack pointer and the stack above it are as at the call. */
  lemma SwitchRoundTrip(c: Cpu, s: nat, d: Cpu)
    requires StackSizes(c) && s < NR_TASKS && CanSwitch(s, c.r)
    requires StackSizes(d) && d.stack[s] == SaveContext(c, s).stack[s] && d.kesp[s] == SaveContext(c, s).kesp[s]
    ensures var b := Resume(d, s);
      && b.r.ebx == c.r.ebx && b.r.esi == c.r.esi && b.r.edi == c.r.edi && b.r.ebp == c.r.ebp
      && b.r.eip == Top(c, s) && b.r.esp == c.r.esp + 1
      && (forall a :: OnStack(s, a) && a >= c.r.esp ==> Get(b, s, a) == Get(c, s, a))
  {
    Saved(c, s);
    var r, e := SaveContext(c, s), c.r.esp;
    assert forall a :: Get(d, s, a) == Get(r, s, a);
  }

  // ----- The stack sys_fork builds

  /** copy_data(current(), new_s, 4096): the stack words and kernel_esp of the slot. */
  function CopySlot(c: Cpu, s: nat, n: nat): (r: Cpu)
    requires StackSizes(c) && s < NR_TASKS && n < NR_TASKS
    ensures StackSizes(r)
  {
    c.(stack := c.stack[n := c.stack[s]], kesp := c.kesp[n := c.kesp[s]])
  }

  /**
   In the child's copy, the word at sys_fork's frame pointer becomes the address of ret_from_fork, the word below
   it a null ebp, and kernel_esp points there.
   */
  function PlantReturn(c: Cpu, s: nat, n: nat, fp: int): (r: Cpu)
    requires StackSizes(c) && s < NR_TASKS && n < NR_TASKS
    ensures StackSizes(r)
  {
    // ebp_diff, from the last word of the parent's stack down to the word below the frame pointer
    var diff := Base(s) + KERNEL_STACK_SIZE - 1 - (fp - 1);
    var top := Base(n) + KERNEL_STACK_SIZE - 1;
    Put(Put(c.(kesp := c.kesp[n := top - diff]), n, top - diff + 1, Code(RetFromFork)), n, top - diff, Val(0))
  }

  function ForkStack(c: Cpu, s: nat, n: nat, fp: int): (r: Cpu)
    requires StackSizes(c) && s < NR_TASKS && n < NR_TASKS
    ensures StackSizes(r)
  {
    PlantReturn(CopySlot(c, s, n), s, n, fp)
  }

  /** Above the frame pointer: the return address into the handler, then the frame SAVE_ALL and int $0x80 built. */
  predicate CanFork(s: nat, fp: int) {
    OnStack(s, fp - 1) && OnStack(s, fp + 17)
  }

  lemma RoomToFork(s: nat, fp: int)
    ensures CanFork(s, fp) <==> s * 1024 + 14 <= fp < s * 1024 + 1007
  {
  }

  /** ret_from_fork: eax = 0, and back to whatever called sys_fork. */
  function RunRetFromFork(c: Cpu, s: nat): (r: Cpu)
    requires StackSizes(c) && s < NR_TASKS
    ensures StackSizes(r)
  {
    var framed := Push(c, s, c.r.ebp);
    framed.(r := c.r.(eax := Val(0), eip := Top(c, s), esp := c.r.esp + 1))
  }

  /** The user context the handler returns to: RESTORE_ALL and iret, after eax has been stored at 0x18(%esp). */
  function UserContext(c: Cpu, s: nat): seq<Word>
    requires StackSizes(c) && s < NR_TASKS
  {
    seq(16, i => if i == 6 then c.r.eax else Get(c, s, c.r.esp + i))
  }

  /** The parent's registers when sys_fork returns `pid` to the handler through its own frame. */
  function ReturnFromFork(c: Cpu, s: nat, fp: int, pid: int): Cpu
    requires StackSizes(c) && s < NR_TASKS
  {
    c.(r := c.r.(eax := Val(pid), eip := Get(c, s, fp + 1), esp := fp + 2))
  }

  lemma ForkedWords(c: Cpu, s: nat, n: nat, fp: int, d: Cpu)
    requires StackSizes(c) && s < NR_TASKS && n < NR_TASKS && CanFork(s, fp)
    requires StackSizes(d) && d.stack[n] == ForkStack(c, s, n, fp).stack[n]
    requires d.kesp[n] == ForkStack(c, s, n, fp).kesp[n]
    ensures var e := d.kesp[n];
      e == fp - 1 - Base(s) + Base(n) && Get(d, n, e) == Val(0) && Get(d, n, e + 1) == Code(RetFromFork)
    ensures forall a :: OnStack(s, a) && a > fp ==> Get(c, s, a) == Get(d, n, a - Base(s) + Base(n))
  {
  }

  /**
   Fork returns twice: on its first dispatch the child enters ret_from_fork with a null ebp and returns to
   the parent's own return address at the same stack offset, with the parent's user context but eax = 0.
   */
  lemma ForkReturnsTwice(c: Cpu, s: nat, n: nat, fp: int, pid: int, d: Cpu)
    requires StackSizes(c) && s < NR_TASKS && n < NR_TASKS && s != n && CanFork(s, fp)
    requires StackSizes(d) && d.stack[n] == ForkStack(c, s, n, fp).stack[n]
    requires d.kesp[n] == ForkStack(c, s, n, fp).kesp[n]
    ensures var first := Resume(d, n);
      var child, parent := RunRetFromFork(first, n), ReturnFromFork(c, s, fp, pid);
      && first.r.ebp == Val(0) && first.r.eip == Code(RetFromFork)
      && child.r.eip == parent.r.eip == Get(c, s, fp + 1)
      && child.r.esp - Base(n) == parent.r.esp - Base(s)
      && parent.r.eax == Val(pid) && child.r.eax == Val(0)
      && UserContext(child, n) == UserContext(parent, s)[6 := Val(0)]
  {
    var first := Resume(d, n);
    var child, parent := RunRetFromFork(first, n), ReturnFromFork(c, s, fp, pid);
    ForkedWords(c, s, n, fp, d);
    assert Get(c, s, fp + 1) == Get(d, n, fp + 1 - Base(s) + Base(n));
    forall i | 0 <= i < 16 ensures UserContext(child, n)[i] == UserContext(parent, s)[6 := Val(0)][i] {
      var a := child.r.esp + i;
      assert Get(c, s, fp + 2 + i) == Get(d, n, fp + 2 + i - Base(s) + Base(n));
      assert a == fp + 2 + i - Base(s) + Base(n) && OnStack(n, a);
      assert Get(child, n, a) == Get(d, n, a) && Get(parent, s, fp + 2 + i) == Get(c, s, fp + 2 + i);
    }
  }

  // ----- What a slot that is not running must look like

  /** The saved stack of a slot can be resumed without leaving the slot. */
  predicate Resumable(c: Cpu, t: nat)
    requires StackSizes(c) && t < NR_TASKS
  {
    var e := c.kesp[t];
    && OnStack(t, e) && OnStack(t, e + 1)
    && match Get(c, t, e + 1)
       case Code(AfterInnerSwitch) => OnStack(t, e + 7)
       case Code(RetFromFork) => OnStack(t, e + 18) && Get(c, t, e) == Val(0)
       case Code(CpuIdle) => t == 0
       case _ => false
  }

  lemma SavedIsResumable(c: Cpu, s: nat)
    requires StackSizes(c) && s < NR_TASKS && CanSwitch(s, c.r)
    ensures Resumable(SaveContext(c, s), s)
  {
    Saved(c, s);
  }

  lemma ForkedIsResumable(c: Cpu, s: nat, n: nat, fp: int)
    requires StackSizes(c) && s < NR_TASKS && n < NR_TASKS && CanFork(s, fp)
    ensures Resumable(ForkStack(c, s, n, fp), n)
  {
  }

  /** Whether a slot can be resumed depends only on its own stack and kernel_esp. */
  lemma ResumableSame(c: Cpu, d: Cpu, t: nat)
    requires StackSizes(c) && StackSizes(d) && t < NR_TASKS
    requires c.stack[t] == d.stack[t] && c.kesp[t] == d.kesp[t]
    ensures Resumable(c, t) == Resumable(d, t)
  {
    assert forall a :: Get(c, t, a) == Get(d, t, a);
  }

  /** A switch writes only the stack and kernel_esp of the slot it leaves, which it leaves resumable. */
  lemma SwitchWrites(c: Cpu, s: nat, t: nat)
    requires StackSizes(c) && s < NR_TASKS && t < NR_TASKS && CanSwitch(s, c.r)
    ensures var r := SwitchTo(c, s, t);
      && (forall x :: 0 <= x < NR_TASKS && x != s ==> r.stack[x] == c.stack[x] && r.kesp[x] == c.kesp[x])
      && r.stack[s] == SaveContext(c, s).stack[s] && r.kesp[s] == SaveContext(c, s).kesp[s]
      && Resumable(r, s)
  {
    Saved(c, s);
    SavedIsResumable(c, s);
    ResumableSame(SaveContext(c, s), SwitchTo(c, s, t), s);
  }

  /** A fork writes only the stack and kernel_esp of the child, which it leaves resumable. */
  lemma ForkWrites(c: Cpu, s: nat, n: nat, fp: int)
    requires StackSizes(c) && s < NR_TASKS && n < NR_TASKS && CanFork(s, fp)
    ensures var r := ForkStack(c, s, n, fp);
      && (forall x :: 0 <= x < NR_TASKS && x != n ==> r.stack[x] == c.stack[x] && r.kesp[x] == c.kesp[x])
      && r.esp0 == c.esp0 && Resumable(r, n)
  {
    ForkedIsResumable(c, s, n, fp);
  }
}
