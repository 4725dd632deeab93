/** The kernel's data structures built from nothing, booted and run: every precondition of the kernel can be met. */
module Building {
  import opened Config
  import opened SlotSeqs
  import opened Lists
  import opened Queues
  import opened Processes
  import opened Memory
  import opened MemoryBoot
  import opened UserImage
  import opened Stacks
  import opened System
  import opened KernelRuns
  import opened ProcessTables
  import opened KernelHardware
  import opened Kernels
  import Paging
  import Switching

  /** `n` nodes with null links, as zeroed static storage has them. */
  method NewNodes(n: nat) returns (ns: seq<ListHead>)
    ensures |ns| == n && NoDup(ns) && fresh(ns)
    ensures forall i :: 0 <= i < n ==> ns[i].slot == i && ns[i].next == null && ns[i].prev == null
  {
    ns := [];
    while |ns| < n
      invariant |ns| <= n && NoDup(ns) && fresh(ns)
      invariant forall i :: 0 <= i < |ns| ==> ns[i].slot == i && ns[i].next == null && ns[i].prev == null
    {
      var node := new ListHead(|ns|);
      ns := ns + [node];
    }
  }

  /** A family of rings none of which has been initialised. */
  method NewQueueSet(heads: nat, nodes: nat) returns (q: QueueSet)
    ensures fresh(q) && fresh(q.objects) && q.Layout() && q.NullOutside()
    ensures |q.heads| == heads && |q.nodes| == nodes && q.qs == seq(heads, _ => []) && q.act == {}
  {
    var hs := NewNodes(heads);
    var ns := NewNodes(nodes);
    q := new QueueSet(hs, ns);
  }

  method NewTable() returns (t: ProcessTable)
    ensures fresh(t) && fresh(t.Objects()) && t.Zeroed()
  {
    var queues := NewQueueSet(3, NR_TASKS);
    var kin := NewQueueSet(NR_TASKS, NR_TASKS);
    var task := new Task[NR_TASKS](_ => Task(0, 0, NOBODY, 0, 0));
    t := new ProcessTable(task, queues, kin);
    assert task[..] == seq(NR_TASKS, _ => Task(0, 0, NOBODY, 0, 0));
    assert queues.qs == [[], [], []];
  }

  method NewTables() returns (ts: seq<array<Pte>>)
    ensures |ts| == NR_TASKS && NoDup(ts) && fresh(ts)
    ensures forall s :: 0 <= s < NR_TASKS ==> ts[s].Length == TOTAL_PAGES
  {
    ts := [];
    while |ts| < NR_TASKS
      invariant |ts| <= NR_TASKS && NoDup(ts) && fresh(ts)
      invariant forall s :: 0 <= s < |ts| ==> ts[s].Length == TOTAL_PAGES
    {
      var t := new Pte[TOTAL_PAGES](_ => UNMAPPED);
      ts := ts + [t];
    }
  }

  method NewMachine(phys: seq<Byte>) returns (mm: Paging.Machine)
    requires |phys| == TOTAL_PAGES * PAGE_SIZE
    ensures fresh(mm) && fresh(mm.objects) && mm.Layout() && mm.phys[..] == phys
  {
    var frames := new Byte[|phys|](i requires 0 <= i < |phys| => phys[i]);
    var used := new bool[TOTAL_PAGES](_ => false);
    var dirs := new nat[NR_TASKS](_ => 0);
    var tables := NewTables();
    mm := new Paging.Machine(frames, used, tables, dirs);
    assert frames[..] == phys;
  }

  method NewStacks(words: seq<seq<Word>>) returns (ss: seq<array<Word>>)
    requires |words| == NR_TASKS && forall s :: 0 <= s < NR_TASKS ==> |words[s]| == KERNEL_STACK_SIZE
    ensures |ss| == NR_TASKS && NoDup(ss) && fresh(ss)
    ensures forall s :: 0 <= s < NR_TASKS ==> ss[s].Length == KERNEL_STACK_SIZE && ss[s][..] == words[s]
  {
    ss := [];
    while |ss| < NR_TASKS
      invariant |ss| <= NR_TASKS && NoDup(ss) && fresh(ss)
      invariant forall s :: 0 <= s < |ss| ==> ss[s].Length == KERNEL_STACK_SIZE && ss[s][..] == words[s]
    {
      var w := words[|ss|];
      var a := new Word[KERNEL_STACK_SIZE](i requires 0 <= i < KERNEL_STACK_SIZE => w[i]);
      assert a[..] == w;
      ss := ss + [a];
    }
  }

  method NewProcessor(c: Cpu) returns (cpu: Switching.Processor)
    requires StackSizes(c)
    ensures fresh(cpu) && fresh(cpu.objects) && cpu.Valid() && cpu.c == c.(esp0 := cpu.c.esp0)
  {
    var stacks := NewStacks(c.stack);
    var kesp := new int[NR_TASKS](i requires 0 <= i < NR_TASKS => c.kesp[i]);
    cpu := new Switching.Processor(stacks, kesp, c.r);
    assert kesp[..] == c.kesp;
    assert cpu.c.stack == c.stack;
  }

  /** The machine before boot, with any frames, stacks and registers. */
  method NewKernel(phys: seq<Byte>, c: Cpu) returns (k: Kernel)
    requires |phys| == TOTAL_PAGES * PAGE_SIZE && StackSizes(c)
    ensures k.table.Zeroed() && k.hw.mm.Layout() && k.hw.cpu.Valid() && k.hw.mm.objects !! k.hw.cpu.objects && k.Apart()
    ensures k.hw.mm.phys[..] == phys && k.hw.cpu.c == c.(esp0 := k.hw.cpu.c.esp0)
    ensures fresh(k.table.Objects()) && fresh(k.hw.mm.objects) && fresh(k.hw.cpu.objects)
  {
    var table := NewTable();
    var mm := NewMachine(phys);
    var cpu := NewProcessor(c);
    var hw := new Hardware(mm, cpu);
    k := new Kernel(table, hw);
  }

  /** The frames when user mode is first entered. */
  function Image(phys: seq<Byte>, start: nat, size: nat): (r: seq<Byte>)
    requires |phys| == TOTAL_PAGES * PAGE_SIZE && Fits(start, size)
    ensures |r| == |phys|
  {
    BootTableIsFirst(phys);
    Loaded(BootMem(phys).pt[1], phys, start, size)
  }

  /** A start state of the machine. */
  ghost predicate StartState(k: Kern, phys: seq<Byte>, c: Cpu, start: nat, size: nat)
    requires |phys| == TOTAL_PAGES * PAGE_SIZE && Fits(start, size) && StackSizes(c)
  {
    k == KBoot(Image(phys, start, size), k.m.tlb, c) && BootTlb(Image(phys, start, size), k.m.tlb)
  }

  lemma StartInv(k: Kern, phys: seq<Byte>, c: Cpu, start: nat, size: nat)
    requires |phys| == TOTAL_PAGES * PAGE_SIZE && Fits(start, size) && StackSizes(c)
    requires StartState(k, phys, c, start, size)
    ensures KInv(k)
  {
    KBootInv(Image(phys, start, size), k.m.tlb, c);
  }

  /** What BootKernel leaves is a start state. */
  lemma BootIsStart(k: Kern, phys: seq<Byte>, c: Cpu, d: Cpu, start: nat, size: nat)
    requires |phys| == TOTAL_PAGES * PAGE_SIZE && Fits(start, size) && StackSizes(c) && d == c.(esp0 := d.esp0)
    requires KInv(k) && k == KBoot(k.m.phys, k.m.tlb, d)
    requires FirstTable(k.m.pt[1]) && k.m.phys == Loaded(k.m.pt[1], phys, start, size)
    ensures StartState(k, phys, c, start, size)
  {
    BootIgnoresContents(phys, k.m.phys);
    assert BootCpu(d) == BootCpu(c);
  }

  /** Builds the data structures and boots. */
  method PowerOn(phys: seq<Byte>, c: Cpu, start: nat, size: nat) returns (k: Kernel)
    requires |phys| == TOTAL_PAGES * PAGE_SIZE && Fits(start, size) && StackSizes(c)
    ensures k.Ready() && StartState(k.State(), phys, c, start, size)
    ensures fresh(k.table.Objects()) && fresh(k.hw.mm.objects) && fresh(k.hw.cpu.objects)
  {
    k := NewKernel(phys, c);
    ghost var d := k.hw.cpu.c;
    k.BootKernel(start, size);
    BootIsStart(k.State(), phys, c, d, start, size);
  }

  /** Builds, boots and runs: the heap ends in the state the machine ends in, from a start state. */
  method PowerOnAndRun(phys: seq<Byte>, c: Cpu, start: nat, size: nat, es: seq<Event>)
    returns (k: Kernel, ghost k0: Kern)
    requires |phys| == TOTAL_PAGES * PAGE_SIZE && Fits(start, size) && StackSizes(c)
    requires forall s :: StartState(s, phys, c, start, size) ==> (StartInv(s, phys, c, start, size); AllPossible(s, es))
    ensures StartState(k0, phys, c, start, size)
    ensures k.Ready() && (StartInv(k0, phys, c, start, size); k.State() == KRun(k0, es))
  {
    k := PowerOn(phys, c, start, size);
    k0 := k.State();
    k.RunAll(es);
  }
}
