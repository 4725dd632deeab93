/**
 What holds over every run of the process table: waiting times, queue order, wake-up accounting,
 PIDs, the process tree and idle.
 */
module Runs {
  import opened Config
  import opened SlotSeqs
  import opened Processes

  /** The state after a sequence of ticks and calls; the invariant holds in every state of a run. */
  function Run(p: Proc, cs: seq<Call>): (r: Proc)
    requires Inv(p)
    ensures Inv(r)
    decreases |cs|
  {
    if cs == [] then p else StepKeeps(p, cs[0]); Run(Step(p, cs[0]), cs[1..])
  }

  /** The state built by init_sched, init_idle and init_task1. */
  function Boot(): Proc {
    var unused := Task(0, 0, NOBODY, 0, 0);
    Proc(1,
         [Task(0, IDLE_QUANTUM, NOBODY, 0, 0), Task(1, INIT_QUANTUM, NOBODY, 0, 1)] + seq(NR_TASKS - 2, _ => unused),
         [],
         seq(NR_TASKS - 2, i => i + 2),
         [],
         seq(NR_TASKS, _ => []),
         INIT_QUANTUM,
         1)
  }

  lemma BootInv()
    ensures Inv(Boot())
  {
    var p := Boot();
    assert forall s :: s in p.freeq <==> 2 <= s < NR_TASKS by {
      forall s | 2 <= s < NR_TASKS ensures s in p.freeq { assert p.freeq[s - 2] == s; }
    }
    assert forall s :: Live(p, s) <==> s == 1;
  }

  /** The boot state, value by value. */
  lemma BootIs()
    ensures var p := Boot();
      && p.cur == 1 && p.readyq == [] && p.blocked == [] && p.freeq == [2, 3, 4, 5, 6, 7, 8, 9]
      && p.ticks == 100 && p.lastPid == 1 && |p.task| == 10 && p.childs == [[], [], [], [], [], [], [], [], [], []]
      && p.task[0].pid == 0 && p.task[0].quantum == 1 && p.task[0].dir == 0
      && p.task[1].pid == 1 && p.task[1].quantum == 100 && p.task[1].dir == 1
      && p.task[1].parent == NOBODY && p.task[1].pending == 0
  {
  }

  lemma ConcatCons<T>(a: seq<T>, b: seq<T>)
    requires a != []
    ensures a == [a[0]] + a[1..] && a + b == [a[0]] + (a[1..] + b)
  {
  }

  lemma RunCons(p: Proc, c: Call, cs: seq<Call>)
    requires Inv(p)
    ensures Inv(Step(p, c)) && Run(p, [c] + cs) == Run(Step(p, c), cs)
  {
    StepKeeps(p, c);
    assert ([c] + cs)[0] == c && ([c] + cs)[1..] == cs;
  }

  lemma {:induction false} RunConcat(p: Proc, cs: seq<Call>, ds: seq<Call>)
    requires Inv(p)
    ensures Run(p, cs + ds) == Run(Run(p, cs), ds)
    decreases |cs|
  {
    if cs == [] {
      assert cs + ds == ds;
    } else {
      ConcatCons(cs, ds);
      RunCons(p, cs[0], cs[1..]);
      RunCons(p, cs[0], cs[1..] + ds);
      RunConcat(Step(p, cs[0]), cs[1..], ds);
    }
  }

  // ----- Bounded waiting

  /** The process in slot `x` runs at some point of the run. */
  predicate GetsToRun(p: Proc, cs: seq<Call>, x: nat)
    requires Inv(p)
    decreases |cs|
  {
    p.cur == x || (cs != [] && (StepKeeps(p, cs[0]); GetsToRun(Step(p, cs[0]), cs[1..], x)))
  }

  function Ticks(cs: seq<Call>): nat {
    if cs == [] then 0 else (if cs[0].Tick? then 1 else 0) + Ticks(cs[1..])
  }

  function Positive(n: int): nat { if n < 0 then 0 else n }

  /** The number of ticks after which position `k` of readyq has surely been dispatched. */
  function Patience(p: Proc, k: nat): nat { Positive(p.ticks) + 1 + k }

  /** A step dispatches a waiting process or lets its patience only shrink, by one at each tick. */
  lemma PatienceStep(p: Proc, c: Call, k: nat) returns (k': nat)
    requires Inv(p) && k < |p.readyq|
    ensures var r := Step(p, c);
      r.cur == p.readyq[k] ||
      (&& k' < |r.readyq| && r.readyq[k'] == p.readyq[k]
       && Patience(r, k') + (if c.Tick? then 1 else 0) <= Patience(p, k))
  {
    var r := Step(p, c);
    if c.Exit? { ExitPre(p); }
    assert p.readyq[0] in p.readyq;
    k' := if r.cur != p.cur && 0 < k then k - 1 else k;
  }

  lemma {:induction false} BoundedWaiting(p: Proc, cs: seq<Call>, k: nat)
    requires Inv(p) && k < |p.readyq|
    requires Ticks(cs) >= Patience(p, k)
    ensures GetsToRun(p, cs, p.readyq[k])
    decreases |cs|
  {
    StepKeeps(p, cs[0]);
    var k' := PatienceStep(p, cs[0], k);
    var r := Step(p, cs[0]);
    if r.cur != p.readyq[k] {
      BoundedWaiting(r, cs[1..], k');
    }
  }

  // ----- First in, first out

  /** What a step is seen to put at the end of readyq. */
  function Enqueued(p: Proc, r: Proc): seq<nat> {
    if r.readyq != [] && r.readyq[|r.readyq| - 1] !in p.readyq then [r.readyq[|r.readyq| - 1]] else []
  }

  /** What a step is seen to dispatch. */
  function Chosen(p: Proc, r: Proc): seq<nat> {
    if r.cur != p.cur && r.cur != 0 then [r.cur] else []
  }

  function EnqueuedIn(p: Proc, cs: seq<Call>): seq<nat>
    requires Inv(p)
    decreases |cs|
  {
    if cs == [] then [] else
    StepKeeps(p, cs[0]);
    Enqueued(p, Step(p, cs[0])) + EnqueuedIn(Step(p, cs[0]), cs[1..])
  }

  function ChosenIn(p: Proc, cs: seq<Call>): seq<nat>
    requires Inv(p)
    decreases |cs|
  {
    if cs == [] then [] else
    StepKeeps(p, cs[0]);
    Chosen(p, Step(p, cs[0])) + ChosenIn(Step(p, cs[0]), cs[1..])
  }

  /** The three ways a step can change readyq and the running slot, besides leaving both alone. */
  lemma FifoShape(p: Proc, r: Proc, x: nat)
    requires NoDup(p.readyq) && p.cur !in p.readyq && 0 !in p.readyq
    requires x !in p.readyq
    requires
      || (r.readyq == p.readyq && (r.cur == p.cur || r.cur == 0))
      || (r.readyq == p.readyq + [x] && r.cur == p.cur)
      || (p.readyq != [] && r.readyq == p.readyq[1..] && r.cur == p.readyq[0])
      || (p.readyq != [] && r.readyq == p.readyq[1..] + [x] && r.cur == p.readyq[0])
    ensures p.readyq + Enqueued(p, r) == Chosen(p, r) + r.readyq
  {
    var q := p.readyq;
    if q != [] {
      assert q[0] in q && q[|q| - 1] in q && q == [q[0]] + q[1..];
    }
  }

  lemma FifoStep(p: Proc, c: Call)
    requires Inv(p)
    ensures var r := Step(p, c); p.readyq + Enqueued(p, r) == Chosen(p, r) + r.readyq
  {
    var r, x := Step(p, c), p.cur;
    match c {
      case Tick => assert p.readyq != [] ==> (p.readyq + [x])[1..] == p.readyq[1..] + [x];
      case Fork => ForkPre(p); if p.freeq != [] { x := p.freeq[0]; }
      case Exit => if p.cur != 0 { ExitPre(p); }
      case Block =>
      case Store =>
      case Unblock(pid) =>
        ChildSlots(p, p.cur);
        var f := FindPid(p.task, p.childs[p.cur], pid);
        if f != NOBODY && f in p.blocked { x := f; }
    }
    FifoShape(p, r, x);
  }

  /** Everything ever put on readyq, in order, is what was dispatched followed by what still waits. */
  lemma {:induction false} Fifo(p: Proc, cs: seq<Call>)
    requires Inv(p)
    ensures p.readyq + EnqueuedIn(p, cs) == ChosenIn(p, cs) + Run(p, cs).readyq
    decreases |cs|
  {
    if cs != [] {
      var r := Step(p, cs[0]);
      StepKeeps(p, cs[0]);
      FifoStep(p, cs[0]);
      Fifo(r, cs[1..]);
      Splice(p.readyq, Enqueued(p, r), Chosen(p, r), r.readyq,
             EnqueuedIn(r, cs[1..]), ChosenIn(r, cs[1..]), Run(r, cs[1..]).readyq);
    }
  }

  // ----- Free slots and the blocked queue

  /** The slot a step frees: that of an exiting process. */
  function FreedBy(p: Proc, c: Call): seq<nat> {
    if c.Exit? && p.cur != 0 then [p.cur] else []
  }

  /** The slot a step is seen to fill: a fork's child, which it puts last on readyq. */
  function FilledBy(p: Proc, c: Call, r: Proc): seq<nat> {
    if c.Fork? && |r.readyq| > |p.readyq| then [r.readyq[|r.readyq| - 1]] else []
  }

  lemma FreeStep(p: Proc, c: Call)
    requires Inv(p)
    ensures var r := Step(p, c); p.freeq + FreedBy(p, c) == FilledBy(p, c, r) + r.freeq
  {
    match c
    case Tick =>
    case Fork =>
      ForkPre(p);
      if p.freeq != [] { assert p.freeq == [p.freeq[0]] + p.freeq[1..]; }
    case Exit => if p.cur != 0 { ExitPre(p); }
    case Block =>
    case Unblock(pid) => ChildSlots(p, p.cur);
    case Store =>
  }

  function FreedIn(p: Proc, cs: seq<Call>): seq<nat>
    requires Inv(p)
    decreases |cs|
  {
    if cs == [] then [] else
    StepKeeps(p, cs[0]);
    FreedBy(p, cs[0]) + FreedIn(Step(p, cs[0]), cs[1..])
  }

  function FilledIn(p: Proc, cs: seq<Call>): seq<nat>
    requires Inv(p)
    decreases |cs|
  {
    if cs == [] then [] else
    StepKeeps(p, cs[0]);
    FilledBy(p, cs[0], Step(p, cs[0])) + FilledIn(Step(p, cs[0]), cs[1..])
  }

  /** Slots are used again in the order in which they were given up. */
  lemma {:induction false} FreeFifo(p: Proc, cs: seq<Call>)
    requires Inv(p)
    ensures p.freeq + FreedIn(p, cs) == FilledIn(p, cs) + Run(p, cs).freeq
    decreases |cs|
  {
    if cs != [] {
      var r := Step(p, cs[0]);
      StepKeeps(p, cs[0]);
      FreeStep(p, cs[0]);
      FreeFifo(r, cs[1..]);
      Splice(p.freeq, FreedBy(p, cs[0]), FilledBy(p, cs[0], r), r.freeq,
             FreedIn(r, cs[1..]), FilledIn(r, cs[1..]), Run(r, cs[1..]).freeq);
    }
  }

  /** The blocked queue keeps the order in which processes blocked: one joins at the end, or one leaves. */
  lemma BlockedInOrder(p: Proc, c: Call)
    requires Inv(p)
    ensures var q, r := p.blocked, Step(p, c).blocked;
      || r == q
      || (c.Block? && r == q + [p.cur])
      || (c.Unblock? && exists i :: 0 <= i < |q| && r == q[..i] + q[i + 1..])
  {
    match c
    case Tick =>
    case Fork => ForkPre(p);
    case Exit => if p.cur != 0 { ExitPre(p); }
    case Block =>
    case Store =>
    case Unblock(pid) =>
      ChildSlots(p, p.cur);
      var f := FindPid(p.task, p.childs[p.cur], pid);
      if f != NOBODY && f in p.blocked {
        var i :| 0 <= i < |p.blocked| && p.blocked[i] == f;
        WithoutAt(p.blocked, i);
      }
  }

  // ----- Block and unblock as a semaphore

  /** The semaphore value of a process: -1 while it is blocked. */
  function Value(p: Proc, x: nat): int
    requires x < |p.task|
  {
    if x in p.blocked then -1 else p.task[x].pending
  }

  /** The call is an unblock, by its parent, that names this process and so returns 0. */
  predicate Wakes(p: Proc, c: Call, x: nat)
    requires Inv(p) && x < NR_TASKS
  {
    p.cur != 0 && c.Unblock? && x in p.childs[p.cur] && p.task[x].pid == c.pid
  }

  /** The slot holds one and the same process throughout the run. */
  predicate Stays(p: Proc, cs: seq<Call>, x: nat)
    requires Inv(p)
    decreases |cs|
  {
    Live(p, x) && (cs == [] || (StepKeeps(p, cs[0]); Stays(Step(p, cs[0]), cs[1..], x)))
  }

  function WakesIn(p: Proc, cs: seq<Call>, x: nat): nat
    requires Inv(p) && x < NR_TASKS
    decreases |cs|
  {
    if cs == [] then 0 else
    StepKeeps(p, cs[0]);
    (if Wakes(p, cs[0], x) then 1 else 0) + WakesIn(Step(p, cs[0]), cs[1..], x)
  }

  function BlocksIn(p: Proc, cs: seq<Call>, x: nat): nat
    requires Inv(p)
    decreases |cs|
  {
    if cs == [] then 0 else
    StepKeeps(p, cs[0]);
    (if p.cur == x && cs[0].Block? then 1 else 0) + BlocksIn(Step(p, cs[0]), cs[1..], x)
  }

  /** The search loop of sys_unblock finds a child exactly when it is the one process with that PID. */
  lemma UnblockFinds(p: Proc, pid: int, x: nat)
    requires Inv(p) && x < NR_TASKS
    ensures (ChildSlots(p, p.cur); FindPid(p.task, p.childs[p.cur], pid) == x)
       <==> x in p.childs[p.cur] && p.task[x].pid == pid
  {
    ChildSlots(p, p.cur);
  }

  lemma ValueStep(p: Proc, c: Call, x: nat)
    requires Inv(p) && Live(p, x) && Live(Step(p, c), x)
    ensures Value(Step(p, c), x) == Value(p, x)
      + (if Wakes(p, c, x) then 1 else 0) - (if p.cur == x && c.Block? then 1 else 0)
  {
    match c
    case Tick =>
    case Store =>
    case Fork => ForkPre(p);
    case Exit => if p.cur != 0 { ExitPre(p); }
    case Block => AppendFacts(p.blocked, p.cur);
    case Unblock(pid) =>
      if p.cur != 0 {
        ChildSlots(p, p.cur);
        UnblockFinds(p, pid, x);
        var f := FindPid(p.task, p.childs[p.cur], pid);
        if f != NOBODY { WithoutFacts(p.blocked, f); }
      }
  }

  /** No wake-up is lost: value = starting value + unblocks received - block calls made. */
  lemma {:induction false} Semaphore(p: Proc, cs: seq<Call>, x: nat)
    requires Inv(p) && Stays(p, cs, x)
    ensures Value(Run(p, cs), x) == Value(p, x) + WakesIn(p, cs, x) - BlocksIn(p, cs, x)
    decreases |cs|
  {
    if cs != [] {
      StepKeeps(p, cs[0]);
      ValueStep(p, cs[0], x);
      Semaphore(Step(p, cs[0]), cs[1..], x);
    }
  }

  /** A child starts with its parent's pending unblocks. */
  lemma ForkInherits(p: Proc)
    requires Inv(p) && p.cur != 0 && p.freeq != []
    ensures var r, n := Step(p, Fork), p.freeq[0];
      Live(r, n) && r.task[n].parent == p.cur && Value(r, n) == Value(p, p.cur)
  {
    ForkPre(p);
    ForkParts(p);
  }

  // ----- Idle

  /** Once idle runs, nothing but the quantum counter ever changes again. */
  lemma {:induction false} IdleIsAbsorbing(p: Proc, cs: seq<Call>)
    requires Inv(p) && p.cur == 0
    ensures Run(p, cs) == p.(ticks := Run(p, cs).ticks)
    ensures p.readyq == []
    decreases |cs|
  {
    if cs != [] {
      StepKeeps(p, cs[0]);
      IdleIsAbsorbing(Step(p, cs[0]), cs[1..]);
    }
  }

  /** The step calls task_switch. */
  predicate Switches(p: Proc, c: Call)
    requires Inv(p)
  {
    Enabled(p, c) && match c
      case Tick => TickedDown(p) < 0
      case Exit => true
      case Block => p.task[p.cur].pending == 0
      case _ => false
  }

  /** The running slot changes exactly when task_switch is called, so never to the caller itself. */
  lemma SwitchesToAnother(p: Proc, c: Call)
    requires Inv(p)
    ensures Switches(p, c) <==> Step(p, c).cur != p.cur
  {
    if p.readyq != [] { assert p.readyq[0] in p.readyq; }
    match c
    case Tick =>
    case Fork => ForkPre(p);
    case Exit => if p.cur != 0 { ExitPre(p); }
    case Block =>
    case Unblock(pid) => ChildSlots(p, p.cur);
    case Store =>
  }

  // ----- PIDs

  /** The PIDs handed out by the forks of a run, in order. */
  function Issued(p: Proc, cs: seq<Call>): seq<int>
    requires Inv(p)
    decreases |cs|
  {
    if cs == [] then [] else
    StepKeeps(p, cs[0]);
    var r := Step(p, cs[0]);
    ForkPre(p);
    (if |r.freeq| < |p.freeq| then [r.task[p.freeq[0]].pid] else []) + Issued(r, cs[1..])
  }

  ghost predicate Increasing(s: seq<int>, lo: int, hi: int) {
    && lo <= hi
    && (forall i :: 0 <= i < |s| ==> lo < s[i] <= hi)
    && (forall i, j :: 0 <= i < j < |s| ==> s[i] < s[j])
  }

  lemma PidStep(p: Proc, c: Call)
    requires Inv(p)
    ensures var r := Step(p, c);
      if |r.freeq| < |p.freeq| then
        var n := p.freeq[0];
        && Live(r, n) && r.task[n].pid == r.lastPid && r.lastPid != n
        && (r.lastPid == p.lastPid + 1 || (r.lastPid == p.lastPid + 2 && n == p.lastPid + 1))
      else r.lastPid == p.lastPid
  {
    match c
    case Tick =>
    case Store =>
    case Fork => ForkPre(p); AppendFacts(p.readyq, if p.freeq == [] then 0 else p.freeq[0]);
    case Exit => if p.cur != 0 { ExitPre(p); }
    case Block =>
    case Unblock(pid) => ChildSlots(p, p.cur);
  }

  /** A fork gives the number after the last one, or the one after that if the first is the slot's. */
  lemma ForkPid(p: Proc)
    requires Inv(p) && p.cur != 0 && p.freeq != []
    ensures var r, n := Step(p, Fork), p.freeq[0];
      && n < NR_TASKS && r.task[n].pid == r.lastPid && r.lastPid != n
      && (r.lastPid == p.lastPid + 1 || (r.lastPid == p.lastPid + 2 && n == p.lastPid + 1))
  {
    ForkPre(p);
  }

  /** The first fork after boot: slot 2 gets PID 3, for 2 is its own number. */
  lemma FirstPid()
    ensures (BootInv(); var p := Step(Boot(), Fork);
      && Inv(p) && p.cur == 1 && p.readyq == [2] && p.freeq == [3, 4, 5, 6, 7, 8, 9]
      && p.task[2].pid == 3 && p.lastPid == 3)
  {
    BootInv();
    BootIs();
    StepKeeps(Boot(), Fork);
    ForkPre(Boot());
  }

  /** The second: slot 3 gets PID 4. */
  lemma SecondPid()
    ensures (BootInv(); FirstPid(); var p := Step(Step(Boot(), Fork), Fork);
      p.readyq == [2, 3] && p.task[2].pid == 3 && p.task[3].pid == 4 && p.lastPid == 4)
  {
    BootInv();
    FirstPid();
    ForkAtThree(Step(Boot(), Fork));
  }

  lemma ForkAtThree(p: Proc)
    requires Inv(p) && p.cur == 1 && p.freeq != [] && p.freeq[0] == 3 && p.lastPid == 3
    ensures var r := Step(p, Fork);
      r.readyq == p.readyq + [3] && r.task[2] == p.task[2] && r.task[3].pid == 4 && r.lastPid == 4
  {
    ForkPre(p);
  }

  /** Over a whole run the PIDs handed out increase strictly, and none was in use before. */
  lemma {:induction false} PidsAreFresh(p: Proc, cs: seq<Call>)
    requires Inv(p)
    ensures Increasing(Issued(p, cs), p.lastPid, Run(p, cs).lastPid)
    decreases |cs|
  {
    if cs != [] {
      StepKeeps(p, cs[0]);
      PidStep(p, cs[0]);
      PidsAreFresh(Step(p, cs[0]), cs[1..]);
    }
  }

  // ----- The tree

  /** Follows parent pointers to the end; the PIDs met decrease, so there is one. */
  function Root(p: Proc, s: nat): (r: nat)
    requires Inv(p) && (s == 0 || Live(p, s))
    ensures r == 0 || (Live(p, r) && p.task[r].pid == 1 && p.task[r].parent == NOBODY)
    decreases p.task[s].pid
  {
    if s == 0 then 0 else
    assert ParentOk(p, s);
    var a := p.task[s].parent;
    if a == NOBODY then s else Root(p, a)
  }

  /** A live process is on the child ring of its parent, once, and on no other child ring. */
  lemma OneRing(p: Proc, s: nat, a: nat)
    requires Inv(p) && Live(p, s) && a < NR_TASKS
    ensures s in p.childs[a] <==> p.task[s].parent == a
    ensures multiset(p.childs[a])[s] == if p.task[s].parent == a then 1 else 0
  {
    assert ParentOk(p, s);
    if s in p.childs[a] {
      var q := p.childs[a];
      var k :| 0 <= k < |q| && q[k] == s;
      assert q == q[..k] + [s] + q[k + 1..];
      assert s !in q[..k] && s !in q[k + 1..];
    }
  }
}
