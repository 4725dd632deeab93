/**
 The process table as a state machine: slots, the three queues, the process tree, PIDs, pending
 unblocks and the quantum counter, with one step per clock tick or system call (sys.c, sched.c).
 */
module Processes {
  import opened Config
  import opened SlotSeqs

  /** The fields of task_struct, other than its links and its saved stack pointer. */
  datatype Task = Task(pid: int, quantum: int, parent: int, pending: int, dir: nat)

  datatype Proc = Proc(
    cur: nat,
    task: seq<Task>,
    readyq: seq<nat>,
    freeq: seq<nat>,
    blocked: seq<nat>,
    childs: seq<seq<nat>>,
    ticks: int,
    lastPid: int)

  /** What can happen next: a clock tick, a system call of the running process, or a user store. */
  datatype Call = Tick | Fork | Exit | Block | Unblock(pid: int) | Store

  predicate Live(p: Proc, s: int) {
    1 <= s < NR_TASKS && (s == p.cur || s in p.readyq || s in p.blocked)
  }

  // ----- The invariant

  /** Every slot but idle's is exactly one of: running, once ready, once blocked, once free. */
  ghost predicate Partition(p: Proc) {
    && p.cur < NR_TASKS
    && NoDup(p.readyq) && NoDup(p.blocked) && NoDup(p.freeq)
    && (forall s :: s in p.readyq ==> 1 <= s < NR_TASKS && s != p.cur && s !in p.blocked && s !in p.freeq)
    && (forall s :: s in p.blocked ==> 1 <= s < NR_TASKS && s != p.cur && s !in p.freeq)
    && (forall s :: s in p.freeq ==> 1 <= s < NR_TASKS && s != p.cur)
    && (forall s :: 1 <= s < NR_TASKS ==> Live(p, s) || s in p.freeq)
  }

  /** Parent pointers and child rings describe one forest, in which parents have smaller PIDs. */
  ghost predicate Tree(p: Proc) {
    && |p.task| == NR_TASKS && |p.childs| == NR_TASKS
    && (forall s :: 0 <= s < NR_TASKS ==> NoDup(p.childs[s]))
    && (forall s, c {:trigger c in p.childs[s]} :: 0 <= s < NR_TASKS && c in p.childs[s] ==>
          Live(p, c) && p.task[c].parent == s)
    && (forall s :: Live(p, s) ==> ParentOk(p, s))
  }

  ghost predicate ParentOk(p: Proc, s: nat)
    requires |p.task| == NR_TASKS && |p.childs| == NR_TASKS && s < NR_TASKS
  {
    var a := p.task[s].parent;
    if a == NOBODY then p.task[s].pid == 1
    else
      && (a == 0 || Live(p, a))
      && s in p.childs[a]
      && p.task[a].pid < p.task[s].pid
  }

  /** Live processes have distinct PIDs among those issued; idle has PID 0. */
  ghost predicate Pids(p: Proc)
    requires |p.task| == NR_TASKS
  {
    && p.task[0].pid == 0 && 1 <= p.lastPid
    && (forall s :: Live(p, s) ==> 1 <= p.task[s].pid <= p.lastPid)
    && (forall s, t :: Live(p, s) && Live(p, t) && p.task[s].pid == p.task[t].pid ==> s == t)
  }

  /** No process is blocked while an unblock is pending for it. */
  ghost predicate Wakeups(p: Proc)
    requires |p.task| == NR_TASKS
  {
    && (forall s :: Live(p, s) ==> 0 <= p.task[s].pending)
    && (forall s :: s in p.blocked && s < NR_TASKS ==> p.task[s].pending == 0)
  }

  /** Quanta are the boot values, page directories are private, and idle runs only when nothing is ready. */
  ghost predicate Running(p: Proc)
    requires |p.task| == NR_TASKS
  {
    && p.task[0].quantum == IDLE_QUANTUM && p.task[0].dir == 0
    && (forall s :: Live(p, s) ==> p.task[s].quantum == INIT_QUANTUM && p.task[s].dir == s)
    && (p.cur == 0 ==> p.readyq == [])
  }

  ghost predicate Inv(p: Proc) {
    Partition(p) && Tree(p) && Pids(p) && Wakeups(p) && Running(p)
  }

  // ----- Scheduling (sched.c)

  /** sched_next_rr: the head of readyq runs, or idle. */
  function SchedNext(p: Proc): Proc {
    if p.readyq == [] then p.(cur := 0)
    else p.(cur := p.readyq[0], readyq := p.readyq[1..])
  }

  /** quantum_ticks as needs_sched_rr leaves it in a tick. */
  function TickedDown(p: Proc): int
    requires p.cur < |p.task|
  {
    if p.readyq == [] then p.task[p.cur].quantum else p.ticks - 1
  }

  /** scheduler, once per clock tick */
  function StepTick(p: Proc): Proc
    requires p.cur < |p.task|
  {
    var q := p.(ticks := TickedDown(p));
    if q.ticks < 0 then SchedNext(q.(readyq := q.readyq + [q.cur])) else q
  }

  // ----- System calls (sys.c)

  /** new_pid, repeated while it hits the slot number. */
  function NextPid(last: int, slot: int): int {
    if last + 1 == slot then last + 2 else last + 1
  }

  /** sys_fork after the frames have been found. */
  function StepFork(p: Proc): Proc
    requires p.cur < |p.task| == |p.childs|
    requires p.freeq != [] ==> p.freeq[0] < |p.task|
  {
    if p.freeq == [] then p else
    var s := p.freeq[0];
    var pid := NextPid(p.lastPid, s);
    p.(freeq := p.freeq[1..],
       task := p.task[s := p.task[p.cur].(pid := pid, parent := p.cur, dir := s)],
       childs := p.childs[s := []][p.cur := p.childs[p.cur] + [s]],
       readyq := p.readyq + [s],
       lastPid := pid)
  }

  /** sys_fork when a frame is missing: the slot has left freeq and is not put back. */
  function StepForkNoFrames(p: Proc): Proc
    requires p.cur < |p.task|
    requires p.freeq != [] ==> p.freeq[0] < |p.task|
  {
    if p.freeq == [] then p else
    var s := p.freeq[0];
    p.(freeq := p.freeq[1..], task := p.task[s := p.task[p.cur].(dir := s)])
  }

  /** The table with every slot of `kids` handed to idle. */
  function Reparent(task: seq<Task>, kids: seq<nat>): (r: seq<Task>)
    requires forall i :: 0 <= i < |kids| ==> kids[i] < |task|
    ensures |r| == |task|
    ensures forall s :: 0 <= s < |task| ==> r[s] == if s in kids then task[s].(parent := 0) else task[s]
    decreases |kids|
  {
    if kids == [] then task
    else
      assert forall c :: c in kids <==> c == kids[0] || c in kids[1..];
      Reparent(task[kids[0] := task[kids[0]].(parent := 0)], kids[1..])
  }

  /** The child rings once the running process has left its parent's ring. */
  function LeaveParent(p: Proc): (r: seq<seq<nat>>)
    requires p.cur < |p.task| == |p.childs|
    requires NOBODY <= p.task[p.cur].parent < |p.childs|
    ensures |r| == |p.childs|
  {
    var a := p.task[p.cur].parent;
    if a == NOBODY then p.childs else p.childs[a := Without(p.childs[a], p.cur)]
  }

  predicate CanExit(p: Proc) {
    && 0 < p.cur < |p.task| == |p.childs| && NOBODY <= p.task[p.cur].parent < |p.childs|
    && forall i :: 0 <= i < |LeaveParent(p)[p.cur]| ==> LeaveParent(p)[p.cur][i] < |p.task|
  }

  /** The first part of sys_exit: the process leaves the tree and its children become idle's. */
  function LeftTree(p: Proc): Proc
    requires CanExit(p)
  {
    var childs := LeaveParent(p);
    var kids := childs[p.cur];
    p.(task := Reparent(p.task, kids), childs := childs[0 := childs[0] + kids][p.cur := []])
  }

  function StepExit(p: Proc): Proc
    requires CanExit(p)
  {
    SchedNext(LeftTree(p).(freeq := p.freeq + [p.cur]))
  }

  function StepBlock(p: Proc): Proc
    requires p.cur < |p.task|
  {
    var t := p.task[p.cur];
    if t.pending != 0 then p.(task := p.task[p.cur := t.(pending := t.pending - 1)])
    else SchedNext(p.(blocked := p.blocked + [p.cur]))
  }

  /** The first slot on a child ring with the given PID: the search loop of sys_unblock. */
  function FindPid(task: seq<Task>, ring: seq<nat>, pid: int): (r: int)
    requires forall i :: 0 <= i < |ring| ==> ring[i] < |task|
    ensures r == NOBODY <==> forall c :: c in ring ==> task[c].pid != pid
    ensures r != NOBODY ==> r >= 0 && r in ring && task[r].pid == pid
  {
    if ring == [] then NOBODY
    else if task[ring[0]].pid == pid then ring[0]
    else
      assert forall c :: c in ring <==> c == ring[0] || c in ring[1..];
      FindPid(task, ring[1..], pid)
  }

  function StepUnblock(p: Proc, pid: int): Proc
    requires p.cur < |p.task| == |p.childs|
    requires forall i :: 0 <= i < |p.childs[p.cur]| ==> p.childs[p.cur][i] < |p.task|
  {
    var c := FindPid(p.task, p.childs[p.cur], pid);
    if c == NOBODY then p
    else if c in p.blocked then p.(blocked := Without(p.blocked, c), readyq := p.readyq + [c])
    else p.(task := p.task[c := p.task[c].(pending := p.task[c].pending + 1)])
  }

  // ----- The machine

  /** Idle makes no system calls; a running process may do anything. */
  predicate Enabled(p: Proc, c: Call) {
    p.cur != 0 || c.Tick?
  }

  /** One step; calls that cannot happen change nothing. */
  function Step(p: Proc, c: Call): (r: Proc)
    requires Inv(p)
    ensures |r.task| == NR_TASKS
  {
    if !Enabled(p, c) then p else
    match c
    case Tick => StepTick(p)
    case Fork => ForkPre(p); StepFork(p)
    case Exit => ExitPre(p); StepExit(p)
    case Block => StepBlock(p)
    case Unblock(pid) => ChildSlots(p, p.cur); StepUnblock(p, pid)
    case Store => p
  }

  lemma ForkPre(p: Proc)
    requires Inv(p)
    ensures p.freeq != [] ==> 1 <= p.freeq[0] < NR_TASKS && !Live(p, p.freeq[0])
  {
    if p.freeq != [] { assert p.freeq[0] in p.freeq; }
  }

  lemma ChildSlots(p: Proc, s: nat)
    requires Inv(p) && s < NR_TASKS
    ensures forall i :: 0 <= i < |p.childs[s]| ==> p.childs[s][i] < NR_TASKS
  {
    forall i | 0 <= i < |p.childs[s]| ensures p.childs[s][i] < NR_TASKS {
      assert p.childs[s][i] in p.childs[s];
    }
  }

  lemma ExitPre(p: Proc)
    requires Inv(p) && p.cur != 0
    ensures NOBODY <= p.task[p.cur].parent < NR_TASKS && p.task[p.cur].parent != p.cur
    ensures LeaveParent(p)[p.cur] == p.childs[p.cur]
    ensures forall i :: 0 <= i < |p.childs[p.cur]| ==> p.childs[p.cur][i] < NR_TASKS
  {
    assert Live(p, p.cur) && ParentOk(p, p.cur);
    ChildSlots(p, p.cur);
  }

  // ----- The invariant is kept

  /** Descriptors that differ at most in pending_unblocks. */
  ghost predicate SameButPending(a: seq<Task>, b: seq<Task>) {
    |a| == |b| && forall s :: 0 <= s < |a| ==> b[s] == a[s].(pending := b[s].pending)
  }

  /** With the same live slots and child rings, only the queues and the counts remain to be checked. */
  lemma SameProcesses(p: Proc, r: Proc)
    requires Inv(p) && SameButPending(p.task, r.task) && r.childs == p.childs && r.lastPid == p.lastPid
    requires forall s :: Live(r, s) <==> Live(p, s)
    ensures Tree(r) && Pids(r)
    ensures (r.cur == 0 ==> r.readyq == []) ==> Running(r)
  {
    assert forall s :: Live(p, s) ==> (ParentOk(r, s) <==> ParentOk(p, s));
  }

  lemma PreemptParts(p: Proc)
    requires Partition(p) && p.cur != 0 && p.readyq != []
    ensures var r := SchedNext(p.(readyq := p.readyq + [p.cur]));
      Partition(r) && r.cur != 0 && forall s :: Live(r, s) <==> Live(p, s)
  {
    AppendFacts(p.readyq, p.cur);
    TailFacts(p.readyq + [p.cur]);
  }

  lemma TickKeeps(p: Proc)
    requires Inv(p)
    ensures Inv(StepTick(p))
  {
    var r := StepTick(p);
    var q := p.(ticks := TickedDown(p));
    assert forall s :: Live(q, s) <==> Live(p, s);
    if q.ticks < 0 {
      assert Partition(q);
      PreemptParts(q);
    }
    SameProcesses(p, r);
  }

  lemma BlockParts(p: Proc)
    requires Partition(p) && p.cur != 0
    ensures var r := SchedNext(p.(blocked := p.blocked + [p.cur]));
      Partition(r) && (r.cur == 0 ==> r.readyq == []) && forall s :: Live(r, s) <==> Live(p, s)
  {
    AppendFacts(p.blocked, p.cur);
    if p.readyq != [] { TailFacts(p.readyq); }
  }

  lemma BlockKeeps(p: Proc)
    requires Inv(p) && p.cur != 0
    ensures Inv(StepBlock(p))
  {
    var r := StepBlock(p);
    assert Live(p, p.cur);
    if p.task[p.cur].pending != 0 {
      assert forall s :: Live(r, s) <==> Live(p, s);
    } else {
      BlockParts(p);
    }
    SameProcesses(p, r);
  }

  lemma WakeParts(p: Proc, c: nat)
    requires Partition(p) && c in p.blocked
    ensures var r := p.(blocked := Without(p.blocked, c), readyq := p.readyq + [c]);
      Partition(r) && forall s :: Live(r, s) <==> Live(p, s)
  {
    WithoutFacts(p.blocked, c);
    AppendFacts(p.readyq, c);
  }

  lemma UnblockKeeps(p: Proc, pid: int)
    requires Inv(p) && p.cur != 0
    ensures Inv(Step(p, Unblock(pid)))
  {
    ChildSlots(p, p.cur);
    var r := StepUnblock(p, pid);
    var c := FindPid(p.task, p.childs[p.cur], pid);
    if c != NOBODY {
      assert c in p.childs[p.cur];
      if c in p.blocked {
        WakeParts(p, c);
        WithoutFacts(p.blocked, c);
      } else {
        assert forall s :: Live(r, s) <==> Live(p, s);
      }
      SameProcesses(p, r);
    }
  }

  /** Fork makes exactly one slot live. */
  lemma ForkParts(p: Proc)
    requires Inv(p) && p.cur != 0 && p.freeq != []
    ensures var r := Step(p, Fork);
      Partition(r) && forall s :: Live(r, s) <==> Live(p, s) || s == p.freeq[0]
  {
    ForkPre(p);
    TailFacts(p.freeq);
    AppendFacts(p.readyq, p.freeq[0]);
  }

  lemma ForkTree(p: Proc)
    requires Inv(p) && p.cur != 0 && p.freeq != []
    ensures Tree(Step(p, Fork))
  {
    ForkPre(p);
    ForkParts(p);
    var r, n := StepFork(p), p.freeq[0];
    assert n !in p.childs[p.cur];
    AppendFacts(p.childs[p.cur], n);
    assert forall s :: 0 <= s < NR_TASKS && s != n && s != p.cur ==> r.childs[s] == p.childs[s];
    forall s | Live(r, s) ensures ParentOk(r, s) {
      if s != n {
        assert ParentOk(p, s);
      } else {
        assert Live(p, p.cur);
      }
    }
  }

  /** The child is the last of its parent's children and has none of its own; no other ring changes. */
  lemma ForkRings(p: Proc)
    requires Inv(p) && p.cur != 0 && p.freeq != []
    ensures var r, n := Step(p, Fork), p.freeq[0];
      && |r.childs| == NR_TASKS && n < NR_TASKS && n != p.cur
      && r.childs[p.cur] == p.childs[p.cur] + [n] && r.childs[n] == []
      && forall s :: 0 <= s < NR_TASKS && s != p.cur && s != n ==> r.childs[s] == p.childs[s]
  {
    ForkPre(p);
  }

  lemma ForkKeeps(p: Proc)
    requires Inv(p) && p.cur != 0
    ensures Inv(Step(p, Fork))
  {
    ForkPre(p);
    if p.freeq != [] {
      ForkParts(p);
      ForkTree(p);
      assert Live(p, p.cur);
    }
  }

  lemma LeaveParts(p: Proc)
    requires Partition(p) && p.cur != 0
    ensures var r := SchedNext(p.(freeq := p.freeq + [p.cur]));
      Partition(r) && (r.cur == 0 ==> r.readyq == []) && forall s :: Live(r, s) <==> Live(p, s) && s != p.cur
  {
    AppendFacts(p.freeq, p.cur);
    if p.readyq != [] { TailFacts(p.readyq); }
  }

  /** Exit takes exactly the running slot out of the live ones. */
  lemma ExitParts(p: Proc)
    requires Inv(p) && p.cur != 0
    ensures var r := Step(p, Exit);
      Partition(r) && (r.cur == 0 ==> r.readyq == []) && forall s :: Live(r, s) <==> Live(p, s) && s != p.cur
  {
    ExitPre(p);
    LeaveParts(p);
    var r, q := Step(p, Exit), SchedNext(p.(freeq := p.freeq + [p.cur]));
    assert forall s :: Live(r, s) <==> Live(q, s);
  }

  /** The child rings after exit: idle's ring gains the orphans in order, the parent's loses the process. */
  lemma ExitRings(p: Proc)
    requires Inv(p) && p.cur != 0
    ensures var r, t, a := Step(p, Exit), p.cur, p.task[p.cur].parent;
      && |r.childs| == NR_TASKS
      && r.childs[t] == []
      && r.childs[0] == (if a == 0 then Without(p.childs[0], t) else p.childs[0]) + p.childs[t]
      && a < NR_TASKS
      && (a > 0 ==> r.childs[a] == Without(p.childs[a], t))
      && (forall s :: 0 < s < NR_TASKS && s != t && s != a ==> r.childs[s] == p.childs[s])
  {
    ExitPre(p);
  }

  lemma ExitRingMembers(p: Proc)
    requires Inv(p) && p.cur != 0
    ensures var r, t := Step(p, Exit), p.cur;
      && |r.childs| == NR_TASKS
      && (forall s :: 0 <= s < NR_TASKS ==> NoDup(r.childs[s]))
      && (forall c :: c in r.childs[0] <==> (c in p.childs[0] && c != t) || c in p.childs[t])
      && (forall s, c {:trigger c in r.childs[s]} :: 0 < s < NR_TASKS ==>
            (c in r.childs[s] <==> c in p.childs[s] && c != t && s != t))
  {
    ExitRings(p);
    ExitPre(p);
    var r, t, a := Step(p, Exit), p.cur, p.task[p.cur].parent;
    if a != NOBODY { WithoutFacts(p.childs[a], t); }
    ConcatFacts(if a == 0 then Without(p.childs[0], t) else p.childs[0], p.childs[t]);
  }

  /** What exit does to the live set, the descriptors and the child rings, all at once. */
  ghost predicate Exited(p: Proc, r: Proc)
    requires Inv(p)
  {
    && |r.task| == NR_TASKS && |r.childs| == NR_TASKS
    && (forall x :: Live(r, x) <==> Live(p, x) && x != p.cur)
    && (forall x :: 0 <= x < NR_TASKS ==>
          r.task[x] == if x in p.childs[p.cur] then p.task[x].(parent := 0) else p.task[x])
    && (forall s :: 0 <= s < NR_TASKS ==> NoDup(r.childs[s]))
    && (forall c :: c in r.childs[0] <==> (c in p.childs[0] && c != p.cur) || c in p.childs[p.cur])
    && (forall x, c {:trigger c in r.childs[x]} :: 0 < x < NR_TASKS ==>
          (c in r.childs[x] <==> c in p.childs[x] && c != p.cur && x != p.cur))
  }

  lemma ExitParent(p: Proc, r: Proc, s: nat)
    requires Inv(p) && p.cur != 0 && Exited(p, r) && Live(r, s)
    ensures ParentOk(r, s)
  {
    assert Live(p, s) && ParentOk(p, s);
    assert p.task[s].parent == p.cur <==> s in p.childs[p.cur];
  }

  lemma ExitTree(p: Proc, r: Proc)
    requires Inv(p) && p.cur != 0 && Exited(p, r)
    ensures Tree(r)
  {
    forall s | Live(r, s) ensures ParentOk(r, s) {
      ExitParent(p, r, s);
    }
  }

  lemma ExitKeeps(p: Proc)
    requires Inv(p) && p.cur != 0
    ensures Inv(Step(p, Exit))
  {
    ExitPre(p);
    ExitParts(p);
    ExitRingMembers(p);
    var r := Step(p, Exit);
    ExitTree(p, r);
    assert forall s :: 0 <= s < NR_TASKS ==> r.task[s] == p.task[s].(parent := r.task[s].parent);
  }

  /** Every step keeps the whole invariant. */
  lemma StepKeeps(p: Proc, c: Call)
    requires Inv(p)
    ensures Inv(Step(p, c))
  {
    if Enabled(p, c) {
      match c
      case Tick => TickKeeps(p);
      case Fork => ForkKeeps(p);
      case Exit => ExitKeeps(p);
      case Block => BlockKeeps(p);
      case Unblock(pid) => UnblockKeeps(p, pid);
      case Store =>
    }
  }

  /** Only fork and exit change which slots hold a process. */
  lemma LiveStep(p: Proc, call: Call)
    requires Inv(p) && !call.Fork? && !call.Exit?
    ensures forall s :: Live(Step(p, call), s) <==> Live(p, s)
  {
    var q := p.(ticks := TickedDown(p));
    assert forall s :: Live(q, s) <==> Live(p, s);
    if Enabled(p, call) {
      match call
      case Tick => if q.ticks < 0 { assert Partition(q); PreemptParts(q); }
      case Block => if p.task[p.cur].pending == 0 { BlockParts(p); }
      case Unblock(pid) =>
        ChildSlots(p, p.cur);
        var f := FindPid(p.task, p.childs[p.cur], pid);
        if f != NOBODY && f in p.blocked { WakeParts(p, f); }
      case _ =>
    }
  }
}
