/**
 The process table on its real data structures: the three queues and the child rings as linked lists, the
 descriptor array, and the scheduler's counters. Each method does what the corresponding step of the table does.
 */
module ProcessTables {
  import opened Config
  import opened SlotSeqs
  import opened Lists
  import opened Queues
  import opened Processes
  import opened Runs

  const READYQ: nat := 0
  const FREEQ: nat := 1
  const BLOCKED: nat := 2

  /** The rest of sys_fork once slot `n` has been taken, copied and given its frames. */
  function Linked(p: Proc, n: nat): Proc
    requires p.cur < |p.task| == |p.childs| && n < |p.task|
  {
    Joined(p, n).(readyq := p.readyq + [n])
  }

  /** That is its PID, its parent and its place in the family. */
  function Joined(p: Proc, n: nat): Proc
    requires p.cur < |p.task| == |p.childs| && n < |p.task|
  {
    var pid := NextPid(p.lastPid, n);
    p.(task := p.task[n := p.task[n].(pid := pid, parent := p.cur)],
       childs := p.childs[n := []][p.cur := p.childs[p.cur] + [n]],
       lastPid := pid)
  }

  /** Taking a slot and linking it in is the whole fork step. */
  lemma TakeThenLink(p: Proc)
    requires p.cur < |p.task| == |p.childs| && p.freeq != [] && p.freeq[0] < |p.task| && p.freeq[0] != p.cur
    ensures Linked(StepForkNoFrames(p), p.freeq[0]) == StepFork(p)
  {
    var n := p.freeq[0];
    var a, b := Linked(StepForkNoFrames(p), n), StepFork(p);
    assert a.task == b.task;
  }

  /** A free slot has no children and is nobody's child. */
  lemma FreeIsBare(p: Proc, n: nat)
    requires Inv(p) && n in p.freeq
    ensures n < NR_TASKS && !Live(p, n) && p.childs[n] == []
    ensures forall s :: 0 <= s < NR_TASKS ==> n !in p.childs[s]
  {
    if p.childs[n] != [] {
      var c := p.childs[n][0];
      assert c in p.childs[n];
      assert ParentOk(p, c);
    }
  }

  /** What sys_exit may rely on, and what it leaves. */
  lemma ExitReady(p: Proc)
    requires Inv(p) && p.cur != 0
    ensures CanExit(p) && p.task[p.cur].parent != p.cur
    ensures p.task[p.cur].parent != NOBODY ==> p.cur in p.childs[p.task[p.cur].parent]
    ensures Step(p, Call.Exit) == StepExit(p) && Inv(StepExit(p))
    ensures forall s :: Live(StepExit(p), s) ==> Live(p, s)
  {
    ExitPre(p);
    assert ParentOk(p, p.cur);
    StepKeeps(p, Call.Exit);
    ExitParts(p);
  }

  ghost predicate InTable(task: seq<Task>, ring: seq<nat>) {
    forall k :: 0 <= k < |ring| ==> ring[k] < |task|
  }

  /** The search loop of sys_unblock from position `i` on. */
  function SearchFrom(task: seq<Task>, ring: seq<nat>, i: nat, pid: int): int
    requires InTable(task, ring) && i <= |ring|
    decreases |ring| - i
  {
    if i == |ring| then NOBODY
    else if task[ring[i]].pid == pid then ring[i]
    else SearchFrom(task, ring, i + 1, pid)
  }

  lemma {:induction false} SearchIsFind(task: seq<Task>, ring: seq<nat>, i: nat, pid: int)
    requires InTable(task, ring) && i <= |ring|
    ensures SearchFrom(task, ring, i, pid) == FindPid(task, ring[i..], pid)
    decreases |ring| - i
  {
    if i < |ring| {
      SearchIsFind(task, ring, i + 1, pid);
      assert ring[i..][0] == ring[i] && ring[i..][1..] == ring[i + 1..];
    }
  }

  // ----- The exit loop, round by round

  /** One child given to idle. */
  function Given(p: Proc, t: nat, c: nat): (r: Proc)
    requires t < |p.childs| && c < |p.task|
  {
    p.(task := p.task[c := p.task[c].(parent := 0)],
       childs := p.childs[t := Without(p.childs[t], c)][0 := p.childs[t := Without(p.childs[t], c)][0] + [c]])
  }

  ghost predicate KidsOk(p: Proc, t: nat) {
    0 < t < |p.childs| && forall i :: 0 <= i < |p.childs[t]| ==> p.childs[t][i] < |p.task|
  }

  /** The loop: children are given away from the front until none is left. */
  ghost function GivenAll(p: Proc, t: nat): (r: Proc)
    requires KidsOk(p, t)
    decreases |p.childs[t]|
  {
    if p.childs[t] == [] then p else GivenAll(Given(p, t, p.childs[t][0]), t)
  }

  /** The loop turns idle's ring into its old children followed by the orphans in order. */
  lemma {:induction false} GivenAllIs(p: Proc, t: nat)
    requires KidsOk(p, t)
    ensures var kids := p.childs[t];
      GivenAll(p, t) == p.(task := Reparent(p.task, kids), childs := p.childs[0 := p.childs[0] + kids][t := []])
    decreases |p.childs[t]|
  {
    var kids := p.childs[t];
    if kids == [] {
      assert p.childs[0] + kids == p.childs[0];
      assert p.childs[0 := p.childs[0]][t := []] == p.childs;
    } else {
      var q := Given(p, t, kids[0]);
      GivenAllIs(q, t);
      assert p.childs[0] + kids == (p.childs[0] + [kids[0]]) + kids[1..];
      assert q.childs[0 := q.childs[0] + kids[1..]][t := []] == p.childs[0 := p.childs[0] + kids][t := []];
    }
  }

  class ProcessTable {
    const task: array<Task>
    /** readyq, freeq and blocked, linked through `anchor`. */
    const queues: QueueSet
    /** One `childs` ring per slot, linked through `child_anchor`. */
    const kin: QueueSet
    var current: nat
    var quantumTicks: int
    var lastPid: int

    constructor (task: array<Task>, queues: QueueSet, kin: QueueSet)
      ensures this.task == task && this.queues == queues && this.kin == kin
      ensures current == 0 && quantumTicks == 0 && lastPid == 1
    {
      this.task, this.queues, this.kin := task, queues, kin;
      current, quantumTicks, lastPid := 0, 0, 1;
    }

    /** Everything a call may write. */
    ghost function Objects(): set<object> {
      {this, task, queues, kin} + queues.objects + kin.objects
    }

    ghost predicate Layout() {
      && queues != kin && queues.objects !! kin.objects
      && |queues.heads| == 3 && |queues.nodes| == NR_TASKS
      && |kin.heads| == NR_TASKS && |kin.nodes| == NR_TASKS && task.Length == NR_TASKS
    }

    /** The queues are in order; null links decide membership. */
    ghost predicate QueuesOk()
      reads queues, queues.objects
    {
      queues.Valid() && queues.act == {READYQ, FREEQ, BLOCKED} && queues.NullOutside()
    }

    /** The data structures are in order, also in the middle of a call. */
    ghost predicate Wired()
      reads this, task, queues, kin, queues.objects, kin.objects
    {
      Layout() && current < NR_TASKS && QueuesOk() && kin.Valid()
    }

    ghost function Table(): Proc
      requires Wired()
      reads this, task, queues, kin, queues.objects, kin.objects
    {
      Proc(current, task[..], queues.qs[READYQ], queues.qs[FREEQ], queues.qs[BLOCKED], kin.qs, quantumTicks, lastPid)
    }

    // ----- sched.c

    /** The head of readyq, taken off it by update_process_state_rr(next, NULL). */
    method PopReady() returns (next: nat)
      requires Wired() && queues.qs[READYQ] != []
      modifies queues`qs, queues.objects
      ensures Wired() && next == old(queues.qs)[READYQ][0]
      ensures Table() == old(Table()).(readyq := old(Table()).readyq[1..])
    {
      next := queues.First(READYQ);
      assert next in queues.qs[READYQ];
      queues.Unlink(next);
    }

    /** sched_next_rr up to the switch */
    method NextSlot() returns (next: nat)
      requires Wired()
      modifies queues`qs, queues.objects
      ensures Wired() && next == SchedNext(old(Table())).cur
      ensures Table() == SchedNext(old(Table())).(cur := current)
    {
      var empty := queues.Empty(READYQ);
      if empty {
        next := 0;
      } else {
        next := PopReady();
      }
    }

    /** needs_sched_rr after update_sched_data_rr: true when the quantum is used up and somebody waits. */
    method NeedsSched() returns (switch: bool)
      requires Wired()
      modifies this`quantumTicks
      ensures Wired() && Table() == old(Table()).(ticks := TickedDown(old(Table())))
      ensures switch <==> quantumTicks < 0
    {
      quantumTicks := quantumTicks - 1;
      var empty := queues.Empty(READYQ);
      if empty {
        quantumTicks := task[current].quantum;
      }
      switch := quantumTicks < 0;
    }

    /** update_process_state_rr(current(), &readyq): the running slot is on no queue, so it is only appended. */
    method Requeue()
      requires Wired() && !queues.Queued(current)
      modifies queues`qs, queues.objects
      ensures Wired() && Table() == old(Table()).(readyq := old(Table()).readyq + [current])
    {
      queues.Unlink(current);
      queues.AddTail(READYQ, current);
    }

    /** scheduler up to the switch: the slot to run, which is the current one if nothing is switched. */
    method Scheduler() returns (next: nat)
      requires Wired() && !queues.Queued(current)
      modifies this`quantumTicks, queues`qs, queues.objects
      ensures Wired() && next == StepTick(old(Table())).cur
      ensures Table() == StepTick(old(Table())).(cur := current)
    {
      var switch := NeedsSched();
      next := current;
      if switch {
        Requeue();
        next := NextSlot();
      }
    }

    /** task_switch makes another slot the one current() finds. */
    method Dispatch(next: nat)
      requires Wired() && next < NR_TASKS
      modifies this`current
      ensures Wired() && Table() == old(Table()).(cur := next)
    {
      current := next;
    }

    // ----- sys.c: block and unblock

    /** sys_block up to the switch */
    method Block() returns (next: nat)
      requires Wired() && !queues.Queued(current)
      modifies task, queues`qs, queues.objects
      ensures Wired() && next == StepBlock(old(Table())).cur
      ensures Table() == StepBlock(old(Table())).(cur := current)
    {
      var t := task[current];
      if t.pending != 0 {
        task[current] := t.(pending := t.pending - 1);
        next := current;
      } else {
        queues.AddTail(BLOCKED, current);
        next := NextSlot();
      }
    }

    /** The first loop of sys_unblock: list_for_each over the caller's children. */
    method FindChild(pid: int) returns (c: int)
      requires Wired() && current in kin.act
      ensures c == FindPid(task[..], kin.qs[current], pid)
    {
      ghost var ring, ts := kin.qs[current], task[..];
      SearchStart(pid);
      var head := kin.heads[current];
      ghost var i := 0;
      var pos := head.next;
      c := NOBODY;
      while pos != head
        invariant 0 <= i <= |ring| && pos == Cursor(i) && InTable(ts, ring)
        invariant FindPid(ts, ring, pid) == SearchFrom(ts, ring, i, pid)
        decreases |ring| - i
      {
        SearchRound(i);
        var tmp := pos.slot;
        if task[tmp].pid == pid {
          return tmp;
        }
        pos := pos.next;
        i := i + 1;
      }
    }

    /** The node the cursor of that loop is at, the head again at the end. */
    ghost function Cursor(i: nat): ListHead
      requires Wired() && current in kin.act && i <= |kin.qs[current]|
      reads this, task, queues, kin, queues.objects, kin.objects
    {
      if i < |kin.qs[current]| then kin.nodes[kin.qs[current][i]] else kin.heads[current]
    }

    lemma SearchStart(pid: int)
      requires Wired() && current in kin.act
      ensures var ring := kin.qs[current];
        && kin.heads[current].next == Cursor(0) && InTable(task[..], ring)
        && FindPid(task[..], ring, pid) == SearchFrom(task[..], ring, 0, pid)
    {
      kin.StepAlong(current, 0);
      SearchIsFind(task[..], kin.qs[current], 0, pid);
      assert kin.qs[current][0..] == kin.qs[current];
    }

    /** One round: the slot at the cursor, and the next node. */
    lemma SearchRound(i: nat)
      requires Wired() && current in kin.act && i < |kin.qs[current]|
      ensures var x := kin.qs[current][i];
        x < NR_TASKS && Cursor(i) == kin.nodes[x] && Cursor(i).slot == x && Cursor(i).next == Cursor(i + 1)
    {
      kin.StepAlong(current, i + 1);
    }

    /** The second loop of sys_unblock: list_for_each over blocked. */
    method IsBlocked(c: nat) returns (trobat: bool)
      requires Wired() && c < NR_TASKS
      ensures trobat <==> c in queues.qs[BLOCKED]
    {
      ghost var ring := queues.qs[BLOCKED];
      var head := queues.heads[BLOCKED];
      ghost var i := 0;
      queues.StepAlong(BLOCKED, 0);
      var pos := head.next;
      trobat := false;
      while pos != head
        invariant 0 <= i <= |ring| && pos == if i < |ring| then queues.nodes[ring[i]] else head
        invariant c !in ring[..i]
        decreases |ring| - i
      {
        if queues.nodes[c] == pos {
          return true;
        }
        queues.StepAlong(BLOCKED, i + 1);
        pos := pos.next;
        i := i + 1;
      }
    }

    /** From blocked to the end of readyq. */
    method Wake(c: nat)
      requires Wired() && c < NR_TASKS && c in queues.qs[BLOCKED]
      modifies queues`qs, queues.objects
      ensures Wired()
      ensures Table() == old(Table()).(blocked := Without(old(Table()).blocked, c), readyq := old(Table()).readyq + [c])
    {
      queues.Del(BLOCKED, c);
      queues.AddTail(READYQ, c);
    }

    /** The unblock is left pending. */
    method AddPending(c: nat)
      requires Wired() && c < NR_TASKS
      modifies task
      ensures Wired()
      ensures var p := old(Table()); Table() == p.(task := p.task[c := p.task[c].(pending := p.task[c].pending + 1)])
    {
      task[c] := task[c].(pending := task[c].pending + 1);
    }

    /** What sys_unblock does to the child it has found. */
    method Deliver(c: nat)
      requires Wired() && c < NR_TASKS
      modifies task, queues`qs, queues.objects
      ensures Wired()
      ensures var p := old(Table());
        Table() == if c in p.blocked then p.(blocked := Without(p.blocked, c), readyq := p.readyq + [c])
                   else p.(task := p.task[c := p.task[c].(pending := p.task[c].pending + 1)])
    {
      var trobat := IsBlocked(c);
      if !trobat {
        AddPending(c);
      } else {
        Wake(c);
      }
    }

    /** sys_unblock */
    method Unblock(pid: int) returns (r: int)
      requires Wired() && current in kin.act
      modifies task, queues`qs, queues.objects
      ensures Wired()
      ensures Table() == StepUnblock(old(Table()), pid)
      ensures r == if FindPid(old(task[..]), kin.qs[current], pid) == NOBODY then -1 else 0
    {
      ghost var p := Table();
      var c := FindChild(pid);
      assert c == FindPid(p.task, p.childs[p.cur], pid);
      if c == NOBODY {
        return -1;
      }
      Deliver(c);
      return 0;
    }

    // ----- sys.c: exit

    /** The process leaves the ring of its parent, if it has one. */
    method LeaveRing()
      requires Wired() && NOBODY <= task[current].parent < NR_TASKS
      requires task[current].parent != NOBODY ==> current in kin.qs[task[current].parent]
      modifies kin`qs, kin.objects
      ensures Wired() && Table() == old(Table()).(childs := LeaveParent(old(Table())))
    {
      var a := task[current].parent;
      if a != NOBODY {
        kin.Del(a, current);
      }
    }

    /** One round of the exit loop: a child is given to idle. */
    method GiveToIdle(t: nat, c: nat)
      requires Wired() && 0 < t < NR_TASKS && c < NR_TASKS && c in kin.qs[t] && 0 in kin.act
      modifies task, kin`qs, kin.objects
      ensures Wired()
      ensures Table() == Given(old(Table()), t, c)
    {
      task[c] := task[c].(parent := 0);
      kin.Del(t, c);
      kin.AddTail(0, c);
    }

    /** The first child is given to idle; `n` is where the loop goes on, read before the links change. */
    method GiveFirst(t: nat, pos: ListHead) returns (n: ListHead)
      requires Wired() && 0 < t < NR_TASKS && t in kin.act && 0 in kin.act
      requires kin.qs[t] != [] && pos == kin.nodes[kin.qs[t][0]]
      modifies task, kin`qs, kin.objects
      ensures Wired() && Table() == Given(old(Table()), t, old(kin.qs)[t][0])
      ensures var ring := old(kin.qs)[t]; n == if 1 < |ring| then kin.nodes[ring[1]] else kin.heads[t]
    {
      kin.StepAlong(t, 1);
      n := pos.next;
      GiveToIdle(t, pos.slot);
    }

    /** The loop of sys_exit: list_for_each_safe over the children, each moved to the end of idle's ring. */
    method HandOver()
      requires Wired() && 0 < current && current in kin.act && 0 in kin.act
      modifies task, kin`qs, kin.objects
      ensures Wired() && KidsOk(old(Table()), current) && Table() == GivenAll(old(Table()), current)
    {
      var t := current;
      var head := kin.heads[t];
      kin.StepAlong(t, 0);
      var pos := head.next;
      while pos != head
        invariant Wired() && KidsOk(Table(), t) && GivenAll(Table(), t) == GivenAll(old(Table()), t)
        invariant pos == if kin.qs[t] == [] then head else kin.nodes[kin.qs[t][0]]
        decreases |kin.qs[t]|
      {
        pos := GiveFirst(t, pos);
      }
    }

    /** The first part of sys_exit: out of the tree, with the children handed to idle. */
    method LeaveTree()
      requires Wired() && CanExit(Table()) && current in kin.act && 0 in kin.act && task[current].parent != current
      requires task[current].parent != NOBODY ==> current in kin.qs[task[current].parent]
      modifies task, kin`qs, kin.objects
      ensures Wired() && Table() == LeftTree(old(Table()))
    {
      LeaveRing();
      GivenAllIs(Table(), current);
      HandOver();
    }

    /** The last part of sys_exit: the slot is free and somebody else runs. */
    method GiveUpSlot()
      requires Wired() && !queues.Queued(current)
      modifies this`current, queues`qs, queues.objects
      ensures Wired()
      ensures Table() == SchedNext(old(Table()).(freeq := old(Table()).freeq + [old(current)]))
    {
      queues.AddTail(FREEQ, current);
      var next := NextSlot();
      Dispatch(next);
    }

    // ----- sys.c: fork

    /** list_first and list_del on freeq */
    method DetachFree() returns (n: nat)
      requires Wired() && queues.qs[FREEQ] != []
      modifies queues`qs, queues.objects
      ensures Wired() && n == old(queues.qs)[FREEQ][0] && !queues.Queued(n)
      ensures forall x :: !old(queues.Queued(x)) ==> !queues.Queued(x)
      ensures Table() == old(Table()).(freeq := old(Table()).freeq[1..])
    {
      n := queues.First(FREEQ);
      assert n in queues.qs[FREEQ];
      queues.Del(FREEQ, n);
    }

    /** The part of copy_data(current(), new_s, 4096) that copies link fields, pointers and all. */
    method CopyLinks(n: nat)
      requires Wired() && n < NR_TASKS && !queues.Queued(current) && !queues.Queued(n)
      requires !kin.Queued(n) && kin.qs[n] == []
      modifies queues.objects, kin`act, kin.objects
      ensures Wired() && kin.act == old(kin.act) - {n} && Table() == old(Table())
      ensures SameLinks(queues.nodes[n], old(queues.nodes[current].next), old(queues.nodes[current].prev))
      ensures SameLinks(kin.nodes[n], old(kin.nodes[current].next), old(kin.nodes[current].prev))
      ensures SameLinks(kin.heads[n], old(kin.heads[current].next), old(kin.heads[current].prev))
    {
      CopyAnchor(n);
      CopyKinship(n);
    }

    ghost predicate SameLinks(node: ListHead, next: ListHead?, prev: ListHead?)
      reads node
    {
      node.next == next && node.prev == prev
    }

    method CopyAnchor(n: nat)
      requires Wired() && n < NR_TASKS && !queues.Queued(current) && !queues.Queued(n)
      modifies queues.objects
      ensures Wired() && Table() == old(Table())
      ensures SameLinks(queues.nodes[n], old(queues.nodes[current].next), old(queues.nodes[current].prev))
    {
      ghost var rings := kin.qs;
      queues.CopyNode(n, current);
      assert kin.Valid() && kin.qs == rings;
    }

    method CopyKinship(n: nat)
      requires Wired() && n < NR_TASKS && !kin.Queued(n) && kin.qs[n] == []
      modifies kin`act, kin.objects
      ensures Wired() && kin.act == old(kin.act) - {n} && Table() == old(Table())
      ensures SameLinks(kin.nodes[n], old(kin.nodes[current].next), old(kin.nodes[current].prev))
      ensures SameLinks(kin.heads[n], old(kin.heads[current].next), old(kin.heads[current].prev))
    {
      ghost var rings := queues.qs;
      assert kin.nodes[n] in kin.nodes && kin.heads[n] in kin.heads && kin.heads[current] in kin.heads;
      kin.CopyNode(n, current);
      kin.CopyHead(n, current);
      assert QueuesOk() && queues.qs == rings;
    }

    /** The part of the copy that is the rest of the descriptor, and allocate_DIR. */
    method CopyDescriptor(n: nat)
      requires Wired() && n < NR_TASKS
      modifies task
      ensures Wired()
      ensures Table() == old(Table()).(task := old(task[..])[n := old(task[..])[current].(dir := n)])
    {
      task[n] := task[current];
      task[n] := task[n].(dir := n);
    }

    /** Takes the first free slot and copies the running slot over it: descriptor, links and all. */
    method TakeSlot() returns (n: nat)
      requires Wired() && !queues.Queued(current)
      requires queues.qs[FREEQ] != [] && queues.qs[FREEQ][0] != current
      requires !kin.Queued(queues.qs[FREEQ][0]) && kin.qs[queues.qs[FREEQ][0]] == []
      modifies task, queues`qs, queues.objects, kin`act, kin.objects
      ensures Wired() && n == old(queues.qs)[FREEQ][0] && kin.act == old(kin.act) - {n}
      ensures !queues.Queued(n)
      ensures Table() == StepForkNoFrames(old(Table()))
    {
      n := DetachFree();
      CopyLinks(n);
      CopyDescriptor(n);
    }

    /** new_pid until the number differs from the slot: at most twice. */
    method FreshPid(pos: nat) returns (pid: int)
      requires Wired()
      modifies this`lastPid
      ensures Wired() && pid == NextPid(old(lastPid), pos) && Table() == old(Table()).(lastPid := pid)
      ensures pid != pos && (pid == old(lastPid) + 1 || (pid == old(lastPid) + 2 && pos == old(lastPid) + 1))
    {
      lastPid := lastPid + 1;
      pid := lastPid;
      while pid == pos
        invariant Wired() && pid == lastPid && Table() == old(Table()).(lastPid := pid)
        invariant pid == old(lastPid) + 1 || (old(lastPid) + 1 == pos && pid == old(lastPid) + 2)
        decreases old(lastPid) + 2 - pid
      {
        lastPid := lastPid + 1;
        pid := lastPid;
      }
    }

    /** INIT_LIST_HEAD on the child's ring, and the child at the end of its parent's. */
    method JoinFamily(n: nat)
      requires Wired() && n < NR_TASKS && n != current && !kin.Queued(n) && kin.qs[n] == [] && current in kin.act
      modifies kin`qs, kin`act, kin.objects
      ensures Wired() && kin.act == old(kin.act) + {n}
      ensures Table() == old(Table()).(childs := old(kin.qs)[current := old(kin.qs)[current] + [n]])
    {
      kin.Init(n);
      kin.AddTail(current, n);
    }

    /** PID and parent of the child. */
    method NameChild(n: nat) returns (pid: int)
      requires Wired() && n < NR_TASKS
      modifies this`lastPid, task
      ensures Wired() && pid == lastPid == NextPid(old(lastPid), n)
      ensures Table() == old(Table()).(lastPid := pid,
        task := old(task[..])[n := old(task[..])[n].(pid := pid, parent := current)])
    {
      pid := FreshPid(n);
      task[n] := task[n].(pid := pid);
      task[n] := task[n].(parent := current);
    }

    /** PID, parent and family of the child. */
    method Join(n: nat) returns (pid: int)
      requires Wired() && n < NR_TASKS && n != current && current in kin.act && !kin.Queued(n) && kin.qs[n] == []
      modifies this`lastPid, task, kin`qs, kin`act, kin.objects
      ensures Wired() && kin.act == old(kin.act) + {n}
      ensures Table() == Joined(old(Table()), n) && pid == lastPid
    {
      pid := NameChild(n);
      JoinFamily(n);
      assert old(kin.qs)[n := []] == old(kin.qs);
    }

    /** list_add_tail of the child on readyq */
    method Enqueue(n: nat)
      requires Wired() && n < NR_TASKS && !queues.Queued(n)
      modifies queues`qs, queues.objects
      ensures Wired() && Table() == old(Table()).(readyq := old(Table()).readyq + [n])
    {
      queues.AddTail(READYQ, n);
    }

    /** The last part of sys_fork on the table. */
    method LinkChild(n: nat) returns (pid: int)
      requires Wired() && n < NR_TASKS && n != current && current in kin.act
      requires !kin.Queued(n) && kin.qs[n] == [] && !queues.Queued(n)
      modifies this`lastPid, task, queues`qs, queues.objects, kin`qs, kin`act, kin.objects
      ensures Wired() && kin.act == old(kin.act) + {n}
      ensures Table() == Linked(old(Table()), n) && pid == lastPid
    {
      pid := Join(n);
      Enqueue(n);
    }

    // ----- Boot

    /** Zeroed static storage, before any initialisation. */
    ghost predicate Zeroed()
      reads this, task, queues, kin, queues.objects, kin.objects
    {
      && Layout() && queues.Layout() && kin.Layout() && current < NR_TASKS
      && queues.qs == [[], [], []] && queues.act == {} && queues.NullOutside()
      && kin.qs == seq(NR_TASKS, _ => []) && kin.act == {}
      && task[..] == seq(NR_TASKS, _ => Task(0, 0, NOBODY, 0, 0))
    }

    method InitHeads()
      requires Zeroed()
      modifies queues`act, queues.objects
      ensures QueuesOk() && queues.qs == [[], [], []]
    {
      queues.Init(READYQ);
      queues.Init(FREEQ);
      queues.Init(BLOCKED);
    }

    /** One round of the loop of init_sched. */
    method AddFree(i: nat)
      requires Layout() && QueuesOk() && 2 <= i < NR_TASKS && queues.qs == [[], seq(i - 2, k => k + 2), []]
      modifies queues`qs, queues.objects
      ensures QueuesOk() && queues.qs == [[], seq(i - 1, k => k + 2), []]
    {
      assert forall x :: x in queues.qs[FREEQ] ==> x < i;
      queues.AddTail(FREEQ, i);
      assert seq(i - 2, k => k + 2) + [i] == seq(i - 1, k => k + 2);
    }

    /** init_sched */
    method InitSched()
      requires Zeroed()
      modifies queues`qs, queues`act, queues.objects
      ensures Wired() && queues.qs == [[], seq(NR_TASKS - 2, i => i + 2), []]
    {
      InitHeads();
      assert seq(0, k => k + 2) == [];
      for i := 2 to NR_TASKS
        invariant QueuesOk() && queues.qs == [[], seq(i - 2, k => k + 2), []]
      {
        AddFree(i);
      }
      assert kin.Valid();
    }

    /** init_idle */
    method InitIdle()
      requires Wired() && kin.qs[0] == [] && task[0] == Task(0, 0, NOBODY, 0, 0)
      modifies task, kin`act, kin.objects
      ensures Wired() && kin.act == old(kin.act) + {0}
      ensures task[..] == old(task[..])[0 := Task(0, IDLE_QUANTUM, NOBODY, 0, 0)]
    {
      Describe(0, 0, IDLE_QUANTUM);
    }

    /** What init_idle and init_task1 do to a descriptor. */
    method Describe(s: nat, pid: int, quantum: int)
      requires Wired() && s < NR_TASKS && kin.qs[s] == [] && task[s] == Task(0, 0, NOBODY, 0, 0)
      modifies task, kin`act, kin.objects
      ensures Wired() && kin.act == old(kin.act) + {s}
      ensures task[..] == old(task[..])[s := Task(pid, quantum, NOBODY, 0, s)]
    {
      SetPidAndQuantum(s, pid, quantum);
      InitChilds(s);
      AllocateDir(s);
    }

    /** The descriptor part of init_task1; from then on slot 1 runs. */
    method InitTask1()
      requires Wired() && kin.qs[1] == [] && task[1] == Task(0, 0, NOBODY, 0, 0)
      modifies this, task, kin`act, kin.objects
      ensures Wired() && kin.act == old(kin.act) + {1}
      ensures task[..] == old(task[..])[1 := Task(1, INIT_QUANTUM, NOBODY, 0, 1)]
      ensures current == 1 && quantumTicks == INIT_QUANTUM && lastPid == 1
    {
      Describe(1, 1, INIT_QUANTUM);
      Begin();
    }

    /** The first quantum, and slot 1 runs. */
    method Begin()
      requires Wired()
      modifies this
      ensures Wired() && current == 1 && quantumTicks == INIT_QUANTUM && lastPid == 1
    {
      quantumTicks := INIT_QUANTUM;
      current, lastPid := 1, 1;
    }

    /** INIT_LIST_HEAD on the childs of a slot */
    method InitChilds(s: nat)
      requires Wired() && s < NR_TASKS && kin.qs[s] == []
      modifies kin`act, kin.objects
      ensures Wired() && kin.act == old(kin.act) + {s}
    {
      ghost var rings := queues.qs;
      kin.Init(s);
      assert QueuesOk() && queues.qs == rings;
    }

    method SetPidAndQuantum(s: nat, pid: int, quantum: int)
      requires Wired() && s < NR_TASKS
      modifies task
      ensures Wired()
      ensures task[..] == old(task[..])[s := old(task[..])[s].(pid := pid, quantum := quantum)]
    {
      task[s] := task[s].(pid := pid);
      task[s] := task[s].(quantum := quantum);
    }

    /** allocate_DIR */
    method AllocateDir(s: nat)
      requires Wired() && s < NR_TASKS
      modifies task
      ensures Wired() && task[..] == old(task[..])[s := old(task[..])[s].(dir := s)]
    {
      task[s] := task[s].(dir := s);
    }

    method InitTable()
      requires Zeroed()
      modifies this, task, queues`qs, queues`act, queues.objects, kin`act, kin.objects
      ensures Wired() && Table() == Boot() && kin.act == {0, 1}
    {
      InitSched();
      InitIdle();
      InitTask1();
      assert task[..] == Boot().task;
    }

    // ----- Whole calls, on the table

    /** The table is in a state a run can reach, and every ring in use has been initialised. */
    ghost predicate Valid()
      reads this, task, queues, kin, queues.objects, kin.objects
    {
      Wired() && Inv(Table()) && HeadsReady()
    }

    /** The child ring of every process, and of idle, has been initialised. */
    ghost predicate HeadsReady()
      requires Wired()
      reads this, task, queues, kin, queues.objects, kin.objects
    {
      forall s :: 0 <= s < NR_TASKS && (s == 0 || Live(Table(), s)) ==> s in kin.act
    }

    /** In such a state the running slot is on no queue, so a null test on it never deletes anything. */
    lemma RunningIsUnqueued()
      requires Valid()
      ensures !queues.Queued(current)
      ensures current in kin.act && 0 in kin.act
    {
      assert forall k :: 0 <= k < 3 ==> current !in queues.qs[k];
      assert current != 0 ==> Live(Table(), current);
    }

    /** A clock tick: scheduler() */
    method Tick()
      requires Valid()
      modifies this`current, this`quantumTicks, queues`qs, queues.objects
      ensures Valid() && Table() == Step(old(Table()), Call.Tick)
    {
      RunningIsUnqueued();
      StepKeeps(Table(), Call.Tick);
      LiveStep(Table(), Call.Tick);
      var next := Scheduler();
      Dispatch(next);
    }

    method SysBlock()
      requires Valid() && current != 0
      modifies this`current, task, queues`qs, queues.objects
      ensures Valid() && Table() == Step(old(Table()), Call.Block)
    {
      RunningIsUnqueued();
      StepKeeps(Table(), Call.Block);
      LiveStep(Table(), Call.Block);
      var next := Block();
      Dispatch(next);
    }

    method SysUnblock(pid: int) returns (r: int)
      requires Valid() && current != 0
      modifies task, queues`qs, queues.objects
      ensures Valid() && Table() == Step(old(Table()), Call.Unblock(pid))
      ensures r == if exists c :: c in old(kin.qs)[current] && old(task[..])[c].pid == pid then 0 else -1
    {
      RunningIsUnqueued();
      StepKeeps(Table(), Call.Unblock(pid));
      LiveStep(Table(), Call.Unblock(pid));
      r := Unblock(pid);
    }

    /** The first part of sys_exit, by a process of a reachable table. */
    method Depart()
      requires Valid() && current != 0
      modifies task, kin`qs, kin.objects
      ensures Wired() && CanExit(old(Table())) && Table() == LeftTree(old(Table()))
      ensures kin.act == old(kin.act) && !queues.Queued(current)
    {
      ghost var rings := queues.qs;
      RunningIsUnqueued();
      ExitReady(Table());
      LeaveTree();
      assert queues.qs == rings;
    }

    /** sys_exit without its memory part */
    method ExitTable()
      requires Wired() && CanExit(Table()) && current in kin.act && 0 in kin.act && task[current].parent != current
      requires task[current].parent != NOBODY ==> current in kin.qs[task[current].parent]
      requires !queues.Queued(current)
      modifies this`current, task, queues`qs, queues.objects, kin`qs, kin.objects
      ensures Wired() && kin.act == old(kin.act) && Table() == StepExit(old(Table()))
    {
      LeaveTree();
      GiveUpSlot();
    }

    method SysExit()
      requires Valid() && current != 0
      modifies this`current, task, queues`qs, queues.objects, kin`qs, kin.objects
      ensures Valid() && Table() == Step(old(Table()), Call.Exit)
    {
      RunningIsUnqueued();
      ExitReady(Table());
      ExitTable();
    }

    /** What sys_fork may rely on: the slot it takes is on freeq only, heads no ring and is nobody's child. */
    lemma FreeSlotIsBare()
      requires Valid() && queues.qs[FREEQ] != []
      ensures var n := queues.qs[FREEQ][0];
        n < NR_TASKS && n != current && !kin.Queued(n) && kin.qs[n] == [] && !Live(Table(), n)
    {
      var n := queues.qs[FREEQ][0];
      assert n in Table().freeq;
      FreeIsBare(Table(), n);
    }

    /** sys_fork, given whether the memory part finds its frames; if not, the slot has been taken and stays lost. */
    method SysFork(frames: bool) returns (pid: int)
      requires Valid() && current != 0
      modifies this`lastPid, task, queues`qs, queues.objects, kin`qs, kin`act, kin.objects
      ensures Wired() && (frames || old(queues.qs)[FREEQ] == [] ==> Valid())
      ensures frames ==> Table() == Step(old(Table()), Call.Fork)
      ensures !frames ==> (ForkPre(old(Table())); Table() == StepForkNoFrames(old(Table())))
      ensures pid == if frames && old(queues.qs)[FREEQ] != [] then lastPid else -1
    {
      ForkPre(Table());
      StepKeeps(Table(), Call.Fork);
      RunningIsUnqueued();
      var empty := queues.Empty(FREEQ);
      if empty {
        return -1;
      }
      FreeSlotIsBare();
      ForkParts(Table());
      TakeThenLink(Table());
      var n := TakeSlot();
      if !frames {
        return -1;
      }
      pid := LinkChild(n);
    }
  }
}
