/** The memory init_mm and init_task1 build: boot tables, the bytemap, and the first process's pages. */
module MemoryBoot {
  import opened Config
  import opened Memory

  /** init_table_pages, for one slot: the kernel's pages map to themselves, page 0 is left out. */
  function BootTable(): seq<Pte> {
    seq(TOTAL_PAGES, i => if 1 <= i < NUM_PAG_KERNEL then KernelPte(i) else UNMAPPED)
  }

  /** init_frames */
  function BootUsed(): seq<bool> {
    seq(TOTAL_PAGES, i => i < NUM_PAG_KERNEL)
  }

  /** init_mm over whatever the frames contain */
  function InitMm(phys: seq<Byte>): Mem {
    Mem(BootUsed(), seq(NR_TASKS, _ => BootTable()), phys, 0, {})
  }

  /** The 20-bit pbase_addr field, also for the unchecked -1 of alloc_frame. */
  function Field20(f: int): nat { f % 0x100000 }

  function Mark(used: seq<bool>, f: int): seq<bool> {
    if 0 <= f < |used| then used[f := true] else used
  }

  /** The page the k-th round of set_user_pages fills. */
  function UserPage(k: nat): nat {
    if k < NUM_PAG_CODE then PAG_LOG_INIT_CODE + k else PAG_LOG_INIT_DATA + (k - NUM_PAG_CODE)
  }

  function UserPte(k: nat, f: nat): Pte {
    if k < NUM_PAG_CODE then CodePte(f) else DataPte(f)
  }

  /** One round of set_user_pages: page number `k`, code before data, in the next free frame. */
  function SetUserPage(m: Mem, s: nat, k: nat): (r: Mem)
    requires Sizes(m) && s < NR_TASKS && k < NUM_PAG_CODE + NUM_PAG_DATA
    ensures Sizes(r)
  {
    var f := FreeFrom(m.used, NUM_PAG_KERNEL);
    m.(used := Mark(m.used, f), pt := m.pt[s := m.pt[s][UserPage(k) := UserPte(k, Field20(f))]])
  }

  /** set_user_pages: the first `n` rounds */
  function SetUserPages(m: Mem, s: nat, n: nat): (r: Mem)
    requires Sizes(m) && s < NR_TASKS && n <= NUM_PAG_CODE + NUM_PAG_DATA
    ensures Sizes(r)
    decreases n, |m.used|
  {
    if n == 0 then m else SetUserPage(SetUserPages(m, s, n - 1), s, n - 1)
  }

  function BootMem(phys: seq<Byte>): (r: Mem)
    requires |phys| == TOTAL_PAGES * PAGE_SIZE
    ensures Sizes(r)
  {
    SetCr3(SetUserPages(InitMm(phys), 1, NUM_PAG_CODE + NUM_PAG_DATA), 1)
  }

  lemma {:induction false} NextFree(used: seq<bool>, i: nat, f: nat)
    requires |used| == TOTAL_PAGES && i <= f < TOTAL_PAGES && i % 2 == f % 2 && !used[f]
    requires forall k :: i <= k < f && k % 2 == f % 2 ==> used[k]
    ensures FreeFrom(used, i) == f
    decreases f - i
  {
    if i < f { NextFree(used, i + 2, f); }
  }

  /** After `n` rounds the frames 256, 258, ... are in use, in that order. */
  ghost predicate FirstPages(m: Mem, r: Mem, n: nat)
    requires Sizes(m) && Sizes(r)
  {
    && r.phys == m.phys
    && (forall s :: 0 <= s < NR_TASKS && s != 1 ==> r.pt[s] == m.pt[s])
    && (forall k :: 0 <= k < n && k < NUM_PAG_CODE + NUM_PAG_DATA ==>
          r.pt[1][UserPage(k)] == UserPte(k, NUM_PAG_KERNEL + 2 * k))
    && (forall pg :: 0 <= pg < TOTAL_PAGES && !DataPage(pg) && !CodePage(pg) ==> r.pt[1][pg] == m.pt[1][pg])
    && (forall f :: 0 <= f < TOTAL_PAGES ==>
          r.used[f] == (f < NUM_PAG_KERNEL || (f < NUM_PAG_KERNEL + 2 * n && f % 2 == 0)))
  }

  lemma FirstPagesStep(m: Mem, r: Mem, n: nat)
    requires Sizes(m) && Sizes(r) && n < NUM_PAG_CODE + NUM_PAG_DATA && FirstPages(m, r, n)
    ensures var f := NUM_PAG_KERNEL + 2 * n;
      && FreeFrom(r.used, NUM_PAG_KERNEL) == f
      && FirstPages(m, SetUserPage(r, 1, n), n + 1)
      && Count(SetUserPage(r, 1, n).used, NUM_PAG_KERNEL) == Count(r.used, NUM_PAG_KERNEL) + 1
  {
    var f := NUM_PAG_KERNEL + 2 * n;
    NextFree(r.used, NUM_PAG_KERNEL, f);
    CountMark(r.used, NUM_PAG_KERNEL, f, true);
  }

  lemma {:induction false} SetUserPagesIs(m: Mem, n: nat)
    requires Sizes(m) && m.used == BootUsed() && n <= NUM_PAG_CODE + NUM_PAG_DATA
    ensures var r := SetUserPages(m, 1, n);
      && FirstPages(m, r, n)
      && Count(r.used, NUM_PAG_KERNEL) == Count(m.used, NUM_PAG_KERNEL) + n
  {
    if n > 0 {
      SetUserPagesIs(m, n - 1);
      FirstPagesStep(m, SetUserPages(m, 1, n - 1), n - 1);
    }
  }

  lemma {:induction false} CountNone(used: seq<bool>, i: nat)
    requires |used| == TOTAL_PAGES && forall f :: i <= f < TOTAL_PAGES ==> !used[f]
    ensures Count(used, i) == 0
    decreases TOTAL_PAGES - i
  {
    if i < TOTAL_PAGES { CountNone(used, i + 2); }
  }

  lemma FirstProcessMap(phys: seq<Byte>, r: Mem)
    requires |phys| == TOTAL_PAGES * PAGE_SIZE && Sizes(r)
    requires FirstPages(InitMm(phys), r, NUM_PAG_CODE + NUM_PAG_DATA)
    ensures FixedMap(r.pt[1]) && UserMap(r.used, r.pt[1]) && Bytemap(r.used)
    ensures forall pg :: DataPage(pg) ==>
      Frame(r, 1, pg) == NUM_PAG_KERNEL + 2 * (pg - PAG_LOG_INIT_DATA + NUM_PAG_CODE)
  {
    forall pg | CodePage(pg) ensures r.pt[1][pg] == CodePte(CodeFrame(pg)) {
      assert UserPage(pg - PAG_LOG_INIT_CODE) == pg;
    }
    forall pg | DataPage(pg)
      ensures r.pt[1][pg] == DataPte(NUM_PAG_KERNEL + 2 * (pg - PAG_LOG_INIT_DATA + NUM_PAG_CODE))
    {
      assert UserPage(pg - PAG_LOG_INIT_DATA + NUM_PAG_CODE) == pg;
    }
  }

  lemma BootTableIsBare()
    ensures FixedMap(BootTable()) && NoData(BootTable())
  {
  }

  /** The boot memory satisfies the invariant, with the initial process as the only live one. */
  lemma BootMemInv(phys: seq<Byte>)
    requires |phys| == TOTAL_PAGES * PAGE_SIZE
    ensures MemInv(BootMem(phys), {1})
  {
    var m := InitMm(phys);
    SetUserPagesIs(m, NUM_PAG_CODE + NUM_PAG_DATA);
    CountNone(m.used, NUM_PAG_KERNEL);
    var r := BootMem(phys);
    assert FirstPages(m, r, NUM_PAG_CODE + NUM_PAG_DATA);
    FirstProcessMap(phys, r);
    assert Private(r, {1});
    BootTableIsBare();
  }
}
