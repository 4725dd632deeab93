/**
 Physical frames, page tables and the TLB (mm.c, and the memory part of sys_fork and sys_exit),
 as values. A page table maps the 1024 logical pages of one slot; frames hold PAGE_SIZE bytes.
 */
module Memory {
  import opened Config

  type Byte = b: int | 0 <= b < 256

  datatype Pte = Pte(present: bool, rw: bool, user: bool, frame: nat)

  /** An entry written as 0. */
  const UNMAPPED := Pte(false, false, false, 0)

  function KernelPte(i: nat): Pte { Pte(true, true, false, i) }
  function CodePte(f: nat): Pte { Pte(true, false, true, f) }
  function DataPte(f: nat): Pte { Pte(true, true, true, f) }

  /**
   `used` is the phys_mem bytemap, `pt` the page table of each slot, `cr3` the slot whose directory
   is loaded, and `tlb` every translation used since it was loaded: the processor may still hold any of them.
   */
  datatype Mem = Mem(used: seq<bool>, pt: seq<seq<Pte>>, phys: seq<Byte>, cr3: nat, tlb: set<(nat, Pte)>)

  ghost predicate Sizes(m: Mem) {
    && |m.used| == TOTAL_PAGES && |m.phys| == TOTAL_PAGES * PAGE_SIZE
    && |m.pt| == NR_TASKS && (forall s :: 0 <= s < NR_TASKS ==> |m.pt[s]| == TOTAL_PAGES)
    && m.cr3 < NR_TASKS
  }

  // ----- Frames

  /** alloc_frame: the first free frame at an even distance, or -1. */
  function FreeFrom(used: seq<bool>, i: nat): (f: int)
    requires |used| == TOTAL_PAGES
    ensures f == -1 || (i <= f < TOTAL_PAGES && (f - i) % 2 == 0 && !used[f])
    ensures forall k :: i <= k < TOTAL_PAGES && (f == -1 || k < f) && (k - i) % 2 == 0 ==> used[k]
    decreases |used| - i
  {
    if i >= TOTAL_PAGES then -1 else if !used[i] then i else FreeFrom(used, i + 2)
  }

  /** The used frames among i, i + 2, i + 4, ... */
  function Count(used: seq<bool>, i: nat): nat
    requires |used| == TOTAL_PAGES
    decreases |used| - i
  {
    if i >= TOTAL_PAGES then 0 else (if used[i] then 1 else 0) + Count(used, i + 2)
  }

  /** alloc_frame fails only when every second frame from `i` on is in use. */
  lemma {:induction false} AllocFailsOnlyWhenFull(used: seq<bool>, i: nat)
    requires |used| == TOTAL_PAGES && i <= TOTAL_PAGES && FreeFrom(used, i) == -1
    ensures 2 * Count(used, i) >= TOTAL_PAGES - i
    decreases TOTAL_PAGES - i
  {
    if i + 2 <= TOTAL_PAGES { AllocFailsOnlyWhenFull(used, i + 2); }
  }

  lemma {:induction false} CountMark(used: seq<bool>, i: nat, f: nat, b: bool)
    requires |used| == TOTAL_PAGES && f < TOTAL_PAGES && i % 2 == f % 2
    ensures Count(used[f := b], i)
         == Count(used, i) + (if i <= f && used[f] != b then if b then 1 else -1 else 0)
    decreases TOTAL_PAGES - i
  {
    if i < TOTAL_PAGES { CountMark(used, i + 2, f, b); }
  }

  // ----- Frame contents

  function Page(phys: seq<Byte>, f: nat): seq<Byte> {
    if (f + 1) * PAGE_SIZE <= |phys| then phys[f * PAGE_SIZE..(f + 1) * PAGE_SIZE] else []
  }

  function CopyFrame(phys: seq<Byte>, src: nat, dst: nat): seq<Byte> {
    if (src + 1) * PAGE_SIZE <= |phys| && (dst + 1) * PAGE_SIZE <= |phys|
    then phys[..dst * PAGE_SIZE] + Page(phys, src) + phys[(dst + 1) * PAGE_SIZE..] else phys
  }

  lemma CopyFrameIs(phys: seq<Byte>, src: nat, dst: nat, f: nat)
    requires (src + 1) * PAGE_SIZE <= |phys| && (dst + 1) * PAGE_SIZE <= |phys| && (f + 1) * PAGE_SIZE <= |phys|
    ensures |CopyFrame(phys, src, dst)| == |phys|
    ensures Page(CopyFrame(phys, src, dst), f) == Page(phys, if f == dst then src else f)
  {
    var r := CopyFrame(phys, src, dst);
    if f == dst {
      assert r[dst * PAGE_SIZE..(dst + 1) * PAGE_SIZE] == Page(phys, src);
    } else {
      assert forall k :: f * PAGE_SIZE <= k < (f + 1) * PAGE_SIZE ==> r[k] == phys[k];
    }
  }

  // ----- sys_fork: private copies of the parent's data pages

  predicate DataPage(pg: int) { PAG_LOG_INIT_DATA <= pg < PAG_LOG_INIT_DATA + NUM_PAG_DATA }
  predicate CodePage(pg: int) { PAG_LOG_INIT_CODE <= pg < PAG_LOG_INIT_CODE + NUM_PAG_CODE }

  /** get_frame */
  function Frame(m: Mem, s: nat, pg: nat): nat
    requires s < |m.pt| && pg < |m.pt[s]|
  {
    m.pt[s][pg].frame
  }

  /** CODE: the child shares the parent's code entries. */
  function ShareCode(m: Mem, src: nat, dst: nat, n: nat): (r: Mem)
    requires Sizes(m) && src < NR_TASKS && dst < NR_TASKS && n <= NUM_PAG_CODE
    ensures Sizes(r)
    decreases n, |m.used|
  {
    if n == 0 then m else
    var r := ShareCode(m, src, dst, n - 1);
    var pg := PAG_LOG_INIT_CODE + n - 1;
    r.(pt := r.pt[dst := r.pt[dst][pg := r.pt[src][pg]]])
  }

  /** DATA: page `pg` gets frame `f`, filled through the temporary page, which is unmapped and flushed again. */
  function ForkPage(m: Mem, src: nat, dst: nat, pg: nat, f: nat): (r: Mem)
    requires Sizes(m) && src < NR_TASKS && dst < NR_TASKS && DataPage(pg) && f < TOTAL_PAGES
    ensures Sizes(r)
  {
    var pt := m.pt[dst := m.pt[dst][pg := DataPte(f)]];
    var phys := CopyFrame(m.phys, Frame(m, src, pg), f);
    Mem(m.used[f := true], pt[src := pt[src][TEMP_PAG := UNMAPPED]], phys, src, {})
  }

  /** free_frame, which spares frame NUM_PAG_KERNEL as well as the kernel's frames. */
  function FreeFrame(used: seq<bool>, f: nat): seq<bool>
    requires |used| == TOTAL_PAGES
  {
    if NUM_PAG_KERNEL < f < TOTAL_PAGES then used[f := false] else used
  }

  /** One round of free_user_pages. */
  function FreePage(m: Mem, s: nat, pg: nat): (r: Mem)
    requires Sizes(m) && s < NR_TASKS && DataPage(pg)
    ensures Sizes(r)
  {
    m.(used := FreeFrame(m.used, Frame(m, s, pg)), pt := m.pt[s := m.pt[s][pg := UNMAPPED]])
  }

  /** free_user_pages, and the roll-back of sys_fork: the first `n` data pages are given back. */
  function FreePages(m: Mem, s: nat, n: nat): (r: Mem)
    requires Sizes(m) && s < NR_TASKS && n <= NUM_PAG_DATA
    ensures Sizes(r)
    decreases n, |m.used|
  {
    if n == 0 then m else FreePage(FreePages(m, s, n - 1), s, PAG_LOG_INIT_DATA + n - 1)
  }

  datatype Forked = Forked(m: Mem, ok: bool)

  function ForkPages(m: Mem, src: nat, dst: nat, n: nat): (r: Forked)
    requires Sizes(m) && src < NR_TASKS && dst < NR_TASKS && n <= NUM_PAG_DATA
    ensures Sizes(r.m)
    decreases n, |m.used|
  {
    if n == 0 then Forked(m, true) else
    var r := ForkPages(m, src, dst, n - 1);
    if !r.ok then r else
    var f := FreeFrom(r.m.used, NUM_PAG_KERNEL);
    if f == -1 then Forked(FreePages(r.m, dst, n - 1), false)
    else Forked(ForkPage(r.m, src, dst, PAG_LOG_INIT_DATA + n - 1, f), true)
  }

  function ForkMem(m: Mem, src: nat, dst: nat): (r: Forked)
    requires Sizes(m) && src < NR_TASKS && dst < NR_TASKS
    ensures Sizes(r.m)
  {
    var r := ForkPages(ShareCode(m, src, dst, NUM_PAG_CODE), src, dst, NUM_PAG_DATA);
    if r.ok then Forked(SetCr3(r.m, src), true) else r
  }

  /** Once a frame is missing, the loop has ended. */
  lemma {:induction false} ForkPagesStops(m: Mem, src: nat, dst: nat, n: nat, k: nat)
    requires Sizes(m) && src < NR_TASKS && dst < NR_TASKS && n <= k <= NUM_PAG_DATA
    requires !ForkPages(m, src, dst, n).ok
    ensures ForkPages(m, src, dst, k) == ForkPages(m, src, dst, n)
  {
    if n < k { ForkPagesStops(m, src, dst, n, k - 1); }
  }

  /** set_cr3: loading a directory drops every cached translation. */
  function SetCr3(m: Mem, s: nat): Mem { m.(cr3 := s, tlb := {}) }

  // ----- A user access

  function SetByte(p: seq<Byte>, k: nat, v: Byte): seq<Byte> {
    if k < |p| then p[k := v] else p
  }

  /** A user read or write of one byte, by a translation that is cached or in the loaded page table. */
  datatype Access = Access(page: nat, pte: Pte, write: bool, off: nat, value: Byte)

  predicate Allowed(m: Mem, a: Access)
    requires Sizes(m)
  {
    && a.page < TOTAL_PAGES && a.off < PAGE_SIZE && a.pte.frame < TOTAL_PAGES
    && (a.pte == m.pt[m.cr3][a.page] || (a.page, a.pte) in m.tlb)
    && a.pte.present && a.pte.user && (a.write ==> a.pte.rw)
  }

  function UserAccess(m: Mem, a: Access): (r: Mem)
    requires Sizes(m)
    ensures Sizes(r)
  {
    if !Allowed(m, a) then m
    else m.(tlb := m.tlb + {(a.page, a.pte)},
            phys := if a.write then SetByte(m.phys, a.pte.frame * PAGE_SIZE + a.off, a.value) else m.phys)
  }

  /** The byte the page table of a slot shows at an offset of a page. */
  function ByteOf(m: Mem, s: nat, pg: nat, off: nat): Byte
    requires Sizes(m) && s < NR_TASKS && pg < TOTAL_PAGES
  {
    var a := Frame(m, s, pg) * PAGE_SIZE + off;
    if a < |m.phys| then m.phys[a] else 0
  }

  /** What a user access of the loaded slot sees there. */
  function ByteSeen(m: Mem, pg: nat, off: nat): Byte
    requires Sizes(m) && pg < TOTAL_PAGES
  {
    ByteOf(m, m.cr3, pg, off)
  }

  // ----- The invariant

  /** The frame of a code page: the first frames alloc_frame hands out at boot. */
  function CodeFrame(pg: nat): int { NUM_PAG_KERNEL + 2 * (pg - PAG_LOG_INIT_CODE) }

  /** A frame that may hold private data: an even distance from the kernel, behind the code frames. */
  predicate DataFrame(f: nat) {
    NUM_PAG_KERNEL + 2 * NUM_PAG_CODE <= f < TOTAL_PAGES && f % 2 == 0
  }

  /** Kernel and code frames are in use, and no frame at an odd distance ever is. */
  ghost predicate Bytemap(used: seq<bool>) {
    && |used| == TOTAL_PAGES
    && (forall f :: 0 <= f < NUM_PAG_KERNEL ==> used[f])
    && (forall f :: NUM_PAG_KERNEL <= f < NUM_PAG_KERNEL + 2 * NUM_PAG_CODE && f % 2 == 0 ==> used[f])
    && (forall f :: NUM_PAG_KERNEL <= f < TOTAL_PAGES && f % 2 == 1 ==> !used[f])
  }

  /** What any slot's page table may hold outside its data pages. */
  predicate FixedEntry(pg: nat, e: Pte) {
    if 1 <= pg < NUM_PAG_KERNEL then e == KernelPte(pg)
    else if CodePage(pg) then e == UNMAPPED || (CodeFrame(pg) >= 0 && e == CodePte(CodeFrame(pg)))
    else e == UNMAPPED
  }

  ghost predicate FixedMap(t: seq<Pte>) {
    |t| == TOTAL_PAGES && forall pg :: 0 <= pg < TOTAL_PAGES && !DataPage(pg) ==> FixedEntry(pg, t[pg])
  }

  /** The user pages of a live slot: the shared code, read-only, and private data in used frames. */
  ghost predicate UserMap(used: seq<bool>, t: seq<Pte>)
    requires |used| == TOTAL_PAGES && |t| == TOTAL_PAGES
  {
    && (forall pg :: CodePage(pg) ==> t[pg].present)
    && (forall pg :: DataPage(pg) ==>
          t[pg] == DataPte(t[pg].frame) && DataFrame(t[pg].frame) && used[t[pg].frame])
  }

  ghost predicate NoData(t: seq<Pte>)
    requires |t| == TOTAL_PAGES
  {
    forall pg :: DataPage(pg) ==> t[pg] == UNMAPPED
  }

  /** Data frames are injective within a task and disjoint between tasks. */
  ghost predicate Private(m: Mem, live: set<nat>)
    requires Sizes(m) && forall s :: s in live ==> s < NR_TASKS
  {
    forall s, t, i, j {:trigger Frame(m, s, i), Frame(m, t, j)} ::
      s in live && t in live && DataPage(i) && DataPage(j) && Frame(m, s, i) == Frame(m, t, j) ==>
        s == t && i == j
  }

  /** Every cached translation agrees with the loaded page table. */
  ghost predicate Coherent(m: Mem)
    requires Sizes(m)
  {
    forall pg, e :: (pg, e) in m.tlb ==> pg < TOTAL_PAGES && e.present && m.pt[m.cr3][pg] == e
  }

  ghost predicate MemInv(m: Mem, live: set<nat>) {
    && Sizes(m) && (forall s :: s in live ==> s < NR_TASKS)
    && Bytemap(m.used)
    && (forall s :: 0 <= s < NR_TASKS ==> FixedMap(m.pt[s]))
    && (forall s :: s in live ==> UserMap(m.used, m.pt[s]))
    && (forall s :: 0 <= s < NR_TASKS && s !in live ==> NoData(m.pt[s]))
    && Private(m, live)
    && Coherent(m)
    && Count(m.used, NUM_PAG_KERNEL) == NUM_PAG_CODE + NUM_PAG_DATA * |live|
  }

  // ----- Fork

  /** A parent can be copied: its data pages are mapped, nothing stale is cached, the temporary page is free. */
  ghost predicate Copyable(m: Mem, src: nat)
    requires Sizes(m) && src < NR_TASKS
  {
    && m.cr3 == src && Coherent(m) && !m.pt[src][TEMP_PAG].present
    && (forall pg :: DataPage(pg) ==> m.pt[src][pg].present && m.pt[src][pg].frame < TOTAL_PAGES)
  }

  lemma LiveIsCopyable(m: Mem, live: set<nat>)
    requires MemInv(m, live) && m.cr3 in live
    ensures Copyable(m, m.cr3)
  {
    assert UserMap(m.used, m.pt[m.cr3]) && FixedMap(m.pt[m.cr3]);
  }

  /** What the data loop has done below page `n`: fresh frames, each a copy of the parent's. */
  ghost predicate Copied(m: Mem, r: Mem, src: nat, dst: nat, n: nat)
    requires Sizes(m) && Sizes(r) && src < NR_TASKS && dst < NR_TASKS
  {
    && (forall s :: 0 <= s < NR_TASKS && s != dst ==> r.pt[s] == m.pt[s])
    && (forall pg :: 0 <= pg < TOTAL_PAGES && !(PAG_LOG_INIT_DATA <= pg < n) ==> r.pt[dst][pg] == m.pt[dst][pg])
    && (forall f :: 0 <= f < TOTAL_PAGES && m.used[f] ==> r.used[f] && Page(r.phys, f) == Page(m.phys, f))
    && (forall pg :: PAG_LOG_INIT_DATA <= pg < n && DataPage(pg) ==> CopiedPage(m, r, src, dst, pg))
    && (forall i, j :: PAG_LOG_INIT_DATA <= i < j < n && DataPage(j) ==> Frame(r, dst, i) != Frame(r, dst, j))
    && (forall f :: NUM_PAG_KERNEL <= f < TOTAL_PAGES && f % 2 == 1 ==> r.used[f] == m.used[f])
  }

  ghost predicate CopiedPage(m: Mem, r: Mem, src: nat, dst: nat, pg: nat)
    requires Sizes(m) && Sizes(r) && src < NR_TASKS && dst < NR_TASKS && DataPage(pg)
  {
    var f := Frame(r, dst, pg);
    && r.pt[dst][pg] == DataPte(f) && NUM_PAG_KERNEL <= f < TOTAL_PAGES && f % 2 == 0
    && !m.used[f] && r.used[f] && Page(r.phys, f) == Page(m.phys, Frame(m, src, pg))
  }

  lemma CopiedStep(m: Mem, r: Mem, src: nat, dst: nat, pg: nat, f: nat)
    requires Sizes(m) && Sizes(r) && src < NR_TASKS && dst < NR_TASKS && DataPage(pg) && src != dst
    requires Copied(m, r, src, dst, pg) && m.pt[src][TEMP_PAG] == UNMAPPED
    requires NUM_PAG_KERNEL <= f < TOTAL_PAGES && f % 2 == 0 && !r.used[f]
    requires Frame(m, src, pg) < TOTAL_PAGES && m.used[Frame(m, src, pg)]
    ensures Copied(m, ForkPage(r, src, dst, pg, f), src, dst, pg + 1)
  {
    var q := ForkPage(r, src, dst, pg, f);
    assert q.pt[src] == m.pt[src];
    forall g | 0 <= g < TOTAL_PAGES ensures Page(q.phys, g) == Page(r.phys, if g == f then Frame(m, src, pg) else g) {
      CopyFrameIs(r.phys, Frame(m, src, pg), f, g);
    }
    forall i | PAG_LOG_INIT_DATA <= i < pg + 1 ensures CopiedPage(m, q, src, dst, i) {
      if i < pg { assert CopiedPage(m, r, src, dst, i); }
    }
    forall i, j | PAG_LOG_INIT_DATA <= i < j < pg + 1 ensures Frame(q, dst, i) != Frame(q, dst, j) {
      assert CopiedPage(m, r, src, dst, i) && Frame(q, dst, i) == Frame(r, dst, i);
      if j < pg { assert Frame(q, dst, j) == Frame(r, dst, j); }
    }
  }

  /** The data loop never runs out of frames while a slot is free, and copies every page so far. */
  lemma {:induction false} ForkPagesCopies(m: Mem, src: nat, dst: nat, n: nat)
    requires Sizes(m) && src < NR_TASKS && dst < NR_TASKS && src != dst && n <= NUM_PAG_DATA
    requires UserMap(m.used, m.pt[src]) && m.pt[src][TEMP_PAG] == UNMAPPED
    requires 2 * (Count(m.used, NUM_PAG_KERNEL) + n) <= TOTAL_PAGES - NUM_PAG_KERNEL
    ensures var r := ForkPages(m, src, dst, n);
      && r.ok && Copied(m, r.m, src, dst, PAG_LOG_INIT_DATA + n)
      && Count(r.m.used, NUM_PAG_KERNEL) == Count(m.used, NUM_PAG_KERNEL) + n
      && (if n == 0 then r.m == m else r.m.cr3 == src && r.m.tlb == {})
  {
    if n > 0 {
      ForkPagesCopies(m, src, dst, n - 1);
      var r := ForkPages(m, src, dst, n - 1).m;
      var f := FreeFrom(r.used, NUM_PAG_KERNEL);
      if f == -1 { AllocFailsOnlyWhenFull(r.used, NUM_PAG_KERNEL); }
      var pg := PAG_LOG_INIT_DATA + n - 1;
      assert DataPage(pg);
      CopiedStep(m, r, src, dst, pg, f);
      CountMark(r.used, NUM_PAG_KERNEL, f, true);
    }
  }

  lemma {:induction false} ShareCodeIs(m: Mem, src: nat, dst: nat, n: nat)
    requires Sizes(m) && src < NR_TASKS && dst < NR_TASKS && src != dst && n <= NUM_PAG_CODE
    ensures var r := ShareCode(m, src, dst, n);
      && r == m.(pt := m.pt[dst := r.pt[dst]])
      && (forall pg :: 0 <= pg < TOTAL_PAGES ==>
            r.pt[dst][pg] == m.pt[if PAG_LOG_INIT_CODE <= pg < PAG_LOG_INIT_CODE + n then src else dst][pg])
  {
    if n > 0 { ShareCodeIs(m, src, dst, n - 1); }
  }

  /** A successful fork: the child has the parent's code and, in fresh frames, the parent's data. */
  ghost predicate ForkedFrom(m: Mem, r: Mem, src: nat, dst: nat)
    requires Sizes(m) && Sizes(r) && src < NR_TASKS && dst < NR_TASKS
  {
    && (forall s :: 0 <= s < NR_TASKS && s != dst ==> r.pt[s] == m.pt[s])
    && (forall pg :: 0 <= pg < TOTAL_PAGES && !DataPage(pg) ==>
          r.pt[dst][pg] == m.pt[if CodePage(pg) then src else dst][pg])
    && (forall pg :: DataPage(pg) ==> CopiedPage(m, r, src, dst, pg))
    && (forall i, j :: DataPage(i) && DataPage(j) && i != j ==> Frame(r, dst, i) != Frame(r, dst, j))
    && (forall f :: 0 <= f < TOTAL_PAGES && m.used[f] ==> r.used[f] && Page(r.phys, f) == Page(m.phys, f))
    && (forall f :: NUM_PAG_KERNEL <= f < TOTAL_PAGES && f % 2 == 1 ==> r.used[f] == m.used[f])
    && r.cr3 == src && r.tlb == {}
  }

  lemma CopiedIsForked(m: Mem, c: Mem, q: Mem, src: nat, dst: nat)
    requires Sizes(m) && Sizes(c) && Sizes(q) && src < NR_TASKS && dst < NR_TASKS && src != dst
    requires c == m.(pt := m.pt[dst := c.pt[dst]])
    requires forall pg :: 0 <= pg < TOTAL_PAGES ==> c.pt[dst][pg] == m.pt[if CodePage(pg) then src else dst][pg]
    requires Copied(c, q, src, dst, PAG_LOG_INIT_DATA + NUM_PAG_DATA)
    ensures ForkedFrom(m, SetCr3(q, src), src, dst)
  {
    var r := SetCr3(q, src);
    assert c.pt[src] == m.pt[src];
    forall pg | DataPage(pg) ensures CopiedPage(m, r, src, dst, pg) {
      assert CopiedPage(c, q, src, dst, pg);
    }
    forall i, j | DataPage(i) && DataPage(j) && i != j ensures Frame(r, dst, i) != Frame(r, dst, j) {
      assert Frame(q, dst, i) != Frame(q, dst, j);
    }
  }

  /** alloc_frame never fails inside sys_fork, so the roll-back path is not taken. */
  lemma ForkMemIs(m: Mem, live: set<nat>, src: nat, dst: nat)
    requires MemInv(m, live) && src in live && dst < NR_TASKS && dst !in live && |live| < NR_TASKS - 1
    ensures var r := ForkMem(m, src, dst);
      && r.ok && ForkedFrom(m, r.m, src, dst)
      && Count(r.m.used, NUM_PAG_KERNEL) == Count(m.used, NUM_PAG_KERNEL) + NUM_PAG_DATA
  {
    EnoughFrames();
    var c := ShareCode(m, src, dst, NUM_PAG_CODE);
    ShareCodeIs(m, src, dst, NUM_PAG_CODE);
    assert c.pt[src] == m.pt[src] && UserMap(m.used, m.pt[src]) && FixedMap(m.pt[src]);
    ForkPagesCopies(c, src, dst, NUM_PAG_DATA);
    CopiedIsForked(m, c, ForkPages(c, src, dst, NUM_PAG_DATA).m, src, dst);
  }

  lemma ForkedUserMaps(m: Mem, live: set<nat>, r: Mem, src: nat, dst: nat)
    requires MemInv(m, live) && src in live && dst < NR_TASKS && dst !in live
    requires Sizes(r) && ForkedFrom(m, r, src, dst)
    ensures FixedMap(r.pt[dst]) && UserMap(r.used, r.pt[dst]) && Bytemap(r.used)
    ensures forall s :: s in live ==> UserMap(r.used, r.pt[s])
  {
    assert FixedMap(m.pt[dst]) && FixedMap(m.pt[src]) && UserMap(m.used, m.pt[src]);
    forall pg | DataPage(pg) ensures DataFrame(r.pt[dst][pg].frame) {
      assert CopiedPage(m, r, src, dst, pg);
    }
    forall s | s in live ensures UserMap(r.used, r.pt[s]) {
      assert UserMap(m.used, m.pt[s]);
    }
  }

  lemma ForkedPrivate(m: Mem, live: set<nat>, r: Mem, src: nat, dst: nat)
    requires MemInv(m, live) && src in live && dst < NR_TASKS && dst !in live
    requires Sizes(r) && ForkedFrom(m, r, src, dst)
    ensures Private(r, live + {dst})
  {
    forall pg | DataPage(pg) ensures !m.used[Frame(r, dst, pg)] {
      assert CopiedPage(m, r, src, dst, pg);
    }
    forall s, pg | s in live && DataPage(pg) ensures Frame(r, s, pg) == Frame(m, s, pg) && m.used[Frame(r, s, pg)] {
      assert UserMap(m.used, m.pt[s]);
    }
    forall s, t, i, j |
      s in live + {dst} && t in live + {dst} && DataPage(i) && DataPage(j) && Frame(r, s, i) == Frame(r, t, j)
      ensures s == t && i == j
    {
      if s != dst && t != dst { assert Frame(m, s, i) == Frame(m, t, j); }
    }
  }

  lemma ForkMemKeeps(m: Mem, live: set<nat>, src: nat, dst: nat)
    requires MemInv(m, live) && src in live && dst < NR_TASKS && dst !in live && |live| < NR_TASKS - 1
    ensures var r := ForkMem(m, src, dst);
      r.ok && MemInv(r.m, live + {dst}) && r.m.cr3 == src && r.m.tlb == {}
  {
    ForkMemIs(m, live, src, dst);
    var r := ForkMem(m, src, dst).m;
    ForkedUserMaps(m, live, r, src, dst);
    ForkedPrivate(m, live, r, src, dst);
  }

  // ----- Exit

  /** A data frame of the slot, in a page below `n`. */
  ghost predicate Owned(t: seq<Pte>, n: nat, f: nat)
    requires |t| == TOTAL_PAGES && n <= TOTAL_PAGES
  {
    exists pg :: PAG_LOG_INIT_DATA <= pg < n && t[pg].frame == f
  }

  /** What free_user_pages has done below page `n`: exactly the frames of those pages are free again. */
  ghost predicate Freed(m: Mem, r: Mem, s: nat, n: nat)
    requires Sizes(m) && Sizes(r) && s < NR_TASKS && n <= TOTAL_PAGES
  {
    && r.phys == m.phys && r.cr3 == m.cr3 && r.tlb == m.tlb
    && (forall t :: 0 <= t < NR_TASKS && t != s ==> r.pt[t] == m.pt[t])
    && (forall pg :: 0 <= pg < TOTAL_PAGES ==>
          r.pt[s][pg] == if PAG_LOG_INIT_DATA <= pg < n then UNMAPPED else m.pt[s][pg])
    && (forall f :: 0 <= f < TOTAL_PAGES ==> r.used[f] == (m.used[f] && !Owned(m.pt[s], n, f)))
  }

  lemma FreedStep(m: Mem, r: Mem, s: nat, pg: nat)
    requires Sizes(m) && Sizes(r) && s < NR_TASKS && DataPage(pg)
    requires Freed(m, r, s, pg) && NUM_PAG_KERNEL < Frame(m, s, pg) < TOTAL_PAGES
    ensures Freed(m, FreePage(r, s, pg), s, pg + 1)
  {
    var t := m.pt[s];
    forall f | 0 <= f < TOTAL_PAGES
      ensures Owned(t, pg + 1, f) <==> Owned(t, pg, f) || f == t[pg].frame
    {
      if f == t[pg].frame { assert Owned(t, pg + 1, f); }
    }
  }

  /** The frames of a slot's data pages are pairwise different. */
  ghost predicate Injective(m: Mem, s: nat)
    requires Sizes(m) && s < NR_TASKS
  {
    forall i, j {:trigger Frame(m, s, i), Frame(m, s, j)} ::
      DataPage(i) && DataPage(j) && i != j ==> Frame(m, s, i) != Frame(m, s, j)
  }

  lemma FreedRound(m: Mem, r: Mem, s: nat, pg: nat)
    requires Sizes(m) && Sizes(r) && s < NR_TASKS && DataPage(pg) && Freed(m, r, s, pg)
    requires UserMap(m.used, m.pt[s]) && Injective(m, s)
    ensures Freed(m, FreePage(r, s, pg), s, pg + 1)
    ensures Count(FreePage(r, s, pg).used, NUM_PAG_KERNEL) == Count(r.used, NUM_PAG_KERNEL) - 1
  {
    var f := Frame(m, s, pg);
    forall i | PAG_LOG_INIT_DATA <= i < pg ensures m.pt[s][i].frame != f {
      assert Frame(m, s, i) != f;
    }
    assert !Owned(m.pt[s], pg, f);
    assert r.used[f];
    CountMark(r.used, NUM_PAG_KERNEL, f, false);
    FreedStep(m, r, s, pg);
  }

  /** The first `n` data pages of a slot have been given back. */
  ghost predicate GivenBack(m: Mem, r: Mem, s: nat, n: nat)
    requires Sizes(m) && Sizes(r) && s < NR_TASKS && n <= NUM_PAG_DATA
  {
    && Freed(m, r, s, PAG_LOG_INIT_DATA + n)
    && Count(r.used, NUM_PAG_KERNEL) == Count(m.used, NUM_PAG_KERNEL) - n
  }

  lemma GiveBackRound(m: Mem, r: Mem, s: nat, n: nat)
    requires Sizes(m) && Sizes(r) && s < NR_TASKS && n < NUM_PAG_DATA && GivenBack(m, r, s, n)
    requires UserMap(m.used, m.pt[s]) && Injective(m, s)
    ensures GivenBack(m, FreePage(r, s, PAG_LOG_INIT_DATA + n), s, n + 1)
  {
    FreedRound(m, r, s, PAG_LOG_INIT_DATA + n);
  }

  /** free_user_pages gives back 20 distinct data frames, none of them frame NUM_PAG_KERNEL. */
  lemma {:induction false} FreePagesFrees(m: Mem, s: nat, n: nat)
    requires Sizes(m) && s < NR_TASKS && n <= NUM_PAG_DATA
    requires UserMap(m.used, m.pt[s]) && Injective(m, s)
    ensures GivenBack(m, FreePages(m, s, n), s, n)
  {
    if n > 0 {
      FreePagesFrees(m, s, n - 1);
      GiveBackRound(m, FreePages(m, s, n - 1), s, n - 1);
    }
  }

  lemma FreedOthers(m: Mem, live: set<nat>, r: Mem, s: nat, t: nat)
    requires MemInv(m, live) && s in live && t in live && s != t
    requires Sizes(r) && Freed(m, r, s, PAG_LOG_INIT_DATA + NUM_PAG_DATA)
    ensures r.pt[t] == m.pt[t] && UserMap(r.used, r.pt[t])
  {
    assert UserMap(m.used, m.pt[t]);
    forall pg | DataPage(pg) ensures !Owned(m.pt[s], PAG_LOG_INIT_DATA + NUM_PAG_DATA, Frame(m, t, pg)) {
      assert forall i :: DataPage(i) ==> Frame(m, s, i) != Frame(m, t, pg);
    }
  }

  lemma FreedSelf(m: Mem, live: set<nat>, r: Mem, s: nat)
    requires MemInv(m, live) && s in live
    requires Sizes(r) && Freed(m, r, s, PAG_LOG_INIT_DATA + NUM_PAG_DATA)
    ensures FixedMap(r.pt[s]) && NoData(r.pt[s]) && Bytemap(r.used)
  {
    assert FixedMap(m.pt[s]) && UserMap(m.used, m.pt[s]);
    forall f | Owned(m.pt[s], PAG_LOG_INIT_DATA + NUM_PAG_DATA, f) ensures DataFrame(f) {
    }
  }

  /** The page tables after an exit: the others as they were, the dying one without data. */
  lemma FreedMaps(m: Mem, live: set<nat>, r: Mem, s: nat, t: nat)
    requires MemInv(m, live) && s in live && t < NR_TASKS
    requires Sizes(r) && Freed(m, r, s, PAG_LOG_INIT_DATA + NUM_PAG_DATA)
    ensures FixedMap(r.pt[t])
    ensures if t in live - {s} then UserMap(r.used, r.pt[t]) else NoData(r.pt[t])
  {
    FreedSelf(m, live, r, s);
    if t in live - {s} { FreedOthers(m, live, r, s, t); }
    assert FixedMap(m.pt[t]);
    assert t !in live ==> NoData(m.pt[t]);
  }

  lemma FreedPrivate(m: Mem, live: set<nat>, q: Mem, s: nat, next: nat)
    requires MemInv(m, live) && s in live && next < NR_TASKS
    requires Sizes(q) && Freed(m, q, s, PAG_LOG_INIT_DATA + NUM_PAG_DATA)
    ensures Private(SetCr3(q, next), live - {s}) && |live - {s}| == |live| - 1
  {
    var r := SetCr3(q, next);
    assert forall t, pg :: t in live && t != s && 0 <= pg < TOTAL_PAGES ==> Frame(r, t, pg) == Frame(m, t, pg);
  }

  lemma ExitMemKeeps(m: Mem, live: set<nat>, s: nat, next: nat)
    requires MemInv(m, live) && s in live && next < NR_TASKS
    ensures MemInv(SetCr3(FreePages(m, s, NUM_PAG_DATA), next), live - {s})
  {
    assert UserMap(m.used, m.pt[s]);
    FreePagesFrees(m, s, NUM_PAG_DATA);
    FreedKeeps(m, live, FreePages(m, s, NUM_PAG_DATA), s, next);
  }

  lemma FreedKeeps(m: Mem, live: set<nat>, q: Mem, s: nat, next: nat)
    requires MemInv(m, live) && s in live && next < NR_TASKS && Sizes(q) && GivenBack(m, q, s, NUM_PAG_DATA)
    ensures MemInv(SetCr3(q, next), live - {s})
  {
    FreedSelf(m, live, q, s);
    forall t | 0 <= t < NR_TASKS
      ensures FixedMap(q.pt[t]) && if t in live - {s} then UserMap(q.used, q.pt[t]) else NoData(q.pt[t])
    {
      FreedMaps(m, live, q, s, t);
    }
    FreedPrivate(m, live, q, s, next);
  }

  // ----- Switching and user accesses

  lemma SwitchMemKeeps(m: Mem, live: set<nat>, next: nat)
    requires MemInv(m, live) && next < NR_TASKS
    ensures MemInv(SetCr3(m, next), live)
  {
    var r := SetCr3(m, next);
    assert forall s, pg :: 0 <= s < NR_TASKS && 0 <= pg < TOTAL_PAGES ==> Frame(r, s, pg) == Frame(m, s, pg);
  }

  lemma AccessKeeps(m: Mem, live: set<nat>, a: Access)
    requires MemInv(m, live)
    ensures MemInv(UserAccess(m, a), live)
  {
    var r := UserAccess(m, a);
    assert forall s, pg :: 0 <= s < NR_TASKS && 0 <= pg < TOTAL_PAGES ==> Frame(r, s, pg) == Frame(m, s, pg);
  }

  // ----- What a process sees

  /** The contents of the 20 data pages of a slot. */
  function View(m: Mem, s: nat): (v: seq<seq<Byte>>)
    requires Sizes(m) && s < NR_TASKS
    ensures |v| == NUM_PAG_DATA
  {
    seq(NUM_PAG_DATA, i requires 0 <= i < NUM_PAG_DATA => Page(m.phys, Frame(m, s, PAG_LOG_INIT_DATA + i)))
  }

  /** A write as the writer means it: one byte of one of its data pages. */
  function WriteView(v: seq<seq<Byte>>, a: Access): seq<seq<Byte>> {
    var i := a.page - PAG_LOG_INIT_DATA;
    if a.write && 0 <= i < |v| then v[i := SetByte(v[i], a.off, a.value)] else v
  }

  lemma StorePage(phys: seq<Byte>, f: nat, off: nat, v: Byte, g: nat)
    requires (f + 1) * PAGE_SIZE <= |phys| && (g + 1) * PAGE_SIZE <= |phys| && off < PAGE_SIZE
    ensures |Page(phys, g)| == PAGE_SIZE
    ensures Page(SetByte(phys, f * PAGE_SIZE + off, v), g)
         == if g == f then SetByte(Page(phys, g), off, v) else Page(phys, g)
  {
    var r := SetByte(phys, f * PAGE_SIZE + off, v);
    if g != f {
      assert forall k :: g * PAGE_SIZE <= k < (g + 1) * PAGE_SIZE ==> r[k] == phys[k];
    }
  }

  /** The only writable user pages are the private data pages of the slot itself. */
  lemma WritableIsPrivate(m: Mem, live: set<nat>, s: nat, pg: nat)
    requires MemInv(m, live) && s < NR_TASKS && pg < TOTAL_PAGES
    requires m.pt[s][pg].present && m.pt[s][pg].rw && m.pt[s][pg].user
    ensures s in live && DataPage(pg) && DataFrame(m.pt[s][pg].frame) && m.used[m.pt[s][pg].frame]
  {
    assert FixedMap(m.pt[s]);
    assert s in live ==> UserMap(m.used, m.pt[s]);
    assert NoData(m.pt[s]) || s in live;
  }

  /** No page table ever maps a code frame writable, for the user or for the kernel. */
  lemma CodeIsReadOnly(m: Mem, live: set<nat>, s: nat, pg: nat, code: nat)
    requires MemInv(m, live) && s < NR_TASKS && pg < TOTAL_PAGES && CodePage(code)
    requires m.pt[s][pg].present && m.pt[s][pg].frame == CodeFrame(code)
    ensures !m.pt[s][pg].rw && pg == code
  {
    assert FixedMap(m.pt[s]);
    assert s in live ==> UserMap(m.used, m.pt[s]);
    assert NoData(m.pt[s]) || s in live;
  }

  lemma SameView(m: Mem, s: nat, r: Mem, t: nat)
    requires Sizes(m) && Sizes(r) && s < NR_TASKS && t < NR_TASKS
    requires forall pg :: DataPage(pg) ==> Page(r.phys, Frame(r, t, pg)) == Page(m.phys, Frame(m, s, pg))
    ensures View(r, t) == View(m, s)
  {
    forall i | 0 <= i < NUM_PAG_DATA ensures View(r, t)[i] == View(m, s)[i] {
      assert DataPage(PAG_LOG_INIT_DATA + i);
    }
  }

  /** The frame of an allowed write is the private frame of that page of the loaded slot. */
  lemma WriteGoesHome(m: Mem, live: set<nat>, a: Access)
    requires MemInv(m, live) && Allowed(m, a) && a.write
    ensures m.cr3 in live && DataPage(a.page) && a.pte.frame == Frame(m, m.cr3, a.page)
    ensures forall s, pg :: s in live && DataPage(pg) && Frame(m, s, pg) == a.pte.frame ==> s == m.cr3 && pg == a.page
  {
    WritableIsPrivate(m, live, m.cr3, a.page);
    assert a.pte.frame == Frame(m, m.cr3, a.page);
  }

  /** A data page of slot `s` after an allowed write. */
  function PageAfter(m: Mem, a: Access, s: nat, pg: nat): seq<Byte>
    requires Sizes(m) && s < NR_TASKS && DataPage(pg)
  {
    var was := Page(m.phys, Frame(m, s, pg));
    if s == m.cr3 && pg == a.page then SetByte(was, a.off, a.value) else was
  }

  lemma WriteSeesPage(m: Mem, live: set<nat>, a: Access, s: nat, pg: nat)
    requires MemInv(m, live) && Allowed(m, a) && a.write && s in live && DataPage(pg)
    ensures Page(UserAccess(m, a).phys, Frame(m, s, pg)) == PageAfter(m, a, s, pg)
  {
    WriteGoesHome(m, live, a);
    assert UserMap(m.used, m.pt[s]);
    StorePage(m.phys, a.pte.frame, a.off, a.value, Frame(m, s, pg));
  }

  lemma WriteSees(m: Mem, live: set<nat>, a: Access, s: nat)
    requires MemInv(m, live) && Allowed(m, a) && a.write && s in live
    ensures View(UserAccess(m, a), s) == if s == m.cr3 then WriteView(View(m, s), a) else View(m, s)
  {
    var r := UserAccess(m, a);
    WriteGoesHome(m, live, a);
    forall pg | DataPage(pg) ensures Page(r.phys, Frame(r, s, pg)) == PageAfter(m, a, s, pg) {
      WriteSeesPage(m, live, a, s, pg);
    }
    if s != m.cr3 {
      SameView(m, s, r, s);
    } else {
      var w := WriteView(View(m, s), a);
      forall i | 0 <= i < NUM_PAG_DATA ensures View(r, s)[i] == w[i] {
        assert DataPage(PAG_LOG_INIT_DATA + i);
      }
    }
  }

  /** What an access does to anyone's view: at most one byte of the loaded slot's own data changes. */
  lemma AccessSees(m: Mem, live: set<nat>, a: Access, s: nat)
    requires MemInv(m, live) && s in live
    ensures View(UserAccess(m, a), s)
         == if s == m.cr3 && Allowed(m, a) then WriteView(View(m, s), a) else View(m, s)
  {
    if Allowed(m, a) && a.write {
      WriteSees(m, live, a, s);
    } else {
      SameView(m, s, UserAccess(m, a), s);
    }
  }

  /** A fork changes nobody's view, and the child starts with the parent's. */
  lemma ForkSees(m: Mem, live: set<nat>, src: nat, dst: nat, s: nat)
    requires MemInv(m, live) && src in live && dst < NR_TASKS && dst !in live && |live| < NR_TASKS - 1
    requires s in live || s == dst
    ensures View(ForkMem(m, src, dst).m, s) == View(m, if s == dst then src else s)
  {
    ForkMemIs(m, live, src, dst);
    var r := ForkMem(m, src, dst).m;
    var t := if s == dst then src else s;
    assert UserMap(m.used, m.pt[t]);
    forall pg | DataPage(pg) ensures Page(r.phys, Frame(r, s, pg)) == Page(m.phys, Frame(m, t, pg)) {
      if s == dst { assert CopiedPage(m, r, src, dst, pg); }
    }
    SameView(m, t, r, s);
  }

  /** A fork never touches the contents of a frame that is in use. */
  lemma ForkKeepsUsed(m: Mem, live: set<nat>, src: nat, dst: nat, f: nat)
    requires MemInv(m, live) && src in live && dst < NR_TASKS && dst !in live && |live| < NR_TASKS - 1
    requires f < TOTAL_PAGES && m.used[f]
    ensures Page(ForkMem(m, src, dst).m.phys, f) == Page(m.phys, f)
  {
    ForkMemIs(m, live, src, dst);
  }

  lemma CodeIsUsed(used: seq<bool>, pg: nat)
    requires Bytemap(used) && CodePage(pg)
    ensures 0 <= CodeFrame(pg) < TOTAL_PAGES && used[CodeFrame(pg)]
  {
    assert CodeFrame(pg) % 2 == 0;
  }

  lemma ExitSees(m: Mem, live: set<nat>, s: nat, next: nat, t: nat)
    requires MemInv(m, live) && s in live && next < NR_TASKS && t in live && t != s
    ensures View(SetCr3(FreePages(m, s, NUM_PAG_DATA), next), t) == View(m, t)
  {
    assert UserMap(m.used, m.pt[s]);
    FreePagesFrees(m, s, NUM_PAG_DATA);
    SameView(m, t, SetCr3(FreePages(m, s, NUM_PAG_DATA), next), t);
  }
}
