/**
 What the memory invariant means to user code: which pages it can read and write, what it finds there, byte by byte,
 and what the page tables hold, entry by entry (mm.c).
 */
module MemoryFacts {
  import opened Config
  import opened Memory
  import opened MemoryBoot

  // ----- Page tables, entry by entry

  /** The kernel's pages in every slot: present and writable, and not the user's; page 0 is not there. */
  lemma KernelEntries(m: Mem, live: set<nat>, s: nat, pg: nat)
    requires MemInv(m, live) && s < NR_TASKS && pg < 256
    ensures m.pt[s][pg] == if pg == 0 then Pte(false, false, false, 0) else Pte(true, true, false, pg)
  {
    assert FixedMap(m.pt[s]);
    assert !DataPage(pg);
  }

  /** The user's pages of a live slot: private data that can be written, shared code that cannot. */
  lemma UserEntries(m: Mem, live: set<nat>, s: nat, pg: nat)
    requires MemInv(m, live) && s in live && 256 <= pg < 284
    ensures var e := m.pt[s][pg];
      if pg < 276 then e == Pte(true, true, true, e.frame) && 272 <= e.frame < 1024 && e.frame % 2 == 0
      else e == Pte(true, false, true, 256 + 2 * (pg - 276))
  {
    assert FixedMap(m.pt[s]) && UserMap(m.used, m.pt[s]);
    assert if pg < 276 then DataPage(pg) else CodePage(pg) && !DataPage(pg);
  }

  /** Everything above is unmapped, the temporary page included, and so are the data pages of a slot with no process. */
  lemma OtherEntries(m: Mem, live: set<nat>, s: nat, pg: nat)
    requires MemInv(m, live) && s < NR_TASKS && pg < TOTAL_PAGES
    requires pg >= 284 || (s !in live && 256 <= pg < 276)
    ensures m.pt[s][pg] == Pte(false, false, false, 0)
  {
    assert FixedMap(m.pt[s]);
    assert s !in live ==> NoData(m.pt[s]);
    assert pg >= 284 ==> !DataPage(pg) && !CodePage(pg);
  }

  /** The first process's pages, from boot on: frames 256, 258, ... for its code and then its data. */
  lemma BootEntries(phys: seq<Byte>, k: nat)
    requires |phys| == TOTAL_PAGES * PAGE_SIZE && k < 28
    ensures var t := BootMem(phys).pt[1];
      if k < 8 then t[276 + k] == Pte(true, false, true, 256 + 2 * k)
      else t[256 + (k - 8)] == Pte(true, true, true, 256 + 2 * k)
  {
    var m, r := InitMm(phys), BootMem(phys);
    SetUserPagesIs(m, NUM_PAG_CODE + NUM_PAG_DATA);
    assert FirstPages(m, r, NUM_PAG_CODE + NUM_PAG_DATA);
    assert r.pt[1][UserPage(k)] == UserPte(k, NUM_PAG_KERNEL + 2 * k);
  }

  // ----- Access

  /** User code may read and write its data pages and read its code pages, at any offset, and nothing else. */
  lemma AllowedIff(m: Mem, live: set<nat>, pg: nat, write: bool, off: nat, v: Byte)
    requires MemInv(m, live) && m.cr3 in live && pg < TOTAL_PAGES && off < PAGE_SIZE
    ensures Allowed(m, Access(pg, m.pt[m.cr3][pg], write, off, v))
       <==> DataPage(pg) || (CodePage(pg) && !write)
  {
    var s := m.cr3;
    if pg < 256 {
      KernelEntries(m, live, s, pg);
    } else if pg < 284 {
      UserEntries(m, live, s, pg);
    } else {
      OtherEntries(m, live, s, pg);
    }
  }

  /** Under any translation the TLB may hold an access is allowed exactly if it is by the loaded table. */
  lemma AnyTranslation(m: Mem, live: set<nat>, a: Access)
    requires MemInv(m, live) && Allowed(m, a)
    ensures a.pte == m.pt[m.cr3][a.page]
  {
  }

  /** An access leaves its translation in the TLB, and drops none. */
  lemma AccessCaches(m: Mem, a: Access)
    requires Sizes(m) && Allowed(m, a)
    ensures var r := UserAccess(m, a);
      r.tlb == m.tlb + {(a.page, a.pte)} && r.pt == m.pt && r.used == m.used && r.cr3 == m.cr3
  {
  }

  /** Loading a directory drops them all, and changes nothing else. */
  lemma LoadingDrops(m: Mem, s: nat)
    ensures SetCr3(m, s) == Mem(m.used, m.pt, m.phys, s, {})
  {
  }

  /** That is needed: a translation that has been used and then unmapped is stale until then. */
  lemma UnmappingNeedsLoad(m: Mem, pg: nat, e: Pte)
    requires Sizes(m) && Coherent(m) && (pg, e) in m.tlb
    ensures (assert pg < TOTAL_PAGES; !Coherent(m.(pt := m.pt[m.cr3 := m.pt[m.cr3][pg := UNMAPPED]])))
  {
    var r := m.(pt := m.pt[m.cr3 := m.pt[m.cr3][pg := UNMAPPED]]);
    assert (pg, e) in r.tlb && e.present;
  }

  /** free_frame ignores the kernel's frames, and frame 256 with them, and anything past the end. */
  lemma FreeFrameSpares(used: seq<bool>, f: nat)
    requires |used| == TOTAL_PAGES
    ensures FreeFrame(used, f) == if 257 <= f < 1024 then used[f := false] else used
  {
  }

  // ----- Bytes

  /** The view of a slot is what its page table shows. */
  lemma ViewIsBytes(m: Mem, live: set<nat>, s: nat, pg: nat, off: nat)
    requires MemInv(m, live) && s in live && DataPage(pg) && off < PAGE_SIZE
    ensures |View(m, s)[pg - PAG_LOG_INIT_DATA]| == PAGE_SIZE
    ensures View(m, s)[pg - PAG_LOG_INIT_DATA][off] == ByteOf(m, s, pg, off)
  {
    assert UserMap(m.used, m.pt[s]);
    var f := Frame(m, s, pg);
    assert (f + 1) * PAGE_SIZE <= |m.phys|;
    assert Page(m.phys, f)[off] == m.phys[f * PAGE_SIZE + off];
  }

  /** So are the contents of a code frame. */
  lemma CodeIsBytes(m: Mem, live: set<nat>, s: nat, pg: nat, off: nat)
    requires MemInv(m, live) && s in live && CodePage(pg) && off < PAGE_SIZE
    ensures |Page(m.phys, CodeFrame(pg))| == PAGE_SIZE
    ensures Page(m.phys, CodeFrame(pg))[off] == ByteOf(m, s, pg, off)
  {
    UserEntries(m, live, s, pg);
    assert (CodeFrame(pg) + 1) * PAGE_SIZE <= |m.phys|;
    assert Page(m.phys, CodeFrame(pg))[off] == m.phys[CodeFrame(pg) * PAGE_SIZE + off];
  }

  /** After a write the writer finds the value where it wrote it; no other byte of any process's pages changes. */
  lemma ReadAfterWrite(m: Mem, live: set<nat>, a: Access, s: nat, pg: nat, off: nat)
    requires MemInv(m, live) && Allowed(m, a) && a.write && s in live && 256 <= pg < 284 && off < PAGE_SIZE
    ensures ByteOf(UserAccess(m, a), s, pg, off)
         == if s == m.cr3 && pg == a.page && off == a.off then a.value else ByteOf(m, s, pg, off)
  {
    WriteGoesHome(m, live, a);
    UserEntries(m, live, s, pg);
    UserEntries(m, live, m.cr3, a.page);
    var f, g := Frame(m, s, pg), a.pte.frame;
    if f == g {
      assert DataPage(pg) && s == m.cr3 && pg == a.page;
    } else {
      assert f * PAGE_SIZE + off != g * PAGE_SIZE + a.off;
    }
  }

  /** A read changes no byte at all. */
  lemma ReadChangesNothing(m: Mem, a: Access)
    requires Sizes(m) && !a.write
    ensures UserAccess(m, a).phys == m.phys
  {
  }

  /** What an access does to any byte of any process. */
  lemma AccessByte(m: Mem, live: set<nat>, a: Access, s: nat, pg: nat, off: nat)
    requires MemInv(m, live) && Allowed(m, a) && s in live && 256 <= pg < 284 && off < PAGE_SIZE
    ensures ByteOf(UserAccess(m, a), s, pg, off)
         == if a.write && s == m.cr3 && pg == a.page && off == a.off then a.value else ByteOf(m, s, pg, off)
  {
    if a.write { ReadAfterWrite(m, live, a, s, pg, off); } else { ReadChangesNothing(m, a); }
  }

  /** A fork's child finds the parent's bytes in each of its pages, data and code; nobody else's change. */
  lemma ForkBytes(m: Mem, live: set<nat>, src: nat, dst: nat, s: nat, pg: nat, off: nat)
    requires MemInv(m, live) && src in live && dst < NR_TASKS && dst !in live && |live| < NR_TASKS - 1
    requires (s in live || s == dst) && 256 <= pg < 284 && off < PAGE_SIZE
    ensures ByteOf(ForkMem(m, src, dst).m, s, pg, off) == ByteOf(m, if s == dst then src else s, pg, off)
  {
    ForkMemKeeps(m, live, src, dst);
    var r, t := ForkMem(m, src, dst).m, if s == dst then src else s;
    if pg < 276 {
      ForkSees(m, live, src, dst, s);
      ViewIsBytes(r, live + {dst}, s, pg, off);
      ViewIsBytes(m, live, t, pg, off);
    } else {
      CodeIsUsed(m.used, pg);
      ForkKeepsUsed(m, live, src, dst, CodeFrame(pg));
      CodeIsBytes(r, live + {dst}, s, pg, off);
      CodeIsBytes(m, live, t, pg, off);
    }
  }

  // ----- A fork that fails

  /** Frames in use after the data loop were in use before or belong to the child. */
  ghost predicate OnlyOwned(m: Mem, r: Mem, dst: nat, n: nat)
    requires Sizes(m) && Sizes(r) && dst < NR_TASKS && n <= TOTAL_PAGES
  {
    forall f :: 0 <= f < TOTAL_PAGES && r.used[f] ==> m.used[f] || Owned(r.pt[dst], n, f)
  }

  lemma SoFarRound(m: Mem, r: Mem, src: nat, dst: nat, n: nat)
    requires Sizes(m) && Sizes(r) && src < NR_TASKS && dst < NR_TASKS && src != dst && n < NUM_PAG_DATA
    requires UserMap(m.used, m.pt[src]) && m.pt[src][TEMP_PAG] == UNMAPPED
    requires Copied(m, r, src, dst, PAG_LOG_INIT_DATA + n) && OnlyOwned(m, r, dst, PAG_LOG_INIT_DATA + n)
    requires FreeFrom(r.used, NUM_PAG_KERNEL) != -1
    ensures var q := ForkPage(r, src, dst, PAG_LOG_INIT_DATA + n, FreeFrom(r.used, NUM_PAG_KERNEL));
      Copied(m, q, src, dst, PAG_LOG_INIT_DATA + n + 1) && OnlyOwned(m, q, dst, PAG_LOG_INIT_DATA + n + 1)
  {
    var pg, f := PAG_LOG_INIT_DATA + n, FreeFrom(r.used, NUM_PAG_KERNEL);
    assert DataPage(pg);
    CopiedStep(m, r, src, dst, pg, f);
    OwnedStep(m, r, src, dst, pg, f);
  }

  lemma OwnedStep(m: Mem, r: Mem, src: nat, dst: nat, pg: nat, f: nat)
    requires Sizes(m) && Sizes(r) && src < NR_TASKS && dst < NR_TASKS && DataPage(pg) && src != dst && f < TOTAL_PAGES
    requires OnlyOwned(m, r, dst, pg)
    ensures OnlyOwned(m, ForkPage(r, src, dst, pg, f), dst, pg + 1)
  {
    var q := ForkPage(r, src, dst, pg, f);
    forall g | 0 <= g < TOTAL_PAGES && q.used[g] ensures m.used[g] || Owned(q.pt[dst], pg + 1, g) {
      if g == f {
        assert q.pt[dst][pg].frame == f;
      } else if !m.used[g] {
        var i :| PAG_LOG_INIT_DATA <= i < pg && r.pt[dst][i].frame == g;
        assert q.pt[dst][i].frame == g;
      }
    }
  }

  /** free_user_pages on any pages whose frames lie above frame 256. */
  lemma {:induction false} FreePagesFreed(m: Mem, s: nat, n: nat)
    requires Sizes(m) && s < NR_TASKS && n <= NUM_PAG_DATA
    requires forall pg :: PAG_LOG_INIT_DATA <= pg < PAG_LOG_INIT_DATA + n ==> 256 < Frame(m, s, pg) < TOTAL_PAGES
    ensures Freed(m, FreePages(m, s, n), s, PAG_LOG_INIT_DATA + n)
  {
    if n > 0 {
      FreePagesFreed(m, s, n - 1);
      assert DataPage(PAG_LOG_INIT_DATA + n - 1);
      FreedStep(m, FreePages(m, s, n - 1), s, PAG_LOG_INIT_DATA + n - 1);
    }
  }

  /** Giving back what the loop has taken restores the bytemap. */
  lemma RollBack(m: Mem, r: Mem, src: nat, dst: nat, n: nat)
    requires Sizes(m) && Sizes(r) && src < NR_TASKS && dst < NR_TASKS && n <= NUM_PAG_DATA && m.used[256]
    requires Copied(m, r, src, dst, PAG_LOG_INIT_DATA + n) && OnlyOwned(m, r, dst, PAG_LOG_INIT_DATA + n)
    ensures FreePages(r, dst, n).used == m.used
    ensures forall pg :: PAG_LOG_INIT_DATA <= pg < PAG_LOG_INIT_DATA + n ==>
      FreePages(r, dst, n).pt[dst][pg] == UNMAPPED
  {
    var top := PAG_LOG_INIT_DATA + n;
    forall pg | PAG_LOG_INIT_DATA <= pg < top
      ensures 256 < Frame(r, dst, pg) < TOTAL_PAGES && !m.used[Frame(r, dst, pg)]
    {
      assert DataPage(pg) && CopiedPage(m, r, src, dst, pg);
    }
    FreePagesFreed(r, dst, n);
    var q := FreePages(r, dst, n);
    forall f | 0 <= f < TOTAL_PAGES ensures q.used[f] == m.used[f] {
      if Owned(r.pt[dst], top, f) {
        var pg :| PAG_LOG_INIT_DATA <= pg < top && r.pt[dst][pg].frame == f;
        assert Frame(r, dst, pg) == f;
      }
    }
  }

  lemma RolledBack(m: Mem, r: Mem, src: nat, dst: nat, n: nat)
    requires Sizes(m) && Sizes(r) && src < NR_TASKS && dst < NR_TASKS && n <= NUM_PAG_DATA && m.used[256]
    requires Copied(m, r, src, dst, PAG_LOG_INIT_DATA + n) && OnlyOwned(m, r, dst, PAG_LOG_INIT_DATA + n)
    requires NoData(m.pt[dst])
    ensures FreePages(r, dst, n).used == m.used && NoData(FreePages(r, dst, n).pt[dst])
  {
    RollBack(m, r, src, dst, n);
    StillNoData(m, r, src, dst, n);
  }

  lemma StillNoData(m: Mem, r: Mem, src: nat, dst: nat, n: nat)
    requires Sizes(m) && Sizes(r) && src < NR_TASKS && dst < NR_TASKS && n <= NUM_PAG_DATA && m.used[256]
    requires Copied(m, r, src, dst, PAG_LOG_INIT_DATA + n) && NoData(m.pt[dst])
    ensures NoData(FreePages(r, dst, n).pt[dst])
  {
    forall pg | PAG_LOG_INIT_DATA <= pg < PAG_LOG_INIT_DATA + n ensures 256 < Frame(r, dst, pg) < TOTAL_PAGES {
      assert DataPage(pg) && CopiedPage(m, r, src, dst, pg);
    }
    FreePagesFreed(r, dst, n);
  }

  /** The data loop after `n` rounds: everything copied so far, or everything given back. */
  ghost predicate Outcome(m: Mem, r: Forked, src: nat, dst: nat, n: nat)
    requires Sizes(m) && Sizes(r.m) && src < NR_TASKS && dst < NR_TASKS && n <= NUM_PAG_DATA
  {
    if r.ok then Copied(m, r.m, src, dst, PAG_LOG_INIT_DATA + n) && OnlyOwned(m, r.m, dst, PAG_LOG_INIT_DATA + n)
    else r.m.used == m.used && NoData(r.m.pt[dst])
  }

  /** One round of the loop, as sys_fork goes through it. */
  function Round(r: Forked, src: nat, dst: nat, n: nat): (q: Forked)
    requires Sizes(r.m) && src < NR_TASKS && dst < NR_TASKS && n < NUM_PAG_DATA
    ensures Sizes(q.m)
  {
    if !r.ok then r else
    var f := FreeFrom(r.m.used, NUM_PAG_KERNEL);
    if f == -1 then Forked(FreePages(r.m, dst, n), false)
    else Forked(ForkPage(r.m, src, dst, PAG_LOG_INIT_DATA + n, f), true)
  }

  lemma ForkPagesRound(m: Mem, src: nat, dst: nat, n: nat)
    requires Sizes(m) && src < NR_TASKS && dst < NR_TASKS && 0 < n <= NUM_PAG_DATA
    ensures ForkPages(m, src, dst, n) == Round(ForkPages(m, src, dst, n - 1), src, dst, n - 1)
  {
  }

  lemma OutcomeRound(m: Mem, r: Forked, src: nat, dst: nat, n: nat)
    requires Sizes(m) && Sizes(r.m) && src < NR_TASKS && dst < NR_TASKS && src != dst && n < NUM_PAG_DATA && m.used[256]
    requires UserMap(m.used, m.pt[src]) && m.pt[src][TEMP_PAG] == UNMAPPED && NoData(m.pt[dst])
    requires Outcome(m, r, src, dst, n)
    ensures Outcome(m, Round(r, src, dst, n), src, dst, n + 1)
  {
    if r.ok {
      if FreeFrom(r.m.used, NUM_PAG_KERNEL) == -1 {
        RolledBack(m, r.m, src, dst, n);
      } else {
        SoFarRound(m, r.m, src, dst, n);
      }
    }
  }

  /** A fork that runs out of frames leaves the bytemap as it found it and the child without data pages. */
  lemma {:induction false} FailedForkGivesBack(m: Mem, src: nat, dst: nat, n: nat)
    requires Sizes(m) && src < NR_TASKS && dst < NR_TASKS && src != dst && n <= NUM_PAG_DATA && m.used[256]
    requires UserMap(m.used, m.pt[src]) && m.pt[src][TEMP_PAG] == UNMAPPED && NoData(m.pt[dst])
    ensures Outcome(m, ForkPages(m, src, dst, n), src, dst, n)
  {
    if n > 0 {
      FailedForkGivesBack(m, src, dst, n - 1);
      OutcomeRound(m, ForkPages(m, src, dst, n - 1), src, dst, n - 1);
      ForkPagesRound(m, src, dst, n);
    }
  }
}
