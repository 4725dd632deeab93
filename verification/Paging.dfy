/**
 mm.c and the memory loops of sys.c, on the real arrays: the phys_mem bytemap, one page table per slot, the
 frames themselves, and a processor that may translate with any entry it has used since the last CR3 load.
 */
module Paging {
  import opened Config
  import opened SlotSeqs
  import opened Memory
  import opened MemoryBoot
  import opened Copying
  import opened UserImage

  class Machine {
    const phys: array<Byte>
    const physMem: array<bool>
    const tables: seq<array<Pte>>
    /** dir_pages: the page table each directory points at. */
    const dirs: array<nat>
    var cr3: nat
    var tlb: set<(nat, Pte)>
    /** The abstract memory these arrays hold. */
    ghost var m: Mem

    /** Everything a memory operation may write. */
    ghost const objects: set<object>

    constructor (phys: array<Byte>, physMem: array<bool>, tables: seq<array<Pte>>, dirs: array<nat>)
      requires phys.Length == TOTAL_PAGES * PAGE_SIZE && physMem.Length == TOTAL_PAGES && dirs.Length == NR_TASKS
      requires |tables| == NR_TASKS && NoDup(tables)
      requires forall s :: 0 <= s < NR_TASKS ==> tables[s].Length == TOTAL_PAGES
      ensures this.phys == phys && this.physMem == physMem && this.tables == tables && this.dirs == dirs
      ensures Layout() && objects == {this, phys, physMem, dirs} + set t | t in tables
    {
      this.phys, this.physMem, this.tables, this.dirs := phys, physMem, tables, dirs;
      cr3, tlb := 0, {};
      objects := {this, phys, physMem, dirs} + set t | t in tables;
    }

    ghost predicate Layout() {
      && phys.Length == TOTAL_PAGES * PAGE_SIZE && physMem.Length == TOTAL_PAGES && dirs.Length == NR_TASKS
      && |tables| == NR_TASKS && NoDup(tables)
      && (forall s :: 0 <= s < NR_TASKS ==> tables[s].Length == TOTAL_PAGES && tables[s] in objects)
      && this in objects && phys in objects && physMem in objects && dirs in objects
    }

    ghost predicate Valid()
      reads this, objects
    {
      && Layout() && Sizes(m)
      && (forall s :: 0 <= s < NR_TASKS ==> dirs[s] == s)
      && m.used == physMem[..] && m.phys == phys[..] && m.cr3 == cr3 && m.tlb == tlb
      && (forall s :: 0 <= s < NR_TASKS ==> m.pt[s] == tables[s][..])
    }

    // ----- Frames

    /** alloc_frame */
    method AllocFrame() returns (f: int)
      requires Valid()
      modifies this`m, physMem
      ensures Valid() && f == FreeFrom(old(m.used), NUM_PAG_KERNEL)
      ensures m == old(m).(used := Mark(old(m.used), f))
    {
      var i := NUM_PAG_KERNEL;
      while i < TOTAL_PAGES
        invariant NUM_PAG_KERNEL <= i && FreeFrom(m.used, NUM_PAG_KERNEL) == FreeFrom(m.used, i)
        invariant Valid() && m == old(m) && physMem[..] == old(physMem[..])
      {
        if !physMem[i] {
          physMem[i] := true;
          m := m.(used := m.used[i := true]);
          return i;
        }
        i := i + 2;
      }
      return -1;
    }

    /** free_frame */
    method FreeFrameNo(frame: nat)
      requires Valid()
      modifies this`m, physMem
      ensures Valid() && m == old(m).(used := FreeFrame(old(m.used), frame))
    {
      if NUM_PAG_KERNEL < frame < TOTAL_PAGES {
        physMem[frame] := false;
      }
      m := m.(used := FreeFrame(m.used, frame));
    }

    // ----- Page table entries

    /** get_PT: the table the directory of a task points at. */
    method GetPT(dir: nat) returns (t: nat)
      requires Valid() && dir < NR_TASKS
      ensures t == dir
    {
      t := dirs[dir];
    }

    method WriteEntry(s: nat, pg: nat, e: Pte)
      requires Valid() && s < NR_TASKS && pg < TOTAL_PAGES
      modifies this`m, tables[s]
      ensures Valid() && m == old(m).(pt := old(m.pt)[s := old(m.pt)[s][pg := e]])
    {
      tables[s][pg] := e;
      m := m.(pt := m.pt[s := m.pt[s][pg := e]]);
    }

    /** set_ss_pag */
    method SetSsPag(s: nat, pg: nat, frame: nat)
      requires Valid() && s < NR_TASKS && pg < TOTAL_PAGES
      modifies this`m, tables[s]
      ensures Valid() && m == old(m).(pt := old(m.pt)[s := old(m.pt)[s][pg := DataPte(frame)]])
    {
      WriteEntry(s, pg, UNMAPPED);
      WriteEntry(s, pg, DataPte(frame));
      ghost var t := old(m.pt)[s];
      assert t[pg := UNMAPPED][pg := DataPte(frame)] == t[pg := DataPte(frame)];
      assert m.pt == old(m.pt)[s := t[pg := DataPte(frame)]];
    }

    /** del_ss_pag */
    method DelSsPag(s: nat, pg: nat)
      requires Valid() && s < NR_TASKS && pg < TOTAL_PAGES
      modifies this`m, tables[s]
      ensures Valid() && m == old(m).(pt := old(m.pt)[s := old(m.pt)[s][pg := UNMAPPED]])
    {
      WriteEntry(s, pg, UNMAPPED);
    }

    /** set_cr3 */
    method LoadCr3(s: nat)
      requires Valid() && s < NR_TASKS
      modifies this`m, this`cr3, this`tlb
      ensures Valid() && m == SetCr3(old(m), s)
    {
      cr3 := s;
      tlb := {};
      m := SetCr3(m, s);
    }

    /** free_user_pages; with n < NUM_PAG_DATA, the roll-back loop of sys_fork. */
    method FreeUserPages(dir: nat, n: nat)
      requires Valid() && dir < NR_TASKS && n <= NUM_PAG_DATA
      modifies this`m, physMem, tables[dir]
      ensures Valid() && m == FreePages(old(m), dir, n)
    {
      var t := GetPT(dir);
      for pag := 0 to n
        invariant Valid() && m == FreePages(old(m), dir, pag)
      {
        FreeFrameNo(tables[t][PAG_LOG_INIT_DATA + pag].frame);
        WriteEntry(t, PAG_LOG_INIT_DATA + pag, UNMAPPED);
      }
    }

    /** set_user_pages */
    method SetUserPagesOf(dir: nat)
      requires Valid() && dir < NR_TASKS
      modifies this`m, physMem, tables[dir]
      ensures Valid() && m == SetUserPages(old(m), dir, NUM_PAG_CODE + NUM_PAG_DATA)
    {
      var t := GetPT(dir);
      for pag := 0 to NUM_PAG_CODE
        invariant Valid() && m == SetUserPages(old(m), dir, pag)
      {
        var f := AllocFrame();
        WriteEntry(t, PAG_LOG_INIT_CODE + pag, CodePte(Field20(f)));
      }
      for pag := 0 to NUM_PAG_DATA
        invariant Valid() && m == SetUserPages(old(m), dir, NUM_PAG_CODE + pag)
      {
        var f := AllocFrame();
        WriteEntry(t, PAG_LOG_INIT_DATA + pag, DataPte(Field20(f)));
      }
    }

    // ----- The processor's view of memory

    /**
     A translation for a kernel access: any cached entry for the page, or the one in the loaded table.
     The kernel runs with write protection off, so only presence matters.
     */
    method Translate(pg: nat) returns (e: Pte)
      requires Valid() && pg < TOTAL_PAGES && Coherent(m) && m.pt[cr3][pg].present
      modifies this`m, this`tlb
      ensures Valid() && e == m.pt[cr3][pg]
      ensures m == old(m).(tlb := old(m.tlb) + {(pg, e)}) && Coherent(m)
    {
      var t := tables[dirs[cr3]];
      var candidates := {t[pg]} + set c | c in tlb && c.0 == pg :: c.1;
      assert t[pg] in candidates;
      e :| e in candidates;
      tlb := tlb + {(pg, e)};
      m := m.(tlb := tlb);
    }

    /** A user's read or write of a byte; `old(m)` allows it by the entry in the loaded table. */
    method UserByte(pg: nat, write: bool, off: nat, value: Byte) returns (b: Byte)
      requires Valid() && Coherent(m) && pg < TOTAL_PAGES
      requires Allowed(m, Access(pg, m.pt[cr3][pg], write, off, value))
      modifies this`m, this`tlb, phys
      ensures Valid() && m == UserAccess(old(m), Access(pg, old(m.pt)[old(cr3)][pg], write, off, value))
      ensures b == ByteSeen(m, pg, off) && (write ==> b == value)
    {
      var e := Translate(pg);
      if write {
        phys[e.frame * PAGE_SIZE + off] := value;
        m := m.(phys := SetByte(m.phys, e.frame * PAGE_SIZE + off, value));
      }
      b := phys[e.frame * PAGE_SIZE + off];
    }

    method LoadByte(v: nat) returns (b: Byte)
      requires Valid() && Coherent(m) && Accessible(m.pt[m.cr3], v)
      modifies this`m, this`tlb
      ensures Valid() && b == m.phys[PhysAddr(m.pt[m.cr3], v)]
      ensures m == old(m).(tlb := m.tlb) && Coherent(m)
    {
      var e := Translate(v / PAGE_SIZE);
      b := phys[e.frame * PAGE_SIZE + v % PAGE_SIZE];
    }

    method StoreByte(v: nat, b: Byte)
      requires Valid() && Coherent(m) && Accessible(m.pt[m.cr3], v)
      modifies this`m, this`tlb, phys
      ensures Valid() && Coherent(m)
      ensures m == old(m).(tlb := m.tlb, phys := old(m.phys)[PhysAddr(old(m.pt)[old(m.cr3)], v) := b])
    {
      var e := Translate(v / PAGE_SIZE);
      phys[e.frame * PAGE_SIZE + v % PAGE_SIZE] := b;
      m := m.(phys := m.phys[e.frame * PAGE_SIZE + v % PAGE_SIZE := b]);
    }

    /** A 32-bit read of copy_data, byte by byte since it may cross a page. */
    method LoadWord(p: nat, ghost start: nat, ghost sa: seq<nat>, ghost n: nat) returns (w: seq<Byte>)
      requires Valid() && Coherent(m) && InRange(m.phys, sa) && n + 4 <= |sa|
      requires p == start + n && Names(m.pt[m.cr3], sa, start)
      modifies this`m, this`tlb
      ensures Valid() && |w| == 4 && forall i :: n <= i < n + 4 ==> w[i - n] == m.phys[sa[i]]
      ensures m == old(m).(tlb := m.tlb) && Coherent(m)
    {
      w := [];
      while |w| < 4
        invariant Valid() && m == old(m).(tlb := m.tlb) && Coherent(m)
        invariant |w| <= 4 && forall i :: n <= i < n + |w| ==> w[i - n] == m.phys[sa[i]]
      {
        assert Named(m.pt[m.cr3], sa, start, n + |w|);
        var b := LoadByte(p + |w|);
        w := w + [b];
      }
    }

    /** One 32-bit move of copy_data: all four bytes are read before any is written. */
    method MoveWord(p: nat, q: nat, ghost start: nat, ghost dest: nat,
                    ghost sa: seq<nat>, ghost da: seq<nat>, ghost n: nat)
      requires Valid() && Coherent(m) && InRange(m.phys, sa) && InRange(m.phys, da) && n + 4 <= |sa| == |da|
      requires p == start + n && q == dest + n && Names(m.pt[m.cr3], sa, start) && Names(m.pt[m.cr3], da, dest)
      modifies this`m, this`tlb, phys
      ensures Valid() && Coherent(m)
      ensures m == old(m).(tlb := m.tlb, phys := CopyUnit(old(m.phys), sa, da, n, 4))
    {
      ghost var t := m.pt[m.cr3];
      var w := LoadWord(p, start, sa, n);
      for k := 0 to 4
        invariant Valid() && Coherent(m)
        invariant m == old(m).(tlb := m.tlb, phys := CopyUnit(old(m.phys), sa, da, n, k))
      {
        assert Named(t, da, dest, n + k);
        StoreByte(q + k, w[k]);
      }
    }

    /** One round of the first loop of copy_data. */
    method CopyWord(p: nat, q: nat, ghost start: nat, ghost dest: nat,
                    ghost sa: seq<nat>, ghost da: seq<nat>, ghost n: nat)
      requires Valid() && Coherent(m) && InRange(m.phys, sa) && InRange(m.phys, da) && n + 4 < |sa| == |da|
      requires p == start + n && q == dest + n && Names(m.pt[m.cr3], sa, start) && Names(m.pt[m.cr3], da, dest)
      modifies this`m, this`tlb, phys
      ensures Valid() && Coherent(m)
      ensures m == old(m).(tlb := m.tlb, phys := m.phys) && |m.phys| == |old(m.phys)|
      ensures CopyFrom(m.phys, sa, da, n + 4) == CopyFrom(old(m.phys), sa, da, n)
    {
      CopyFromStep(m.phys, sa, da, n, 4);
      MoveWord(p, q, start, dest, sa, da, n);
    }

    /** One round of the second. */
    method CopyByte(p: nat, q: nat, ghost start: nat, ghost dest: nat,
                    ghost sa: seq<nat>, ghost da: seq<nat>, ghost n: nat)
      requires Valid() && Coherent(m) && InRange(m.phys, sa) && InRange(m.phys, da) && n < |sa| == |da| <= n + 4
      requires p == start + n && q == dest + n && Names(m.pt[m.cr3], sa, start) && Names(m.pt[m.cr3], da, dest)
      modifies this`m, this`tlb, phys
      ensures Valid() && Coherent(m)
      ensures m == old(m).(tlb := m.tlb, phys := m.phys) && |m.phys| == |old(m.phys)|
      ensures CopyFrom(m.phys, sa, da, n + 1) == CopyFrom(old(m.phys), sa, da, n)
    {
      CopyFromStep(m.phys, sa, da, n, 1);
      assert Named(m.pt[m.cr3], sa, start, n) && Named(m.pt[m.cr3], da, dest, n);
      var b := LoadByte(p);
      StoreByte(q, b);
    }

    /** copy_data, on virtual addresses; `sa` and `da` are the physical addresses behind them. */
    method CopyData(start: nat, dest: nat, size: nat, ghost sa: seq<nat>, ghost da: seq<nat>)
      requires Valid() && Coherent(m) && InRange(m.phys, sa) && InRange(m.phys, da) && |sa| == |da| == size
      requires Names(m.pt[m.cr3], sa, start) && Names(m.pt[m.cr3], da, dest)
      modifies this`m, this`tlb, phys
      ensures Valid() && Coherent(m)
      ensures m == old(m).(tlb := m.tlb, phys := CopyFrom(old(m.phys), sa, da, 0))
    {
      ghost var goal := CopyFrom(m.phys, sa, da, 0);
      var n := 0;
      while size - n > 4
        invariant 0 <= n <= size
        invariant Valid() && Coherent(m) && m == old(m).(tlb := m.tlb, phys := m.phys)
        invariant InRange(m.phys, sa) && InRange(m.phys, da)
        invariant CopyFrom(m.phys, sa, da, n) == goal
      {
        CopyWord(start + n, dest + n, start, dest, sa, da, n);
        n := n + 4;
      }
      while size - n > 0
        invariant 0 <= n <= size <= n + 4
        invariant Valid() && Coherent(m) && m == old(m).(tlb := m.tlb, phys := m.phys)
        invariant InRange(m.phys, sa) && InRange(m.phys, da)
        invariant CopyFrom(m.phys, sa, da, n) == goal
      {
        CopyByte(start + n, dest + n, start, dest, sa, da, n);
        n := n + 1;
      }
    }

    // ----- sys_fork

    /** CODE: the child's code entries become the parent's. */
    method ShareCodePages(src: nat, dst: nat)
      requires Valid() && src < NR_TASKS && dst < NR_TASKS
      modifies this`m, tables[dst]
      ensures Valid() && m == ShareCode(old(m), src, dst, NUM_PAG_CODE)
    {
      for pag := 0 to NUM_PAG_CODE
        invariant Valid() && m == ShareCode(old(m), src, dst, pag)
      {
        WriteEntry(dst, PAG_LOG_INIT_CODE + pag, tables[src][PAG_LOG_INIT_CODE + pag]);
      }
    }

    /**
     Frame `f` is filled with page `pg` through the temporary page. The translation of the temporary page is
     dropped again by the CR3 load; while it is mapped, no older entry for it can be cached.
     */
    method CopyThroughTemp(src: nat, pg: nat, f: nat)
      requires Valid() && src < NR_TASKS && DataPage(pg) && f < TOTAL_PAGES
      requires m.cr3 == src && Coherent(m) && !m.pt[src][TEMP_PAG].present
      requires m.pt[src][pg].present && Frame(m, src, pg) < TOTAL_PAGES
      modifies this`m, this`tlb, this`cr3, phys, tables[src]
      ensures Valid() && m.tlb == {} && m.cr3 == src && m.used == old(m.used)
      ensures m.pt == old(m.pt)[src := old(m.pt)[src][TEMP_PAG := UNMAPPED]]
      ensures m.phys == CopyFrame(old(m.phys), Frame(old(m), src, pg), f)
    {
      SetSsPag(src, TEMP_PAG, f);
      ghost var t := m.pt[src];
      ghost var g := t[pg].frame;
      PageNames(t, pg);
      PageNames(t, TEMP_PAG);
      CopyData(pg * PAGE_SIZE, TEMP_PAG * PAGE_SIZE, PAGE_SIZE,
               Span(g * PAGE_SIZE, PAGE_SIZE), Span(f * PAGE_SIZE, PAGE_SIZE));
      PageCopyMoves(old(m.phys), g, f);
      DelSsPag(src, TEMP_PAG);
      LoadCr3(src);
      assert t[TEMP_PAG := UNMAPPED] == old(m.pt)[src][TEMP_PAG := UNMAPPED];
    }

    /** The body of the DATA loop for one page. */
    method ForkOnePage(src: nat, dst: nat, pg: nat, f: nat)
      requires Valid() && src < NR_TASKS && dst < NR_TASKS && src != dst && DataPage(pg) && f < TOTAL_PAGES
      requires m.cr3 == src && Coherent(m) && !m.pt[src][TEMP_PAG].present
      requires m.pt[src][pg].present && Frame(m, src, pg) < TOTAL_PAGES
      modifies this`m, this`tlb, this`cr3, phys, tables[src], tables[dst]
      ensures Valid() && m == ForkPage(old(m), src, dst, pg, f).(used := old(m.used))
    {
      SetSsPag(dst, pg, f);
      CopyThroughTemp(src, pg, f);
    }

    /** The DATA loop, with its roll-back when a frame is missing. */
    method ForkDataPages(src: nat, dst: nat) returns (ok: bool)
      requires Valid() && src < NR_TASKS && dst < NR_TASKS && src != dst && Copyable(m, src)
      modifies this`m, this`tlb, this`cr3, phys, physMem, tables[src], tables[dst]
      ensures Valid() && Forked(m, ok) == ForkPages(old(m), src, dst, NUM_PAG_DATA)
    {
      ghost var was := m;
      for pag := 0 to NUM_PAG_DATA
        invariant Valid() && Copyable(m, src) && Forked(m, true) == ForkPages(was, src, dst, pag)
      {
        ok := ForkRound(src, dst, pag);
        if !ok {
          ForkPagesStops(was, src, dst, pag + 1, NUM_PAG_DATA);
          return false;
        }
      }
      return true;
    }

    /** One round of that loop: a frame and its contents, or the roll-back. */
    method ForkRound(src: nat, dst: nat, pag: nat) returns (ok: bool)
      requires Valid() && src < NR_TASKS && dst < NR_TASKS && src != dst && Copyable(m, src) && pag < NUM_PAG_DATA
      modifies this`m, this`tlb, this`cr3, phys, physMem, tables[src], tables[dst]
      ensures var f := FreeFrom(old(m.used), NUM_PAG_KERNEL);
        && Valid() && ok == (f != -1) && (ok ==> Copyable(m, src))
        && m == if ok then ForkPage(old(m), src, dst, PAG_LOG_INIT_DATA + pag, f) else FreePages(old(m), dst, pag)
    {
      var f := AllocFrame();
      if f == -1 {
        FreeUserPages(dst, pag);
        return false;
      }
      assert DataPage(PAG_LOG_INIT_DATA + pag);
      ForkOnePage(src, dst, PAG_LOG_INIT_DATA + pag, f);
      return true;
    }

    /** The memory part of sys_fork. */
    method ForkMemory(src: nat, dst: nat) returns (ok: bool)
      requires Valid() && src < NR_TASKS && dst < NR_TASKS && src != dst && Copyable(m, src)
      modifies this`m, this`tlb, this`cr3, phys, physMem, tables[src], tables[dst]
      ensures Valid() && Forked(m, ok) == ForkMem(old(m), src, dst)
    {
      ShareCodeIs(m, src, dst, NUM_PAG_CODE);
      ShareCodePages(src, dst);
      assert m.pt[src] == old(m.pt)[src];
      ok := ForkDataPages(src, dst);
      if ok {
        LoadCr3(src);
      }
    }

    // ----- Boot

    /** init_frames */
    method InitFrames()
      requires Layout()
      modifies physMem
      ensures physMem[..] == BootUsed()
    {
      for i := 0 to TOTAL_PAGES
        invariant forall k :: 0 <= k < i ==> !physMem[k]
      {
        physMem[i] := false;
      }
      for i := 0 to NUM_PAG_KERNEL
        invariant forall k :: 0 <= k < TOTAL_PAGES ==> physMem[k] == (k < i)
      {
        physMem[i] := true;
      }
    }

    /** init_table_pages for one slot */
    method InitTable(j: nat)
      requires Layout() && j < NR_TASKS
      modifies tables[j]
      ensures tables[j][..] == BootTable()
    {
      var t := tables[j];
      for i := 0 to TOTAL_PAGES
        invariant forall k :: 0 <= k < i ==> t[k] == UNMAPPED
      {
        t[i] := UNMAPPED;
      }
      for i := 1 to NUM_PAG_KERNEL
        invariant forall k :: 0 <= k < TOTAL_PAGES ==> t[k] == if 1 <= k < i then KernelPte(k) else UNMAPPED
      {
        t[i] := Pte(true, true, t[i].user, i);
      }
    }

    method InitTablePages()
      requires Layout()
      modifies set t | t in tables
      ensures forall j :: 0 <= j < NR_TASKS ==> tables[j][..] == BootTable()
    {
      for j := 0 to NR_TASKS
        invariant forall k :: 0 <= k < j ==> tables[k][..] == BootTable()
      {
        InitTable(j);
      }
    }

    /** init_dir_pages */
    method InitDirPages()
      requires Layout()
      modifies dirs
      ensures forall i :: 0 <= i < NR_TASKS ==> dirs[i] == i
    {
      for i := 0 to NR_TASKS
        invariant forall k :: 0 <= k < i ==> dirs[k] == k
      {
        dirs[i] := i;
      }
    }

    /** init_mm, and the memory part of init_task1 */
    method BootMemory()
      requires Layout()
      modifies objects
      ensures Valid() && m == BootMem(old(phys[..])) && phys[..] == old(phys[..])
    {
      InitTablePages();
      InitFrames();
      InitDirPages();
      cr3, tlb := 0, {};
      m := InitMm(phys[..]);
      LoadCr3(0);
      SetUserPagesOf(1);
      LoadCr3(1);
    }

    /** copy_data of the user's image to user memory: kernel writes reach the read-only code pages too. */
    method LoadImage(start: nat, size: nat)
      requires Valid() && m == BootMem(m.phys) && Fits(start, size)
      modifies this`m, this`tlb, phys
      ensures Valid() && m == BootMem(m.phys).(tlb := m.tlb) && Coherent(m)
      ensures FirstTable(m.pt[1]) && m.phys == Loaded(m.pt[1], old(m.phys), start, size)
    {
      ghost var before, t := m.phys, m.pt[1];
      BootTableIsFirst(before);
      SourceNames(t, start, size);
      TargetNames(t, size);
      ImageInRange(t, before, start, size);
      CopyData(start, L_USER_START, size, Span(start, size), Target(t, size));
      BootIgnoresContents(before, m.phys);
    }
  }
}
