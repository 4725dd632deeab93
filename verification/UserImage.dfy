/**
 The last step of booting (system.c): the user's code and data are copied to the first process's pages, by
 virtual addresses, after its directory has been loaded.
 */
module UserImage {
  import opened Config
  import opened Memory
  import opened MemoryBoot
  import opened Copying

  /** Where user pages begin. */
  const L_USER_START: nat := 0x100000
  /** Data and code pages follow each other. */
  const USER_BYTES: nat := (NUM_PAG_DATA + NUM_PAG_CODE) * PAGE_SIZE

  /** The frame the first process's page got. */
  function FirstFrame(pg: nat): int {
    if DataPage(pg) then NUM_PAG_KERNEL + 2 * (pg - PAG_LOG_INIT_DATA + NUM_PAG_CODE) else CodeFrame(pg)
  }

  /** The page table the first process boots with, whatever the frames contain. */
  ghost predicate FirstTable(t: seq<Pte>) {
    && |t| == TOTAL_PAGES
    && (forall pg :: 1 <= pg < NUM_PAG_KERNEL ==> t[pg].present && t[pg].frame == pg)
    && (forall pg :: DataPage(pg) || CodePage(pg) ==> t[pg].present && t[pg].frame == FirstFrame(pg))
  }

  lemma BootTableIsFirst(phys: seq<Byte>)
    requires |phys| == TOTAL_PAGES * PAGE_SIZE
    ensures FirstTable(BootMem(phys).pt[1])
  {
    var m, r := InitMm(phys), BootMem(phys);
    SetUserPagesIs(m, NUM_PAG_CODE + NUM_PAG_DATA);
    assert FirstPages(m, r, NUM_PAG_CODE + NUM_PAG_DATA);
    FirstProcessMap(phys, r);
  }

  /** What boot builds does not depend on what the frames contain. */
  lemma {:induction false} PagesIgnoreContents(m: Mem, phys: seq<Byte>, s: nat, n: nat)
    requires Sizes(m) && |phys| == |m.phys| && s < NR_TASKS && n <= NUM_PAG_CODE + NUM_PAG_DATA
    ensures SetUserPages(m.(phys := phys), s, n) == SetUserPages(m, s, n).(phys := phys)
  {
    if n > 0 { PagesIgnoreContents(m, phys, s, n - 1); }
  }

  lemma BootIgnoresContents(before: seq<Byte>, after: seq<Byte>)
    requires |before| == |after| == TOTAL_PAGES * PAGE_SIZE
    ensures BootMem(after) == BootMem(before).(phys := after)
  {
    PagesIgnoreContents(InitMm(before), after, 1, NUM_PAG_CODE + NUM_PAG_DATA);
  }

  // ----- The copy

  /** The physical addresses behind the first bytes of user memory. */
  function Target(t: seq<Pte>, size: nat): (a: seq<nat>)
    ensures |a| == size && forall i :: 0 <= i < size ==> a[i] == PhysAddr(t, L_USER_START + i)
  {
    seq<nat>(size, i requires 0 <= i < size => PhysAddr(t, L_USER_START + i))
  }

  /** The image lies in the kernel's frames, above page 0, and fits the user's pages. */
  predicate Fits(start: nat, size: nat) {
    PAGE_SIZE <= start && start + size <= L_USER_START && size <= USER_BYTES
  }

  lemma SourceNames(t: seq<Pte>, start: nat, size: nat)
    requires FirstTable(t) && Fits(start, size)
    ensures Names(t, Span(start, size), start)
  {
    var a := Span(start, size);
    forall i | 0 <= i < size ensures Named(t, a, start, i) {
      var pg := (start + i) / PAGE_SIZE;
      assert 1 <= pg < NUM_PAG_KERNEL;
      assert start + i == pg * PAGE_SIZE + (start + i) % PAGE_SIZE;
    }
  }

  /** A byte of user memory: its page, and so its frame and address. */
  lemma TargetAt(t: seq<Pte>, i: nat)
    requires FirstTable(t) && i < USER_BYTES
    ensures var v := L_USER_START + i;
      var pg := v / PAGE_SIZE;
      && (DataPage(pg) || CodePage(pg)) && Accessible(t, v)
      && PhysAddr(t, v) == FirstFrame(pg) * PAGE_SIZE + v % PAGE_SIZE
      && NUM_PAG_KERNEL <= FirstFrame(pg) < TOTAL_PAGES
  {
  }

  lemma TargetNames(t: seq<Pte>, size: nat)
    requires FirstTable(t) && size <= USER_BYTES
    ensures Names(t, Target(t, size), L_USER_START)
  {
    forall i | 0 <= i < size ensures Named(t, Target(t, size), L_USER_START, i) {
      TargetAt(t, i);
    }
  }

  /** Different frames share no address. */
  lemma AddressesApart(f: nat, g: nat, x: nat, y: nat)
    requires x < PAGE_SIZE && y < PAGE_SIZE && (f != g || x != y)
    ensures f * PAGE_SIZE + x != g * PAGE_SIZE + y
  {
  }

  lemma FramesApart(pg: nat, qg: nat)
    requires pg != qg && (DataPage(pg) || CodePage(pg)) && (DataPage(qg) || CodePage(qg))
    ensures FirstFrame(pg) != FirstFrame(qg)
  {
  }

  lemma TargetInjective(t: seq<Pte>, i: nat, j: nat)
    requires FirstTable(t) && i < j < USER_BYTES
    ensures PhysAddr(t, L_USER_START + i) != PhysAddr(t, L_USER_START + j)
  {
    TargetAt(t, i);
    TargetAt(t, j);
    var v, w := L_USER_START + i, L_USER_START + j;
    if v / PAGE_SIZE != w / PAGE_SIZE { FramesApart(v / PAGE_SIZE, w / PAGE_SIZE); }
    assert v == v / PAGE_SIZE * PAGE_SIZE + v % PAGE_SIZE && w == w / PAGE_SIZE * PAGE_SIZE + w % PAGE_SIZE;
    AddressesApart(FirstFrame(v / PAGE_SIZE), FirstFrame(w / PAGE_SIZE), v % PAGE_SIZE, w % PAGE_SIZE);
  }

  lemma ImageNoClobber(t: seq<Pte>, start: nat, size: nat)
    requires FirstTable(t) && Fits(start, size)
    ensures NoClobber(Span(start, size), Target(t, size))
  {
    var sa, da := Span(start, size), Target(t, size);
    forall i, j | 0 <= i < j < size ensures da[i] != sa[j] && da[i] != da[j] {
      TargetAt(t, i);
      TargetInjective(t, i, j);
    }
  }

  lemma ImageInRange(t: seq<Pte>, phys: seq<Byte>, start: nat, size: nat)
    requires FirstTable(t) && Fits(start, size) && |phys| == TOTAL_PAGES * PAGE_SIZE
    ensures InRange(phys, Span(start, size)) && InRange(phys, Target(t, size))
  {
    forall i | 0 <= i < size ensures Target(t, size)[i] < |phys| {
      TargetAt(t, i);
    }
  }

  /** The frames once the image has been copied. */
  function Loaded(t: seq<Pte>, phys: seq<Byte>, start: nat, size: nat): (r: seq<Byte>)
    requires FirstTable(t) && Fits(start, size) && |phys| == TOTAL_PAGES * PAGE_SIZE
    ensures |r| == |phys|
  {
    ImageInRange(t, phys, start, size);
    CopyFrom(phys, Span(start, size), Target(t, size), 0)
  }

  /** The image arrives at user addresses 0x100000 and up, byte for byte, and nothing else changes. */
  lemma ImageArrives(t: seq<Pte>, phys: seq<Byte>, start: nat, size: nat)
    requires FirstTable(t) && Fits(start, size) && |phys| == TOTAL_PAGES * PAGE_SIZE
    ensures var r := Loaded(t, phys, start, size);
      && (forall i :: 0 <= i < size ==> UserByteAt(t, r, i) == phys[start + i])
      && (forall a :: 0 <= a < |phys| && a !in Target(t, size) ==> r[a] == phys[a])
  {
    var sa, da := Span(start, size), Target(t, size);
    ImageInRange(t, phys, start, size);
    ImageNoClobber(t, start, size);
    CopyMoves(phys, phys, sa, da, 0);
    var r := Loaded(t, phys, start, size);
    forall i | 0 <= i < size ensures UserByteAt(t, r, i) == phys[start + i] {
      assert r[da[i]] == phys[sa[i]];
    }
    forall a | 0 <= a < |phys| && a !in da ensures r[a] == phys[a] {
      assert Untouched(da, size, a);
    }
  }

  /** Byte `i` of user memory, as a page table shows it. */
  function UserByteAt(t: seq<Pte>, phys: seq<Byte>, i: nat): Byte {
    var a := PhysAddr(t, L_USER_START + i);
    if a < |phys| then phys[a] else 0
  }
}
