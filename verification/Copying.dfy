/**
 copy_data and its twins copy_from_user and copy_to_user (utils.c): words while more than four bytes
 are left, then single bytes, from the addresses `sa` to the addresses `da`.
 */
module Copying {
  import opened Config
  import opened Memory

  ghost predicate InRange(m: seq<Byte>, a: seq<nat>) {
    forall i :: 0 <= i < |a| ==> a[i] < |m|
  }

  /** Memory after bytes n .. n + k have been read, all of them, and then written. */
  function CopyUnit(m: seq<Byte>, sa: seq<nat>, da: seq<nat>, n: nat, k: nat): (r: seq<Byte>)
    requires InRange(m, sa) && InRange(m, da) && n + k <= |sa| == |da|
    ensures |r| == |m|
    decreases k, |m|
  {
    if k == 0 then m
    else CopyUnit(m, sa, da, n, k - 1)[da[n + k - 1] := m[sa[n + k - 1]]]
  }

  /** A word while more than four bytes are left, else a byte. */
  function UnitSize(left: nat): (k: nat)
    ensures 1 <= k && (left > 0 ==> k <= left)
  {
    if left > 4 then 4 else 1
  }

  /** The loop of copy_data from byte `n` on. */
  function CopyFrom(m: seq<Byte>, sa: seq<nat>, da: seq<nat>, n: nat): (r: seq<Byte>)
    requires InRange(m, sa) && InRange(m, da) && n <= |sa| == |da|
    ensures |r| == |m|
    decreases |sa| - n
  {
    if n == |sa| then m
    else
      var k := UnitSize(|sa| - n);
      CopyFrom(CopyUnit(m, sa, da, n, k), sa, da, n + k)
  }

  lemma CopyFromStep(m: seq<Byte>, sa: seq<nat>, da: seq<nat>, n: nat, k: nat)
    requires InRange(m, sa) && InRange(m, da) && n < |sa| == |da| && k == UnitSize(|sa| - n)
    ensures CopyFrom(m, sa, da, n) == CopyFrom(CopyUnit(m, sa, da, n, k), sa, da, n + k)
  {
  }

  // ----- When it moves the bytes

  /** No byte is overwritten before it is read, and no destination is written twice. */
  ghost predicate NoClobber(sa: seq<nat>, da: seq<nat>) {
    && (forall i, j :: 0 <= i < j < |sa| && i < |da| ==> da[i] != sa[j])
    && (forall i, j :: 0 <= i < j < |da| ==> da[i] != da[j])
  }

  ghost predicate Untouched(da: seq<nat>, n: nat, a: nat)
    requires n <= |da|
  {
    forall i :: 0 <= i < n ==> da[i] != a
  }

  /** The first `n` bytes have arrived and nothing else has changed. */
  ghost predicate Moved(m: seq<Byte>, r: seq<Byte>, sa: seq<nat>, da: seq<nat>, n: nat)
    requires InRange(m, sa) && InRange(m, da) && n <= |sa| == |da|
  {
    && |r| == |m|
    && (forall i :: 0 <= i < n ==> r[da[i]] == m[sa[i]])
    && (forall a {:trigger Untouched(da, n, a)} :: 0 <= a < |m| && Untouched(da, n, a) ==> r[a] == m[a])
  }

  lemma {:induction false} UnitMoves(m: seq<Byte>, r: seq<Byte>, sa: seq<nat>, da: seq<nat>, n: nat, k: nat)
    requires InRange(m, sa) && InRange(m, da) && n + k <= |sa| == |da| && NoClobber(sa, da)
    requires Moved(m, r, sa, da, n)
    ensures Moved(m, CopyUnit(r, sa, da, n, k), sa, da, n + k)
  {
    if k > 0 {
      UnitMoves(m, r, sa, da, n, k - 1);
      assert Untouched(da, n, sa[n + k - 1]);
      forall a | 0 <= a < |m| && Untouched(da, n + k, a) ensures CopyUnit(r, sa, da, n, k)[a] == m[a] {
        assert Untouched(da, n + k - 1, a) && da[n + k - 1] != a;
      }
    }
  }

  /** Copying in words and bytes is a byte move whenever no byte is overwritten before it is read. */
  lemma {:induction false} CopyMoves(m: seq<Byte>, r: seq<Byte>, sa: seq<nat>, da: seq<nat>, n: nat)
    requires InRange(m, sa) && InRange(m, da) && n <= |sa| == |da| && NoClobber(sa, da)
    requires Moved(m, r, sa, da, n)
    ensures Moved(m, CopyFrom(r, sa, da, n), sa, da, |sa|)
    decreases |sa| - n
  {
    if n < |sa| {
      var k := UnitSize(|sa| - n);
      UnitMoves(m, r, sa, da, n, k);
      CopyMoves(m, CopyUnit(r, sa, da, n, k), sa, da, n + k);
    }
  }

  // ----- Consecutive addresses

  function Span(a: nat, size: nat): (s: seq<nat>)
    ensures |s| == size && forall i :: 0 <= i < size ==> s[i] == a + i
  {
    seq(size, i => a + i)
  }

  /** copy_data(start, dest, size) on a flat memory. */
  function CopyData(m: seq<Byte>, start: nat, dest: nat, size: nat): (r: seq<Byte>)
    requires start + size <= |m| && dest + size <= |m|
    ensures |r| == |m|
  {
    CopyFrom(m, Span(start, size), Span(dest, size), 0)
  }

  /** memmove */
  function Move(m: seq<Byte>, start: nat, dest: nat, size: nat): seq<Byte>
    requires start + size <= |m| && dest + size <= |m|
  {
    m[..dest] + m[start..start + size] + m[dest + size..]
  }

  /** The destination does not begin inside the source. */
  predicate Safe(start: nat, dest: nat, size: nat) {
    dest <= start || dest >= start + size
  }

  /** Also with an overlap from above, and for every remainder of one to four bytes. */
  lemma SafeCopyMoves(m: seq<Byte>, start: nat, dest: nat, size: nat)
    requires start + size <= |m| && dest + size <= |m| && Safe(start, dest, size)
    ensures CopyData(m, start, dest, size) == Move(m, start, dest, size)
  {
    var sa, da := Span(start, size), Span(dest, size);
    assert NoClobber(sa, da);
    CopyMoves(m, m, sa, da, 0);
    var r, v := CopyData(m, start, dest, size), Move(m, start, dest, size);
    forall a | 0 <= a < |m| ensures r[a] == v[a] {
      if dest <= a < dest + size {
        assert da[a - dest] == a && sa[a - dest] == start + (a - dest);
      } else {
        assert Untouched(da, size, a);
      }
    }
  }

  // ----- Otherwise it does not

  /** The first read, at or behind the distance, of a byte that an earlier write has replaced. */
  function FirstStale(size: nat, distance: nat): nat {
    if distance >= 4 * ((size - 1) / 4) then distance else 4 * ((distance + 3) / 4)
  }

  function Zeros(n: nat): seq<Byte> {
    seq(n, _ => 0)
  }

  lemma {:induction false} UnitOfZeros(m: seq<Byte>, sa: seq<nat>, da: seq<nat>, n: nat, k: nat, hot: nat)
    requires InRange(m, sa) && InRange(m, da) && n + k <= |sa| == |da| && hot < |m|
    requires m == Zeros(|m|) || m == Zeros(|m|)[hot := 1]
    requires forall i :: n <= i < n + k ==> sa[i] != hot
    ensures CopyUnit(m, sa, da, n, k)
         == if exists i :: n <= i < n + k && da[i] == hot then Zeros(|m|) else m
  {
    if k > 0 {
      UnitOfZeros(m, sa, da, n, k - 1, hot);
    }
  }

  lemma {:induction false} ZerosStay(m: seq<Byte>, sa: seq<nat>, da: seq<nat>, n: nat)
    requires InRange(m, sa) && InRange(m, da) && n <= |sa| == |da| && m == Zeros(|m|)
    ensures CopyFrom(m, sa, da, n) == m
    decreases |sa| - n
  {
    if n < |sa| {
      var k := UnitSize(|sa| - n);
      UnitKeepsZeros(m, sa, da, n, k);
      ZerosStay(m, sa, da, n + k);
    }
  }

  lemma {:induction false} UnitKeepsZeros(m: seq<Byte>, sa: seq<nat>, da: seq<nat>, n: nat, k: nat)
    requires InRange(m, sa) && InRange(m, da) && n + k <= |sa| == |da| && m == Zeros(|m|)
    ensures CopyUnit(m, sa, da, n, k) == m
  {
    if k > 0 { UnitKeepsZeros(m, sa, da, n, k - 1); }
  }

  /** The first unit ends before the stale byte is read, and has replaced it. */
  lemma FirstUnitIsStale(size: nat, distance: nat)
    requires 0 < distance < size
    ensures UnitSize(size) <= FirstStale(size, distance) < distance + UnitSize(size)
    ensures FirstStale(size, distance) < size
  {
  }

  /** A first unit that is over before byte `j` is read, and that writes over it, leaves only zeros. */
  lemma StaleUnit(m: seq<Byte>, start: nat, dest: nat, size: nat, k: nat, j: nat)
    requires start < dest && dest + size <= |m| && k <= j < size && 0 <= j - (dest - start) < k
    requires m == Zeros(|m|)[start + j := 1]
    ensures CopyUnit(m, Span(start, size), Span(dest, size), 0, k) == Zeros(|m|)
  {
    var da := Span(dest, size);
    UnitOfZeros(m, Span(start, size), da, 0, k, start + j);
    assert da[j - (dest - start)] == start + j;
  }

  /** A single 1 at the address of the stale read is gone before it is read. */
  lemma StaleRead(m: seq<Byte>, start: nat, dest: nat, size: nat, j: nat)
    requires start < dest < start + size && dest + size <= |m| && j == FirstStale(size, dest - start) < size
    requires m == Zeros(|m|)[start + j := 1]
    ensures CopyData(m, start, dest, size) == Zeros(|m|)
  {
    var sa, da, k := Span(start, size), Span(dest, size), UnitSize(size);
    FirstUnitIsStale(size, dest - start);
    StaleUnit(m, start, dest, size, k, j);
    CopyFromStep(m, sa, da, 0, k);
    ZerosStay(Zeros(|m|), sa, da, k);
  }

  /** If the destination begins inside the source, some memory is not moved correctly. */
  lemma OverlapBreaks(start: nat, dest: nat, size: nat) returns (m: seq<Byte>)
    requires !Safe(start, dest, size)
    ensures |m| == dest + size && CopyData(m, start, dest, size) != Move(m, start, dest, size)
  {
    var j := FirstStale(size, dest - start);
    m := Zeros(dest + size)[start + j := 1];
    FirstUnitIsStale(size, dest - start);
    StaleRead(m, start, dest, size, j);
    assert Move(m, start, dest, size)[dest + j] == m[start + j];
  }

  ghost predicate AlwaysMoves(start: nat, dest: nat, size: nat) {
    forall m: seq<Byte> :: start + size <= |m| && dest + size <= |m| ==>
      CopyData(m, start, dest, size) == Move(m, start, dest, size)
  }

  /** copy_data is memmove for every memory content exactly when the destination does not begin inside the source. */
  lemma CopyIsMoveIff(start: nat, dest: nat, size: nat)
    ensures AlwaysMoves(start, dest, size) <==> Safe(start, dest, size)
  {
    if Safe(start, dest, size) {
      forall m: seq<Byte> | start + size <= |m| && dest + size <= |m|
        ensures CopyData(m, start, dest, size) == Move(m, start, dest, size)
      {
        SafeCopyMoves(m, start, dest, size);
      }
    } else {
      var m := OverlapBreaks(start, dest, size);
    }
  }

  // ----- Through a page table

  /** The physical address of a virtual one under a page table. */
  function PhysAddr(t: seq<Pte>, v: nat): nat {
    if v / PAGE_SIZE < |t| then t[v / PAGE_SIZE].frame * PAGE_SIZE + v % PAGE_SIZE else 0
  }

  predicate Accessible(t: seq<Pte>, v: nat) {
    v / PAGE_SIZE < |t| && t[v / PAGE_SIZE].present && t[v / PAGE_SIZE].frame < TOTAL_PAGES
  }

  /** `a` lists the physical addresses of the accessible virtual addresses from `v` on. */
  ghost predicate Names(t: seq<Pte>, a: seq<nat>, v: nat) {
    forall i :: 0 <= i < |a| ==> Named(t, a, v, i)
  }

  predicate Named(t: seq<Pte>, a: seq<nat>, v: nat, i: nat)
    requires i < |a|
  {
    a[i] == PhysAddr(t, v + i) && Accessible(t, v + i)
  }

  /** The addresses of one page are those of its frame. */
  lemma PageNames(t: seq<Pte>, pg: nat)
    requires pg < |t| && t[pg].present && t[pg].frame < TOTAL_PAGES
    ensures Names(t, Span(t[pg].frame * PAGE_SIZE, PAGE_SIZE), pg * PAGE_SIZE)
  {
    var a := Span(t[pg].frame * PAGE_SIZE, PAGE_SIZE);
    forall i | 0 <= i < |a| ensures Named(t, a, pg * PAGE_SIZE, i) {
      assert (pg * PAGE_SIZE + i) / PAGE_SIZE == pg && (pg * PAGE_SIZE + i) % PAGE_SIZE == i;
    }
  }

  lemma PageCopyMoves(phys: seq<Byte>, f: nat, g: nat)
    requires (f + 1) * PAGE_SIZE <= |phys| && (g + 1) * PAGE_SIZE <= |phys|
    ensures CopyData(phys, f * PAGE_SIZE, g * PAGE_SIZE, PAGE_SIZE) == CopyFrame(phys, f, g)
  {
    SafeCopyMoves(phys, f * PAGE_SIZE, g * PAGE_SIZE, PAGE_SIZE);
  }
}
