/**
 The layout of a task_union (include/sched.h) in bytes, and what copy_data(current(), new_s, 4096) does to it: it copies
 each field of the descriptor and each word of the stack, and so may be taken field by field.
 */
module SlotCopy {
  import opened Config
  import opened Memory
  import opened Stacks
  import opened Copying

  /** The words of a slot: those of task_struct, in order, and the stack words behind them. */
  datatype Field =
    | Pid | AnchorNext | AnchorPrev | KernelEsp | State | Quantum | DirPages | Parent
    | ChildAnchorNext | ChildAnchorPrev | ChildsNext | ChildsPrev | PendingUnblocks
    | StackWord(i: nat)

  /** The number of the word a field lies in. */
  function WordOf(f: Field): nat {
    match f
    case Pid => 0
    case AnchorNext => 1
    case AnchorPrev => 2
    case KernelEsp => 3
    case State => 4
    case Quantum => 5
    case DirPages => 6
    case Parent => 7
    case ChildAnchorNext => 8
    case ChildAnchorPrev => 9
    case ChildsNext => 10
    case ChildsPrev => 11
    case PendingUnblocks => 12
    case StackWord(i) => i
  }

  predicate IsField(f: Field) {
    f.StackWord? ==> TASK_WORDS <= f.i < KERNEL_STACK_SIZE
  }

  function FieldAt(w: nat): (f: Field)
    requires w < KERNEL_STACK_SIZE
    ensures IsField(f) && WordOf(f) == w
  {
    if w >= TASK_WORDS then StackWord(w) else
    [Pid, AnchorNext, AnchorPrev, KernelEsp, State, Quantum, DirPages, Parent,
     ChildAnchorNext, ChildAnchorPrev, ChildsNext, ChildsPrev, PendingUnblocks][w]
  }

  /** The fields are exactly the words of the slot: none is missing and no two overlap. */
  lemma FieldsTileTheSlot(f: Field)
    requires IsField(f)
    ensures WordOf(f) < KERNEL_STACK_SIZE && FieldAt(WordOf(f)) == f
  {
  }

  /** The PID comes first, and the other fields follow in the order of their declaration. */
  lemma FieldOffsets()
    ensures 4 * WordOf(Pid) == 0 && 4 * WordOf(AnchorNext) == 4 && 4 * WordOf(AnchorPrev) == 8
    ensures 4 * WordOf(KernelEsp) == 12 && 4 * WordOf(State) == 16 && 4 * WordOf(Quantum) == 20
    ensures 4 * WordOf(DirPages) == 24 && 4 * WordOf(Parent) == 28
    ensures 4 * WordOf(ChildAnchorNext) == 32 && 4 * WordOf(ChildAnchorPrev) == 36
    ensures 4 * WordOf(ChildsNext) == 40 && 4 * WordOf(ChildsPrev) == 44 && 4 * WordOf(PendingUnblocks) == 48
  {
  }

  /** The memory holds task[] from address `base` on. */
  predicate HoldsSlots(m: seq<Byte>, base: nat) {
    base + NR_TASKS * 4096 <= |m|
  }

  function SlotAddress(base: nat, s: nat): nat { base + s * 4096 }

  /** The four bytes of a field of slot `s`. */
  function Read(m: seq<Byte>, base: nat, s: nat, f: Field): seq<Byte>
    requires HoldsSlots(m, base) && s < NR_TASKS && IsField(f)
  {
    FieldsTileTheSlot(f);
    var a := SlotAddress(base, s) + 4 * WordOf(f);
    m[a..a + 4]
  }

  /** What a move does to a stretch of memory that lies inside its destination, or outside. */
  lemma MovedStretch(m: seq<Byte>, start: nat, dest: nat, size: nat, a: nat, len: nat)
    requires start + size <= |m| && dest + size <= |m| && a + len <= |m|
    ensures dest <= a && a + len <= dest + size ==>
      Move(m, start, dest, size)[a..a + len] == m[start + (a - dest)..start + (a - dest) + len]
    ensures a + len <= dest || dest + size <= a ==> Move(m, start, dest, size)[a..a + len] == m[a..a + len]
  {
    var r := Move(m, start, dest, size);
    var inside := dest <= a && a + len <= dest + size;
    var b := if inside then start + (a - dest) else a;
    if inside || a + len <= dest || dest + size <= a {
      var x, y := r[a..a + len], m[b..b + len];
      forall k | 0 <= k < len ensures x[k] == y[k] {
        assert r[a + k] == if dest <= a + k < dest + size then m[start + (a + k - dest)] else m[a + k];
      }
    }
  }

  lemma MovedSlot(m: seq<Byte>, base: nat, s: nat, n: nat, t: nat, off: nat)
    requires HoldsSlots(m, base) && s < NR_TASKS && n < NR_TASKS && t < NR_TASKS && off + 4 <= 4096
    ensures var r := Move(m, SlotAddress(base, s), SlotAddress(base, n), 4096);
      var a, b := SlotAddress(base, t) + off, SlotAddress(base, if t == n then s else t) + off;
      |r| == |m| && r[a..a + 4] == m[b..b + 4]
  {
    var start, dest, a := SlotAddress(base, s), SlotAddress(base, n), SlotAddress(base, t) + off;
    MovedStretch(m, start, dest, 4096, a, 4);
    if t == n {
      assert start + (a - dest) == start + off;
    } else {
      assert a + 4 <= dest || dest + 4096 <= a;
    }
  }

  /** The byte copy of a slot over another one copies every field of it, and no other slot changes. */
  lemma SlotCopyCopiesFields(m: seq<Byte>, base: nat, s: nat, n: nat, t: nat, f: Field)
    requires HoldsSlots(m, base) && s < NR_TASKS && n < NR_TASKS && t < NR_TASKS && s != n && IsField(f)
    ensures var r := CopyData(m, SlotAddress(base, s), SlotAddress(base, n), 4096);
      Read(r, base, t, f) == Read(m, base, if t == n then s else t, f)
  {
    FieldsTileTheSlot(f);
    SafeCopyMoves(m, SlotAddress(base, s), SlotAddress(base, n), 4096);
    MovedSlot(m, base, s, n, t, 4 * WordOf(f));
  }

  /** Nothing outside the copied slot changes either. */
  lemma SlotCopyStaysInside(m: seq<Byte>, base: nat, s: nat, n: nat, a: nat)
    requires HoldsSlots(m, base) && s < NR_TASKS && n < NR_TASKS && s != n
    requires a < |m| && !(SlotAddress(base, n) <= a < SlotAddress(base, n) + 4096)
    ensures CopyData(m, SlotAddress(base, s), SlotAddress(base, n), 4096)[a] == m[a]
  {
    SafeCopyMoves(m, SlotAddress(base, s), SlotAddress(base, n), 4096);
  }
}
