/**
 Sequences of slot numbers without repetitions: the abstract value of every ring in the kernel.
 */
module SlotSeqs {

  ghost predicate NoDup<T>(s: seq<T>) {
    forall i, j :: 0 <= i < j < |s| ==> s[i] != s[j]
  }

  /** The sequence left when the first occurrence of `x` is taken out. */
  function Without(q: seq<nat>, x: nat): seq<nat> {
    if q == [] then []
    else if q[0] == x then q[1..]
    else [q[0]] + Without(q[1..], x)
  }

  lemma {:induction false} WithoutAbsent(q: seq<nat>, x: nat)
    requires x !in q
    ensures Without(q, x) == q
  {
    if q != [] {
      WithoutAbsent(q[1..], x);
      assert q == [q[0]] + q[1..];
    }
  }

  /** Taking out position `k` of a repetition-free sequence is taking out its element. */
  lemma {:induction false} WithoutAt(q: seq<nat>, k: nat)
    requires k < |q| && NoDup(q)
    ensures Without(q, q[k]) == q[..k] + q[k + 1..]
  {
    if k != 0 {
      var t := q[1..];
      assert t[k - 1] == q[k] && q[0] != q[k];
      WithoutAt(t, k - 1);
      assert t[..k - 1] == q[1..k] && t[k..] == q[k + 1..];
      assert [q[0]] + q[1..k] == q[..k];
    }
  }

  lemma TailFacts(q: seq<nat>)
    requires NoDup(q) && q != []
    ensures NoDup(q[1..])
    ensures q[0] in q
    ensures forall y :: y in q[1..] <==> y in q && y != q[0]
  {
    forall y | y in q && y != q[0] ensures y in q[1..] {
      var i :| 0 <= i < |q| && q[i] == y;
      assert q[1..][i - 1] == y;
    }
  }

  lemma AppendFacts(q: seq<nat>, x: nat)
    ensures NoDup(q) && x !in q ==> NoDup(q + [x])
    ensures forall y :: y in q + [x] <==> y in q || y == x
  {
  }

  lemma ConcatFacts(q: seq<nat>, r: seq<nat>)
    ensures NoDup(q) && NoDup(r) && (forall x :: x in q ==> x !in r) ==> NoDup(q + r)
    ensures forall x :: x in q + r <==> x in q || x in r
  {
    if NoDup(q) && NoDup(r) && (forall x :: x in q ==> x !in r) {
      forall i, j | 0 <= i < j < |q + r| ensures (q + r)[i] != (q + r)[j] {
        if i < |q| <= j { assert q[i] in q; }
      }
    }
  }

  lemma Splice(a: seq<nat>, b: seq<nat>, c: seq<nat>, d: seq<nat>, e: seq<nat>, f: seq<nat>, g: seq<nat>)
    requires a + b == c + d && d + e == f + g
    ensures a + (b + e) == (c + f) + g
  {
    assert a + (b + e) == (a + b) + e;
    assert (c + d) + e == c + (d + e);
    assert c + (f + g) == (c + f) + g;
  }

  lemma CutFacts(q: seq<nat>, k: nat)
    requires NoDup(q) && k < |q|
    ensures NoDup(q[..k] + q[k + 1..])
    ensures forall y :: y in q[..k] + q[k + 1..] <==> y in q && y != q[k]
  {
    var r := q[..k] + q[k + 1..];
    assert forall i :: 0 <= i < |r| ==> r[i] == q[if i < k then i else i + 1];
    forall y | y in q && y != q[k] ensures y in r {
      var i :| 0 <= i < |q| && q[i] == y;
      assert r[if i < k then i else i - 1] == y;
    }
  }

  lemma {:induction false} WithoutFacts(q: seq<nat>, x: nat)
    requires NoDup(q)
    ensures NoDup(Without(q, x))
    ensures |Without(q, x)| == if x in q then |q| - 1 else |q|
    ensures forall y :: y in Without(q, x) <==> y in q && y != x
  {
    if x in q {
      var k :| 0 <= k < |q| && q[k] == x;
      WithoutAt(q, k);
      CutFacts(q, k);
    } else {
      WithoutAbsent(q, x);
    }
  }
}

/**
 Intrusive circular doubly linked lists: list.c and include/list.h.
 A ring is a head node and the nodes linked behind it.
 */
module Lists {
  import opened SlotSeqs

  class ListHead {
    var next: ListHead?
    var prev: ListHead?
    /** The process slot this node is embedded in: what list_entry computes from the node's address. */
    const slot: nat

    constructor (slot: nat)
      ensures this.slot == slot && next == null && prev == null
    {
      this.slot := slot;
      next, prev := null, null;
    }
  }

  /** Node number `i` met when walking the ring; the head is met at 0 and again at |s| + 1. */
  ghost function At(h: ListHead, s: seq<ListHead>, i: int): ListHead {
    if 1 <= i <= |s| then s[i - 1] else h
  }

  /** The links from `h` form one closed ring through exactly the nodes `s`, in that order. */
  ghost predicate Ring(h: ListHead, s: seq<ListHead>)
    reads h, s
  {
    && NoDup(s) && h !in s
    && forall i, j {:trigger At(h, s, i), At(h, s, j)} :: 0 <= i <= |s| && j == i + 1 ==>
         At(h, s, i).next == At(h, s, j) && At(h, s, j).prev == At(h, s, i)
  }

  ghost function RingNodes(h: ListHead, s: seq<ListHead>): set<ListHead> {
    {h} + set n | n in s
  }

  /** INIT_LIST_HEAD */
  method InitListHead(list: ListHead)
    modifies list
    ensures Ring(list, [])
  {
    list.next := list;
    list.prev := list;
  }

  /** __list_add: links `node` in behind position `k` of a ring, between its neighbours `p` and `n`. */
  method InsertBetween(node: ListHead, p: ListHead, n: ListHead,
                       ghost head: ListHead, ghost s: seq<ListHead>, ghost k: nat)
    requires Ring(head, s) && node != head && node !in s
    requires k <= |s| && p == At(head, s, k) && n == At(head, s, k + 1)
    modifies RingNodes(head, s), node
    ensures Ring(head, s[..k] + [node] + s[k..])
  {
    n.prev := node;
    node.next := n;
    node.prev := p;
    p.next := node;
    ghost var r := s[..k] + [node] + s[k..];
    forall i, j | 0 <= i <= |r| && j == i + 1
      ensures At(head, r, i).next == At(head, r, j) && At(head, r, j).prev == At(head, r, i)
    {
      if i < k {
        assert At(head, r, i) == At(head, s, i) && At(head, r, j) == At(head, s, j);
      } else if i == k {
        assert At(head, r, i) == p && At(head, r, j) == node;
      } else if i == k + 1 {
        assert At(head, r, i) == node && At(head, r, j) == n;
      } else {
        assert At(head, r, i) == At(head, s, i - 1) && At(head, r, j) == At(head, s, j - 1);
      }
    }
  }

  /** list_add_tail: appends `node` to the ring. */
  method ListAddTail(node: ListHead, head: ListHead, ghost s: seq<ListHead>)
    requires Ring(head, s) && node != head && node !in s
    modifies RingNodes(head, s), node
    ensures Ring(head, s + [node])
  {
    assert At(head, s, |s| + 1).prev == At(head, s, |s|);
    InsertBetween(node, head.prev, head, head, s, |s|);
    assert s[..|s|] + [node] + s[|s|..] == s + [node];
  }

  /** list_add: puts `node` in front of the ring. */
  method ListAdd(node: ListHead, head: ListHead, ghost s: seq<ListHead>)
    requires Ring(head, s) && node != head && node !in s
    modifies RingNodes(head, s), node
    ensures Ring(head, [node] + s)
  {
    assert At(head, s, 0).next == At(head, s, 1);
    InsertBetween(node, head, head.next, head, s, 0);
    assert s[..0] + [node] + s[0..] == [node] + s;
  }

  /** list_del: unlinks the node at position `k` and nulls its own links. */
  method ListDel(entry: ListHead, ghost head: ListHead, ghost s: seq<ListHead>, ghost k: nat)
    requires Ring(head, s) && k < |s| && s[k] == entry
    modifies RingNodes(head, s)
    ensures Ring(head, s[..k] + s[k + 1..])
    ensures entry.next == null && entry.prev == null
  {
    assert At(head, s, k + 1) == entry;
    assert entry.prev == At(head, s, k) && entry.next == At(head, s, k + 2);
    var p, n := entry.prev, entry.next;
    n.prev := p;
    p.next := n;
    entry.next := null;
    entry.prev := null;
    ghost var r := s[..k] + s[k + 1..];
    forall i, j | 0 <= i <= |r| && j == i + 1
      ensures At(head, r, i).next == At(head, r, j) && At(head, r, j).prev == At(head, r, i)
    {
      if i < k {
        assert At(head, r, i) == At(head, s, i) && At(head, r, j) == At(head, s, j);
      } else if i == k {
        assert At(head, r, i) == At(head, s, k) && At(head, r, j) == At(head, s, k + 2);
      } else {
        assert At(head, r, i) == At(head, s, i + 1) && At(head, r, j) == At(head, s, j + 1);
      }
    }
  }

  /** list_empty */
  method ListEmpty(head: ListHead, ghost s: seq<ListHead>) returns (empty: bool)
    requires Ring(head, s)
    ensures empty <==> s == []
  {
    empty := head.next == head;
    assert At(head, s, 0).next == At(head, s, 1);
  }

  /** list_first on a non-empty ring */
  method ListFirst(head: ListHead, ghost s: seq<ListHead>) returns (first: ListHead)
    requires Ring(head, s) && s != []
    ensures first == s[0]
  {
    assert At(head, s, 0).next == At(head, s, 1);
    first := head.next;
  }
}
