/**
 Families of disjoint rings over the process slots. The kernel has two of them: the three queues linked
 through `anchor`, and one `childs` ring per task linked through `child_anchor`.
 */
module Queues {
  import opened SlotSeqs
  import opened Lists

  class QueueSet {
    /** The ring heads: readyq, freeq, blocked; or the `childs` field of each slot. */
    const heads: seq<ListHead>
    /** The link field of each slot: `anchor`, or `child_anchor`. */
    const nodes: seq<ListHead>
    /** The slots on each ring, in order. */
    ghost var qs: seq<seq<nat>>
    /** The heads that have been initialised; the others may hold any pointers. */
    ghost var act: set<nat>

    /** Every head and node. */
    ghost const objects: set<ListHead>

    constructor (heads: seq<ListHead>, nodes: seq<ListHead>)
      ensures this.heads == heads && this.nodes == nodes
      ensures objects == (set h | h in heads) + (set n | n in nodes)
      ensures qs == seq(|heads|, _ => []) && act == {}
    {
      this.heads, this.nodes := heads, nodes;
      objects := (set h | h in heads) + (set n | n in nodes);
      qs, act := seq(|heads|, _ => []), {};
    }

    ghost predicate Layout() {
      && NoDup(heads) && NoDup(nodes)
      && (forall n :: n in nodes ==> n !in heads)
      && (forall i :: 0 <= i < |nodes| ==> nodes[i].slot == i && nodes[i] in objects)
      && (forall i :: 0 <= i < |heads| ==> heads[i] in objects)
    }

    ghost predicate Slots(q: seq<nat>) {
      forall i :: 0 <= i < |q| ==> q[i] < |nodes|
    }

    ghost function Nodes(q: seq<nat>): (s: seq<ListHead>)
      requires Slots(q)
      ensures |s| == |q| && forall i :: 0 <= i < |q| ==> s[i] == nodes[q[i]] && s[i] in nodes
    {
      seq(|q|, i requires 0 <= i < |q| => nodes[q[i]])
    }

    /** No slot lies on two rings, or twice on one. */
    ghost predicate Disjoint(rs: seq<seq<nat>>) {
      && (forall k :: 0 <= k < |rs| ==> Slots(rs[k]) && NoDup(rs[k]))
      && (forall k, l, x :: 0 <= k < |rs| && 0 <= l < |rs| && x in rs[k] && x in rs[l] ==> k == l)
    }

    lemma DisjointAppend(rs: seq<seq<nat>>, k: nat, x: nat)
      requires Disjoint(rs) && k < |rs| && x < |nodes|
      requires forall l :: 0 <= l < |rs| ==> x !in rs[l]
      ensures Disjoint(rs[k := rs[k] + [x]])
    {
    }

    lemma DisjointWithout(rs: seq<seq<nat>>, k: nat, x: nat)
      requires Disjoint(rs) && k < |rs|
      ensures Disjoint(rs[k := Without(rs[k], x)])
    {
      var q := Without(rs[k], x);
      WithoutFacts(rs[k], x);
      forall i | 0 <= i < |q| ensures q[i] < |nodes| {
        assert q[i] in rs[k];
      }
    }

    /** The rings are closed, in the order `qs` says, and no slot lies on two of them. */
    ghost predicate Valid()
      reads this, objects
    {
      && Layout() && |qs| == |heads| && Disjoint(qs)
      && (forall k :: k in act ==> k < |qs|)
      && (forall k :: 0 <= k < |qs| && k !in act ==> qs[k] == [])
      && (forall k :: k in act ==> Ring(heads[k], Nodes(qs[k])))
    }

    ghost predicate Queued(x: nat)
      reads this
    {
      exists k :: 0 <= k < |qs| && x in qs[k]
    }

    /** A link field is null/null exactly when its slot is on no ring. */
    ghost predicate NullOutside()
      requires Layout()
      reads this, objects
    {
      forall x :: 0 <= x < |nodes| ==> (nodes[x].next == null && nodes[x].prev == null <==> !Queued(x))
    }

    lemma Members(q: seq<nat>)
      requires Layout() && Slots(q)
      ensures forall n :: n in Nodes(q) <==> n in nodes && n.slot in q
      ensures NoDup(q) ==> NoDup(Nodes(q))
    {
      var s := Nodes(q);
      forall n | n in s ensures n in nodes && n.slot in q {
        var i :| 0 <= i < |s| && s[i] == n;
        assert nodes[q[i]] == n;
      }
      forall n | n in nodes && n.slot in q ensures n in s {
        var i :| 0 <= i < |q| && q[i] == n.slot;
        assert s[i] == n;
      }
    }

    lemma NodesCut(q: seq<nat>, i: nat)
      requires Slots(q) && i < |q|
      ensures Slots(q[..i] + q[i + 1..])
      ensures Nodes(q[..i] + q[i + 1..]) == Nodes(q)[..i] + Nodes(q)[i + 1..]
    {
    }

    /** Rings of different heads share no node. */
    lemma Apart(k: nat, l: nat)
      requires Valid() && k < |qs| && l < |qs| && k != l
      ensures RingNodes(heads[k], Nodes(qs[k])) !! RingNodes(heads[l], Nodes(qs[l]))
    {
      Members(qs[k]);
      Members(qs[l]);
    }

    /** One step along a ring: the cursor of list_for_each at position `i`, 0 being the head. */
    lemma StepAlong(k: nat, i: nat)
      requires Valid() && k in act && i <= |qs[k]|
      ensures (if i == 0 then heads[k] else nodes[qs[k][i - 1]]).next
           == (if i < |qs[k]| then nodes[qs[k][i]] else heads[k])
    {
      var s := Nodes(qs[k]);
      assert At(heads[k], s, i).next == At(heads[k], s, i + 1);
    }

    lemma QueuedLinked(x: nat)
      requires Valid() && x < |nodes| && Queued(x)
      ensures nodes[x].next != null
    {
      var k :| 0 <= k < |qs| && x in qs[k];
      var i :| 0 <= i < |qs[k]| && qs[k][i] == x;
      StepAlong(k, i + 1);
    }

    /** Makes `k` the head of an empty ring, whatever it pointed at before. */
    method Init(k: nat)
      requires Valid() && k < |heads| && qs[k] == []
      modifies this`act, heads[k]
      ensures Valid() && act == old(act) + {k}
      ensures old(NullOutside()) ==> NullOutside()
    {
      ghost var was := act;
      forall l | l in act && l != k ensures heads[k] !in RingNodes(heads[l], Nodes(qs[l])) {
        Apart(k, l);
      }
      assert heads[k] in heads;
      forall x | 0 <= x < |nodes| ensures nodes[x] != heads[k] { assert nodes[x] in nodes; }
      InitListHead(heads[k]);
      act := act + {k};
      assert Nodes(qs[k]) == [];
      forall l | l in act ensures Ring(heads[l], Nodes(qs[l])) {
        if l != k { assert old(Ring(heads[l], Nodes(qs[l]))); }
      }
    }

    /** If every slot off the rings has null links, then null links decide membership. */
    lemma NullDecides()
      requires Valid()
      requires forall x :: 0 <= x < |nodes| && !Queued(x) ==> nodes[x].next == null && nodes[x].prev == null
      ensures NullOutside()
    {
      forall x | 0 <= x < |nodes| && Queued(x) ensures nodes[x].next != null { QueuedLinked(x); }
    }

    /** The rings other than `k` are untouched by a write to ring `k` or to slot `x`. */
    lemma OthersApart(k: nat, x: nat)
      requires Valid() && k < |qs| && x < |nodes|
      requires x in qs[k] || !Queued(x)
      ensures forall l :: l in act && l != k ==>
        RingNodes(heads[k], Nodes(qs[k])) + {nodes[x]} !! RingNodes(heads[l], Nodes(qs[l]))
    {
      forall l | l in act && l != k
        ensures RingNodes(heads[k], Nodes(qs[k])) + {nodes[x]} !! RingNodes(heads[l], Nodes(qs[l]))
      {
        Apart(k, l);
        OffRing(l);
        Members(qs[k]);
      }
    }

    /** Nodes that are on no ring, and heads other than `k`, are not nodes of ring `k`. */
    lemma OffRing(k: nat)
      requires Valid() && k < |qs|
      ensures forall y :: 0 <= y < |nodes| && !Queued(y) ==> nodes[y] !in RingNodes(heads[k], Nodes(qs[k]))
      ensures forall l :: 0 <= l < |heads| && l != k ==> heads[l] !in RingNodes(heads[k], Nodes(qs[k]))
    {
      Members(qs[k]);
      assert heads[k] in heads;
      forall y | 0 <= y < |nodes| && !Queued(y) ensures nodes[y] !in RingNodes(heads[k], Nodes(qs[k])) {
        assert nodes[y] in nodes && nodes[y].slot == y && y !in qs[k];
      }
    }

    /** The rings after ring `k` has been given the new content `q`. */
    ghost predicate Updated(was: seq<seq<nat>>, k: nat, q: seq<nat>)
      reads this, objects
    {
      Valid() && k < |was| && qs == was[k := q]
    }

    method AddTailRing(k: nat, x: nat)
      requires Valid() && k in act && x < |nodes| && !Queued(x)
      modifies this`qs, RingNodes(heads[k], Nodes(qs[k])), nodes[x]
      ensures Updated(old(qs), k, old(qs)[k] + [x])
    {
      OthersApart(k, x);
      OffRing(k);
      ghost var q := qs[k] + [x];
      DisjointAppend(qs, k, x);
      assert Nodes(q) == Nodes(qs[k]) + [nodes[x]];
      ListAddTail(nodes[x], heads[k], Nodes(qs[k]));
      qs := qs[k := q];
      forall l | l in act ensures Ring(heads[l], Nodes(qs[l])) {
        if l != k { assert old(Ring(heads[l], Nodes(qs[l]))); }
      }
    }

    /** list_add_tail of slot `x` on ring `k`: that ring grows at its end, every other ring is unchanged. */
    method AddTail(k: nat, x: nat)
      requires Valid() && k in act && x < |nodes| && !Queued(x)
      modifies this`qs, objects
      ensures Valid() && qs == old(qs)[k := old(qs)[k] + [x]]
      ensures old(NullOutside()) ==> NullOutside()
    {
      OffRing(k);
      Members(qs[k]);
      AddTailRing(k, x);
      if old(NullOutside()) {
        assert x in qs[k];
        assert forall l, y :: 0 <= l < |qs| && y in old(qs)[l] ==> y in qs[l];
        NullDecides();
      }
    }

    method DelRing(ghost k: nat, x: nat)
      requires Valid() && k < |qs| && x in qs[k]
      modifies this`qs, RingNodes(heads[k], Nodes(qs[k]))
      ensures Updated(old(qs), k, Without(old(qs)[k], x))
      ensures nodes[x].next == null && nodes[x].prev == null
    {
      OthersApart(k, x);
      ghost var i :| 0 <= i < |qs[k]| && qs[k][i] == x;
      ghost var q := Without(qs[k], x);
      DisjointWithout(qs, k, x);
      assert q == qs[k][..i] + qs[k][i + 1..] by { WithoutAt(qs[k], i); }
      NodesCut(qs[k], i);
      ListDel(nodes[x], heads[k], Nodes(qs[k]), i);
      assert Ring(heads[k], Nodes(q));
      qs := qs[k := q];
      forall l | l in act ensures Ring(heads[l], Nodes(qs[l])) {
        if l != k { assert old(Ring(heads[l], Nodes(qs[l]))); }
      }
    }

    /** list_del of slot `x`, which lies on ring `k`. */
    method Del(ghost k: nat, x: nat)
      requires Valid() && k < |qs| && x in qs[k]
      modifies this`qs, objects
      ensures Valid() && qs == old(qs)[k := Without(old(qs)[k], x)]
      ensures nodes[x].next == null && nodes[x].prev == null && !Queued(x)
      ensures old(NullOutside()) ==> NullOutside()
    {
      OffRing(k);
      Members(qs[k]);
      WithoutFacts(qs[k], x);
      DelRing(k, x);
      if old(NullOutside()) {
        assert forall l, y :: 0 <= l < |qs| && y in old(qs)[l] && y != x ==> y in qs[l];
        NullDecides();
      }
    }

    /** update_process_state_rr(t, NULL): takes a slot off whatever ring it is on, if any; null links tell. */
    method Unlink(x: nat)
      requires Valid() && NullOutside() && x < |nodes|
      modifies this`qs, objects
      ensures Valid() && NullOutside() && !Queued(x)
      ensures forall k :: 0 <= k < |old(qs)| && x in old(qs)[k] ==> qs == old(qs)[k := Without(old(qs)[k], x)]
      ensures !old(Queued(x)) ==> qs == old(qs)
    {
      var n := nodes[x];
      if !(n.next == null && n.prev == null) {
        ghost var k :| 0 <= k < |qs| && x in qs[k];
        Del(k, x);
      }
    }

    /** list_empty */
    method Empty(k: nat) returns (empty: bool)
      requires Valid() && k in act
      ensures empty <==> qs[k] == []
    {
      empty := ListEmpty(heads[k], Nodes(qs[k]));
    }

    /** list_first and list_entry: the slot at the front of a non-empty ring. */
    method First(k: nat) returns (x: nat)
      requires Valid() && k in act && qs[k] != []
      ensures x == qs[k][0]
    {
      var n := ListFirst(heads[k], Nodes(qs[k]));
      x := n.slot;
    }

    /** Copying a slot copies its link field as it is; harmless while the slot is on no ring. */
    method CopyNode(dst: nat, src: nat)
      requires Valid() && dst < |nodes| && src < |nodes| && !Queued(dst)
      modifies nodes[dst]
      ensures Valid()
      ensures nodes[dst].next == old(nodes[src].next) && nodes[dst].prev == old(nodes[src].prev)
      ensures old(NullOutside()) && !Queued(src) ==> NullOutside()
    {
      forall l | l in act ensures nodes[dst] !in RingNodes(heads[l], Nodes(qs[l])) {
        OffRing(l);
      }
      nodes[dst].next := nodes[src].next;
      nodes[dst].prev := nodes[src].prev;
      forall l | l in act ensures Ring(heads[l], Nodes(qs[l])) {
        assert old(Ring(heads[l], Nodes(qs[l])));
      }
    }

    /** Copying a slot copies its `childs` head as it is; the ring it headed, which is empty, is given up. */
    method CopyHead(dst: nat, src: nat)
      requires Valid() && dst < |heads| && src < |heads| && qs[dst] == []
      modifies this`act, heads[dst]
      ensures Valid() && act == old(act) - {dst}
      ensures heads[dst].next == old(heads[src].next) && heads[dst].prev == old(heads[src].prev)
    {
      forall l | l in act && l != dst ensures heads[dst] !in RingNodes(heads[l], Nodes(qs[l])) {
        Apart(dst, l);
      }
      act := act - {dst};
      heads[dst].next := heads[src].next;
      heads[dst].prev := heads[src].prev;
      forall l | l in act ensures Ring(heads[l], Nodes(qs[l])) {
        assert old(Ring(heads[l], Nodes(qs[l])));
      }
    }
  }
}
