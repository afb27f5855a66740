/** The intrusive circular lists of include/rtservice.h.

    A list is a ring of nodes: the head node followed by the linked nodes, each pointing to
    its two neighbours.  Every operation is specified by what it does to the sequence of nodes
    that the ring spells out, starting from the head; the other modules rely on that view and
    work with sequences.
  */
module RtList {
  import opened Rings

  class ListNode {
    var next: ListNode
    var prev: ListNode

    /** A node that is on no list points to itself. */
    constructor ()
      ensures IsList([this])
    {
      next := this;
      prev := this;
      new;
      SpellsMeans(Nexts([this]), Prevs([this]), [this]);
    }

    /** rt_list_init: whatever the node pointed to before, it is now a ring on its own. */
    method Init()
      modifies this
      ensures IsList([this])
    {
      next, prev := this, this;
      SpellsMeans(Nexts([this]), Prevs([this]), [this]);
    }

    /** rt_list_insert_after: n becomes the successor of this node, the k-th one of the ring. */
    method InsertAfter(n: ListNode, ghost ring: seq<ListNode>, ghost k: nat)
      requires IsList(ring) && k < |ring| && ring[k] == this && n !in ring
      modifies this, next, n
      ensures IsList(Insert(ring, k + 1, n))
    {
      ghost var r, nexts, prevs := InsertedLinks(ring, k, n);
      next.prev := n;
      n.next := next;
      next := n;
      n.prev := this;
      StillRing(nexts, prevs, r);
    }

    /** rt_list_insert_before: n becomes the predecessor of this node.  Before the head that is
        the end of the list. */
    method InsertBefore(n: ListNode, ghost ring: seq<ListNode>, ghost k: nat)
      requires IsList(ring) && k < |ring| && ring[k] == this && n !in ring
      modifies this, prev, n
      ensures IsList(Insert(ring, if k == 0 then |ring| else k, n))
    {
      ghost var r, nexts, prevs := InsertedBefore(ring, k, n);
      prev.next := n;
      n.prev := prev;
      prev := n;
      n.next := this;
      StillRing(nexts, prevs, r);
    }

    /** rt_list_remove: the other nodes stay linked in their order and this node is a ring on its
        own again.  Removing a node that is on no list changes nothing. */
    method Remove(ghost ring: seq<ListNode>, ghost k: nat)
      requires IsList(ring) && k < |ring| && ring[k] == this
      modifies this, next, prev
      ensures IsList([this])
      ensures |ring| > 1 ==> IsList(Drop(ring, k))
    {
      LinkedTo(ring, k);
      ghost var r, nexts, prevs := DroppedLinks(ring, k);
      next.prev := prev;
      prev.next := next;
      next, prev := this, this;
      SpellsMeans(Nexts([this]), Prevs([this]), [this]);
      if |ring| > 1 {
        StillRing(nexts, prevs, r);
      }
    }

    /** rt_list_isempty, asked of the head. */
    method IsEmpty(ghost ring: seq<ListNode>) returns (empty: bool)
      requires IsList(ring) && ring[0] == this
      ensures empty <==> |ring| == 1
    {
      SpellsMeans(Nexts(ring), Prevs(ring), ring);
      LinkedTo(ring, 0);
      empty := next == this;
    }

    /** rt_list_len, asked of the head: the number of linked nodes, counted in an unsigned int. */
    method Len(ghost ring: seq<ListNode>) returns (len: nat)
      requires IsList(ring) && ring[0] == this
      ensures len == (|ring| - 1) % 0x1_0000_0000
    {
      SpellsMeans(Nexts(ring), Prevs(ring), ring);
      ghost var i := 0;
      len := 0;
      var p := this;
      LinkedTo(ring, 0);
      while p.next != this
        invariant 0 <= i < |ring| && p == ring[i] && len == i % 0x1_0000_0000
        invariant p.next == ring[After(i, |ring|)]
        decreases |ring| - i
      {
        p := p.next;
        len := (len + 1) % 0x1_0000_0000;
        i := i + 1;
        LinkedTo(ring, i);
      }
    }
  }

  /** The links of some nodes, as the maps of Rings. */
  ghost function Nexts(nodes: seq<ListNode>): map<ListNode, ListNode>
    reads nodes
  {
    map n | n in nodes :: n.next
  }

  ghost function Prevs(nodes: seq<ListNode>): map<ListNode, ListNode>
    reads nodes
  {
    map n | n in nodes :: n.prev
  }

  /** The nodes of the sequence, all different, are linked both ways into one ring. */
  ghost predicate IsList(ring: seq<ListNode>)
    reads ring
  {
    Spells(Nexts(ring), Prevs(ring), ring)
  }

  /** IsRing, which proofs unfold only where they ask for it. */
  ghost predicate Spells(nexts: map<ListNode, ListNode>, prevs: map<ListNode, ListNode>, ring: seq<ListNode>) {
    && |ring| > 0 && (forall n :: n in ring ==> n in nexts && n in prevs)
    && forall shown {:trigger Shown(ring, shown)} :: Shown(ring, shown) ==> IsRing(nexts, prevs, ring)
  }

  ghost predicate Shown(ring: seq<ListNode>, shown: bool) {
    true
  }

  lemma SpellsMeans(nexts: map<ListNode, ListNode>, prevs: map<ListNode, ListNode>, ring: seq<ListNode>)
    ensures Spells(nexts, prevs, ring) <==> IsRing(nexts, prevs, ring)
  {
    assert Shown(ring, true);
  }

  /** Where the links of one node of a ring lead. */
  lemma LinkedTo(ring: seq<ListNode>, k: nat)
    requires IsList(ring) && k < |ring|
    ensures ring[k].next == ring[After(k, |ring|)] && ring[k].prev == ring[Before(k, |ring|)]
  {
    SpellsMeans(Nexts(ring), Prevs(ring), ring);
    assert Nexts(ring)[ring[k]] == ring[After(k, |ring|)] && Prevs(ring)[ring[k]] == ring[Before(k, |ring|)];
  }

  /** The links that put n behind the k-th node. */
  lemma InsertedLinks(ring: seq<ListNode>, k: nat, n: ListNode)
    returns (r: seq<ListNode>, nexts: map<ListNode, ListNode>, prevs: map<ListNode, ListNode>)
    requires IsList(ring) && k < |ring| && n !in ring
    ensures r == Insert(ring, k + 1, n) && Spells(nexts, prevs, r) && ring[k].next in ring
    ensures forall x :: x in r ==>
                          && nexts[x] == (if x == ring[k] then n else if x == n then ring[k].next else x.next)
                          && prevs[x] == (if x == ring[k].next then n else if x == n then ring[k] else x.prev)
  {
    LinkedTo(ring, k);
    SpellsMeans(Nexts(ring), Prevs(ring), ring);
    r := Insert(ring, k + 1, n);
    assert forall x :: x in r ==> x == n || x in ring by { InsertDistinct(ring, k + 1, n, r); }
    nexts, prevs := InsertedMaps(ring, k, n, ring[k].next, r);
    InsertLinks(Nexts(ring), Prevs(ring), ring, k, n, r);
    SpellsMeans(nexts, prevs, r);
  }

  lemma InsertedMaps(ring: seq<ListNode>, k: nat, n: ListNode, succ: ListNode, r: seq<ListNode>)
    returns (nexts: map<ListNode, ListNode>, prevs: map<ListNode, ListNode>)
    requires k < |ring| && forall x :: x in r ==> x == n || x in ring
    ensures nexts == Nexts(ring)[n := succ][ring[k] := n] && prevs == Prevs(ring)[succ := n][n := ring[k]]
    ensures forall x :: x in r ==>
                          && nexts[x] == (if x == ring[k] then n else if x == n then succ else x.next)
                          && prevs[x] == (if x == n then ring[k] else if x == succ then n else x.prev)
  {
    nexts, prevs := Nexts(ring)[n := succ][ring[k] := n], Prevs(ring)[succ := n][n := ring[k]];
  }

  /** The links that put n in front of the k-th node, so behind its predecessor. */
  lemma InsertedBefore(ring: seq<ListNode>, k: nat, n: ListNode)
    returns (r: seq<ListNode>, nexts: map<ListNode, ListNode>, prevs: map<ListNode, ListNode>)
    requires IsList(ring) && k < |ring| && n !in ring
    ensures r == Insert(ring, if k == 0 then |ring| else k, n) && Spells(nexts, prevs, r) && ring[k].prev in ring
    ensures forall x :: x in r ==>
                          && nexts[x] == (if x == ring[k].prev then n else if x == n then ring[k] else x.next)
                          && prevs[x] == (if x == ring[k] then n else if x == n then ring[k].prev else x.prev)
  {
    var j := Before(k, |ring|);
    LinkedTo(ring, j);
    LinkedTo(ring, k);
    assert ring[k].prev == ring[j] && ring[j].next == ring[k] && j + 1 == if k == 0 then |ring| else k;
    r, nexts, prevs := InsertedLinks(ring, j, n);
  }

  /** The links that pass the k-th node by. */
  lemma DroppedLinks(ring: seq<ListNode>, k: nat)
    returns (r: seq<ListNode>, nexts: map<ListNode, ListNode>, prevs: map<ListNode, ListNode>)
    requires IsList(ring) && k < |ring|
    ensures r == Drop(ring, k) && (|ring| > 1 ==> Spells(nexts, prevs, r))
    ensures forall x :: |ring| > 1 && x in r ==>
                          && x != ring[k]
                          && nexts[x] == (if x == ring[k].prev then ring[k].next else x.next)
                          && prevs[x] == (if x == ring[k].next then ring[k].prev else x.prev)
  {
    LinkedTo(ring, k);
    SpellsMeans(Nexts(ring), Prevs(ring), ring);
    nexts, prevs := Nexts(ring)[ring[k].prev := ring[k].next], Prevs(ring)[ring[k].next := ring[k].prev];
    r := Drop(ring, k);
    if |ring| > 1 {
      DropLinks(Nexts(ring), Prevs(ring), ring, k, r);
      DropDistinct(ring, k, r);
      SpellsMeans(nexts, prevs, r);
    }
  }

  /** Nodes whose links have been set as in the maps form the ring of the maps. */
  lemma StillRing(nexts: map<ListNode, ListNode>, prevs: map<ListNode, ListNode>, ring: seq<ListNode>)
    requires Spells(nexts, prevs, ring)
    requires forall n :: n in ring ==> n.next == nexts[n] && n.prev == prevs[n]
    ensures IsList(ring)
  {
    SpellsMeans(nexts, prevs, ring);
    SpellsMeans(Nexts(ring), Prevs(ring), ring);
  }

  /** A ring determines its sequence of nodes: two rings with the same head are equal. */
  lemma {:induction false} RingIsUnique(a: seq<ListNode>, b: seq<ListNode>)
    requires IsList(a) && IsList(b) && a[0] == b[0] && |a| <= |b|
    ensures a == b
  {
    forall i | 0 <= i < |a| ensures a[i] == b[i] {
      SameNode(a, b, i);
    }
    var last := |a| - 1;
    LinkedTo(a, last);
    LinkedTo(b, last);
    SpellsMeans(Nexts(b), Prevs(b), b);
  }

  lemma {:induction false} SameNode(a: seq<ListNode>, b: seq<ListNode>, i: nat)
    requires IsList(a) && IsList(b) && a[0] == b[0] && i < |a| <= |b|
    ensures a[i] == b[i]
  {
    if i > 0 {
      SameNode(a, b, i - 1);
      LinkedTo(a, i - 1);
      LinkedTo(b, i - 1);
      SpellsMeans(Nexts(a), Prevs(a), a);
    }
  }
}
