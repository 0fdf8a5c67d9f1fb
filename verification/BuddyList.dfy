/**
  The intrusive free lists of the buddy allocator: a doubly linked list per order whose nodes are
  written into the first page of each free block.  Address 0 ends a list.
 */
module BuddyList {

  datatype FreeNode = FreeNode(next: nat, prev: nat)

  type Memory = map<nat, FreeNode>

  function At(l: seq<nat>, i: int): nat {
    if 0 <= i < |l| then l[i] else 0
  }

  ghost predicate NodeOk(mem: Memory, l: seq<nat>, i: nat)
    requires i < |l|
  {
    l[i] != 0 && l[i] in mem && mem[l[i]] == FreeNode(At(l, i + 1), At(l, i - 1))
  }

  /** head leads through exactly the nodes of l, and back. */
  ghost predicate DList(mem: Memory, head: nat, l: seq<nat>) {
    && head == At(l, 0)
    && (forall i: nat {:trigger NodeOk(mem, l, i)} | i < |l| :: NodeOk(mem, l, i))
    && (forall i, j | 0 <= i < j < |l| :: l[i] != l[j])
  }

  function RemoveAt(l: seq<nat>, i: nat): seq<nat>
    requires i < |l|
  {
    l[..i] + l[i + 1..]
  }

  /** buddy_zone::push, on values */
  function PushMem(mem: Memory, head: nat, p: nat): Memory
    requires head != 0 ==> head in mem
  {
    var mem1 := mem[p := FreeNode(head, 0)];
    if head != 0 then mem1[head := mem1[head].(prev := p)] else mem1
  }

  lemma PushKeepsList(mem: Memory, head: nat, l: seq<nat>, p: nat)
    requires DList(mem, head, l) && p != 0 && p !in l
    ensures head != 0 ==> head in mem
    ensures DList(PushMem(mem, head, p), p, [p] + l)
  {
    assert l != [] ==> NodeOk(mem, l, 0);
    var mem', l' := PushMem(mem, head, p), [p] + l;
    forall i: nat {:trigger NodeOk(mem', l', i)} | i < |l'| ensures NodeOk(mem', l', i) {
      if i > 0 {
        assert NodeOk(mem, l, i - 1);
        assert l'[i] == l[i - 1];
        assert At(l', i + 1) == At(l, i);
        assert i > 1 ==> l[i - 1] != l[0];
      }
    }
  }

  /** Nodes outside a list do not matter to it. */
  lemma OtherList(mem: Memory, mem': Memory, head: nat, l: seq<nat>)
    requires DList(mem, head, l)
    requires forall i {:trigger l[i]} | 0 <= i < |l| :: l[i] in mem && l[i] in mem' && mem'[l[i]] == mem[l[i]]
    ensures DList(mem', head, l)
  {
    forall i: nat {:trigger NodeOk(mem', l, i)} | i < |l| ensures NodeOk(mem', l, i) {
      assert NodeOk(mem, l, i);
    }
  }

  /** buddy_zone::remove, on values; removing the head is what pop does */
  function RemoveMem(mem: Memory, p: nat): Memory
    requires p in mem
    requires mem[p].prev != 0 ==> mem[p].prev in mem
    requires mem[p].next != 0 ==> mem[p].next in mem
  {
    var n := mem[p];
    var mem1 := if n.prev != 0 then mem[n.prev := mem[n.prev].(next := n.next)] else mem;
    if n.next != 0 then mem1[n.next := mem1[n.next].(prev := n.prev)] else mem1
  }

  lemma Neighbours(mem: Memory, head: nat, l: seq<nat>, i: nat)
    requires DList(mem, head, l) && i < |l|
    ensures l[i] in mem && mem[l[i]] == FreeNode(At(l, i + 1), At(l, i - 1)) && l[i] != 0
    ensures i > 0 ==> l[i - 1] in mem && l[i - 1] != 0
    ensures i + 1 < |l| ==> l[i + 1] in mem && l[i + 1] != 0
  {
    assert NodeOk(mem, l, i);
    assert i > 0 ==> NodeOk(mem, l, i - 1);
    assert i + 1 < |l| ==> NodeOk(mem, l, i + 1);
  }

  lemma RemoveKeepsList(mem: Memory, head: nat, l: seq<nat>, i: nat)
    requires DList(mem, head, l) && i < |l|
    ensures l[i] in mem
    ensures mem[l[i]].prev != 0 ==> mem[l[i]].prev in mem
    ensures mem[l[i]].next != 0 ==> mem[l[i]].next in mem
    ensures mem[l[i]].prev == 0 <==> i == 0
    ensures DList(RemoveMem(mem, l[i]), if i == 0 then mem[l[i]].next else head, RemoveAt(l, i))
  {
    Neighbours(mem, head, l, i);
    var mem', l' := RemoveMem(mem, l[i]), RemoveAt(l, i);
    forall j: nat {:trigger NodeOk(mem', l', j)} | j < |l'| ensures NodeOk(mem', l', j) {
      RemovedNode(mem, head, l, i, j);
    }
  }

  lemma RemovedNode(mem: Memory, head: nat, l: seq<nat>, i: nat, j: nat)
    requires DList(mem, head, l) && i < |l| && j < |l| - 1
    requires l[i] in mem && mem[l[i]] == FreeNode(At(l, i + 1), At(l, i - 1))
    requires (i > 0 ==> l[i - 1] in mem) && (i + 1 < |l| ==> l[i + 1] in mem)
    ensures j < |RemoveAt(l, i)| && NodeOk(RemoveMem(mem, l[i]), RemoveAt(l, i), j)
  {
    var m := if j < i then j else j + 1;
    assert NodeOk(mem, l, m);
    RemovedAt(l, i, j);
    assert i > 0 ==> (l[m] == l[i - 1] <==> m == i - 1);
    assert i + 1 < |l| ==> (l[m] == l[i + 1] <==> m == i + 1);
    hide RemoveAt;
  }

  lemma RemovedAt(l: seq<nat>, i: nat, j: nat)
    requires i < |l| && j < |l| - 1
    ensures var l' := RemoveAt(l, i);
            && j < |l'| && l'[j] == l[if j < i then j else j + 1]
            && At(l', j + 1) == At(l, if j + 1 < i then j + 1 else j + 2)
            && At(l', j - 1) == At(l, if j - 1 < i then j - 1 else j)
  {
  }

  /** The nodes of other lists keep their links when one list changes. */
  lemma PushElsewhere(mem: Memory, head: nat, l: seq<nat>, p: nat, x: nat)
    requires DList(mem, head, l) && x !in l && x != p && x in mem
    ensures head != 0 ==> head in mem
    ensures x in PushMem(mem, head, p) && PushMem(mem, head, p)[x] == mem[x]
  {
    if l != [] {
      Neighbours(mem, head, l, 0);
    }
  }

  lemma RemoveElsewhere(mem: Memory, head: nat, l: seq<nat>, i: nat, x: nat)
    requires DList(mem, head, l) && i < |l| && x !in l && x in mem
    ensures l[i] in mem
    ensures mem[l[i]].prev != 0 ==> mem[l[i]].prev in mem
    ensures mem[l[i]].next != 0 ==> mem[l[i]].next in mem
    ensures x in RemoveMem(mem, l[i]) && RemoveMem(mem, l[i])[x] == mem[x]
  {
    Neighbours(mem, head, l, i);
  }
}
