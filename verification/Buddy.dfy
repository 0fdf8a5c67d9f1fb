/**
  One node-owned zone of the buddy allocator: locked allocation with splitting and locked freeing
  with coalescing, guided by the frame descriptors.
 */
module Buddy {
  import opened BuddyTiling
  import opened BuddyList
  import opened BuddyState

  /** The pages of block b were added to, or taken from, those that the free blocks cover. */
  ghost predicate Added(free: set<Block>, free': set<Block>, b: Block) {
    forall page :: Covered(free', page) <==> Covered(free, page) || Has(b, page)
  }

  ghost predicate Gone(free: set<Block>, free': set<Block>, b: Block) {
    forall page :: Covered(free', page) <==> Covered(free, page) && !Has(b, page)
  }

  ghost predicate NoOffline(desc: Descs) {
    forall p | p in desc :: !desc[p].offline
  }

  class Zone {
    const node: nat
    const zone: nat
    ghost const managed: set<nat>

    var heads: seq<nat>
    var counts: seq<nat>
    /** First words of every page, where free blocks keep their links. */
    var mem: Memory
    var desc: Descs
    var freePages: nat

    ghost var lists: Lists
    ghost var used: set<Block>

    ghost predicate ListsValid()
      reads this
    {
      ListsOk(heads, counts, mem, lists)
    }

    ghost function Free(): set<Block>
      reads this
    {
      FreeBlocks(lists)
    }

    ghost predicate Valid()
      reads this
    {
      && ListsValid()
      && Rest(managed, Free(), used)
      && DescsOk(desc, node, zone, managed, Free(), used, 0)
      && freePages == Total(counts)
    }

    /** A zone without any block, over a frame table. */
    constructor (node: nat, zone: nat, ghost managed: set<nat>, table: Descs)
      ensures ListsValid() && Free() == {} && used == {} && freePages == Total(counts) == 0 && desc == table
      ensures this.node == node && this.zone == zone && this.managed == managed
    {
      this.node, this.zone, this.managed := node, zone, managed;
      heads, counts := seq(MAX_ORDER + 1, _ => 0), seq(MAX_ORDER + 1, _ => 0);
      mem, desc, freePages := map[], table, 0;
      lists, used := seq(MAX_ORDER + 1, _ => []), {};
      new;
      TotalZero(counts);
    }

    /** buddy_zone::push */
    method Push(o: nat, p: nat)
      requires ListsValid() && o <= MAX_ORDER && p != 0 && InNoList(lists, p)
      modifies this`heads, this`counts, this`mem, this`lists
      ensures ListsValid() && lists == old(lists)[o := [p] + old(lists)[o]]
      ensures Free() == old(Free()) + {Block(p, o)}
      ensures Total(counts) == old(Total(counts)) + Pow2(o)
    {
      ListsPush(heads, counts, mem, lists, o, p);
      TotalMore(counts, o);
      mem := mem[p := FreeNode(heads[o], 0)];
      if heads[o] != 0 {
        mem := mem[heads[o] := mem[heads[o]].(prev := p)];
      }
      heads := heads[o := p];
      counts := counts[o := counts[o] + 1];
      lists := lists[o := [p] + lists[o]];
    }

    /** buddy_zone::pop */
    method Pop(o: nat) returns (p: nat)
      requires ListsValid() && o <= MAX_ORDER
      modifies this`heads, this`counts, this`mem, this`lists
      ensures ListsValid()
      ensures p == 0 ==> old(lists)[o] == [] && lists == old(lists) && counts == old(counts)
      ensures p != 0 ==>
                && Block(p, o) in old(Free()) && Free() == old(Free()) - {Block(p, o)}
                && Total(counts) == old(Total(counts)) - Pow2(o)
                && InNoList(lists, p)
    {
      p := heads[o];
      assert DList(mem, heads[o], lists[o]);
      if lists[o] != [] {
        Neighbours(mem, heads[o], lists[o], 0);
      }
      if p == 0 {
        return;
      }
      ListsRemove(heads, counts, mem, lists, o, 0);
      FreeBlocksHas(lists, Block(p, o));
      TotalMore(counts, o);
      var n := mem[p];
      heads := heads[o := n.next];
      if n.next != 0 {
        mem := mem[n.next := mem[n.next].(prev := 0)];
      }
      counts := counts[o := counts[o] - 1];
      lists := lists[o := RemoveAt(lists[o], 0)];
    }

    /** buddy_zone::remove */
    method Remove(o: nat, p: nat)
      requires ListsValid() && o <= MAX_ORDER && Block(p, o) in Free()
      modifies this`heads, this`counts, this`mem, this`lists
      ensures ListsValid() && Free() == old(Free()) - {Block(p, o)} && InNoList(lists, p)
      ensures Total(counts) == old(Total(counts)) - Pow2(o)
    {
      FreeBlocksHas(lists, Block(p, o));
      ghost var i :| 0 <= i < |lists[o]| && lists[o][i] == p;
      ListsRemove(heads, counts, mem, lists, o, i);
      TotalMore(counts, o);
      var n := mem[p];
      if n.prev != 0 {
        mem := mem[n.prev := mem[n.prev].(next := n.next)];
      } else {
        heads := heads[o := n.next];
      }
      if n.next != 0 {
        mem := mem[n.next := mem[n.next].(prev := n.prev)];
      }
      counts := counts[o := counts[o] - 1];
      lists := lists[o := RemoveAt(lists[o], i)];
    }

    /** frame_desc::set */
    method SetDesc(p: nat, order: nat, owner: Owner, suspect: bool)
      modifies this`desc
      ensures desc == if p in old(desc) then old(desc)[p := Desc(order, owner, node, suspect, false)] else old(desc)
    {
      if p in desc {
        desc := desc[p := Desc(order, owner, node, suspect, false)];
      }
    }

    /** The block in hand: everything is valid but for it. */
    ghost predicate Holding(cur: Block, x: nat)
      reads this
    {
      && ListsValid()
      && Hold(managed, Free(), used, cur)
      && DescsOk(desc, node, zone, managed, Free(), used, x)
    }

    /**
      alloc_locked.  The block returned is used from now on, but its descriptor still has the
      order it was popped with and says that it is free.
     */
    method AllocLocked(order: nat) returns (p: nat, ghost popped: nat)
      requires Valid()
      modifies this
      ensures p == 0 ==>
                && Valid() && lists == old(lists) && used == old(used) && desc == old(desc)
                && freePages == old(freePages)
                && forall o | order <= o <= MAX_ORDER :: lists[o] == []
      ensures p != 0 ==>
                && order <= popped <= MAX_ORDER && Block(p, popped) in old(Free())
                && ListsValid() && Rest(managed, Free(), used) && freePages == Total(counts)
                && DescsOk(desc, node, zone, managed, Free(), used, p)
                && p in desc && desc[p] == old(desc)[p] && LooksFree(desc[p], node) && desc[p].order == popped
                && used == old(used) + {Block(p, order)} && Block(p, order) !in old(used)
                && Gone(old(Free()), Free(), Block(p, order))
                && freePages == old(freePages) - Pow2(order)
                && (Coalesced(old(Free())) ==> Coalesced(Free()))
                && (NoOffline(old(desc)) ==> NoOffline(desc))
    {
      hide ListsOk, Hold, Rest, DescsOk, FreeBlocks, Coalesced, Covered, Has, Total, Pow2, InNoList, NoOffline;
      popped := 0;
      assert |lists| == MAX_ORDER + 1 by {
        ListsLength(heads, counts, mem, lists);
      }
      var ord := order;
      while ord <= MAX_ORDER
        invariant order <= ord
        invariant Valid() && lists == old(lists) && counts == old(counts) && used == old(used) && desc == old(desc)
        invariant freePages == old(freePages)
        invariant |lists| == MAX_ORDER + 1 && forall o | order <= o < ord && o <= MAX_ORDER :: lists[o] == []
      {
        p := Pop(ord);
        if p != 0 {
          popped := ord;
          ghost var b := Block(p, ord);
          TakeFree(managed, old(Free()), used, b);
          HoldDescs(desc, node, zone, managed, old(Free()), used, b);
          if Coalesced(old(Free())) {
            SubsetCoalesced(Free(), old(Free()));
          }
          // assert_allocatable_frame cannot fire
          assert p in desc && desc[p].owner == Buddy;
          Split(p, ord, order);
          TakenFrom(managed, old(Free()), Free(), used, b, Block(p, order));
          ExemptMore(desc, node, zone, managed, Free(), used, Block(p, order));
          used := used + {Block(p, order)};
          freePages := freePages - Pow2(order);
          return;
        }
        ord := ord + 1;
      }
      p := 0;
    }

    /** The splitting loop of alloc_locked: upper halves go back to the lists. */
    method Split(p: nat, ord: nat, order: nat)
      requires order <= ord <= MAX_ORDER && p != 0 && Holding(Block(p, ord), p)
      modifies this`heads, this`counts, this`mem, this`lists, this`desc
      ensures Holding(Block(p, order), p)
      ensures Total(counts) + Pow2(order) == old(Total(counts)) + Pow2(ord)
      ensures p in old(desc) ==> p in desc && desc[p] == old(desc)[p]
      ensures forall page :: Covered(Free(), page) || Has(Block(p, order), page)
                <==> Covered(old(Free()), page) || Has(Block(p, ord), page)
      ensures Coalesced(old(Free())) ==> Coalesced(Free())
      ensures NoOffline(old(desc)) ==> NoOffline(desc)
    {
      hide ListsOk, Hold, DescsOk, FreeBlocks, Coalesced, Covered, Has, Total, Pow2, InNoList, NoOffline;
      var s := ord;
      while s > order
        invariant order <= s <= ord
        invariant Holding(Block(p, s), p)
        invariant Total(counts) + Pow2(s) == old(Total(counts)) + Pow2(ord)
        invariant p in old(desc) ==> p in desc && desc[p] == old(desc)[p]
        invariant forall page :: Covered(Free(), page) || Has(Block(p, s), page)
                    <==> Covered(old(Free()), page) || Has(Block(p, ord), page)
        invariant Coalesced(old(Free())) ==> Coalesced(Free())
        invariant NoOffline(old(desc)) ==> NoOffline(desc)
      {
        var buddy := p + Pow2(s - 1);
        ghost var cur, hi := Block(p, s), Block(buddy, s - 1);
        SplitHere(cur);
        SplitHold(managed, Free(), used, cur);
        SplitCovers(managed, Free(), used, cur);
        if Coalesced(Free()) {
          SplitCoalesced(managed, Free(), used, cur);
        }
        StampFree(desc, node, zone, managed, Free(), used, cur, hi, p, Desc(s - 1, Buddy, node, false, false));
        StampOnline(desc, buddy, Desc(s - 1, Buddy, node, false, false));
        NotListed(managed, lists, used, cur, hi);
        Push(s - 1, buddy);
        SetDesc(buddy, s - 1, Buddy, false);
        s := s - 1;
      }
    }

    /** The tests of free_locked on the buddy of the block in hand. */
    method CanMerge(p: nat, ord: nat) returns (ok: bool)
      requires Holding(Block(p, ord), 0) && ord < MAX_ORDER
      modifies this`desc
      ensures Holding(Block(p, ord), 0)
      ensures ok ==> BuddyOf(Block(p, ord)) in Free()
      ensures NoOffline(old(desc)) ==> NoOffline(desc) && (!ok ==> BuddyOf(Block(p, ord)) !in Free())
    {
      var buddy := BuddyPage(p, ord);
      BuddyTest(desc, node, zone, managed, Free(), used, Block(p, ord));
      if ZoneOf(buddy) != zone { return false; }
      if buddy !in desc { return false; }
      if desc[buddy].owner != Buddy { return false; }
      if desc[buddy].node != node { return false; }
      if desc[buddy].offline {
        HeadInBlock(Block(p, ord));
        if p in desc {
          StampInside(desc, node, zone, managed, Free(), used, Block(p, ord), p, desc[p].(suspect := true));
          desc := desc[p := desc[p].(suspect := true)];
        }
        return false;
      }
      if desc[buddy].order != ord { return false; }
      return true;
    }

    /** free_locked */
    method FreeLocked(page: nat, order: nat)
      requires ListsValid() && Rest(managed, Free(), used) && freePages == Total(counts)
      requires Block(page, order) in used && DescsOk(desc, node, zone, managed, Free(), used, page)
      modifies this
      ensures Valid() && used == old(used) - {Block(page, order)}
      ensures Added(old(Free()), Free(), Block(page, order))
      ensures freePages == old(freePages) + Pow2(order)
      ensures Coalesced(old(Free())) && NoOffline(old(desc)) ==> Coalesced(Free())
      ensures NoOffline(old(desc)) ==> NoOffline(desc)
    {
      hide ListsOk, Hold, Rest, DescsOk, FreeBlocks, Coalesced, Covered, Has, Total, Pow2, InNoList, NoOffline;
      var p, ord := page, order;
      TakeUsed(managed, Free(), used, Block(p, ord));
      TakeUsedDescs(desc, node, zone, managed, Free(), used, Block(p, ord));
      HoldFacts(managed, Free(), used - {Block(p, ord)}, Block(p, ord));
      used := used - {Block(p, ord)};
      while ord < MAX_ORDER
        invariant order <= ord <= MAX_ORDER && used == old(used) - {Block(page, order)}
        invariant Holding(Block(p, ord), 0)
        invariant freePages == Total(counts) && freePages + Pow2(ord) == old(freePages) + Pow2(order)
        invariant forall x :: Covered(Free(), x) || Has(Block(p, ord), x)
                    <==> Covered(old(Free()), x) || Has(Block(page, order), x)
        invariant Coalesced(old(Free())) ==> Coalesced(Free())
        invariant NoOffline(old(desc)) ==> NoOffline(desc)
      {
        var ok := CanMerge(p, ord);
        if !ok {
          break;
        }
        var buddy := BuddyPage(p, ord);
        ghost var cur := Block(p, ord);
        MergeHere(cur);
        MergeHold(managed, Free(), used, cur);
        forall x
          ensures Covered(Free() - {BuddyOf(cur)}, x) || Has(Parent(cur), x) <==> Covered(Free(), x) || Has(cur, x)
        {
          MergeCovers(Free(), cur, Parent(cur), x);
        }
        if Coalesced(Free()) {
          SubsetCoalesced(Free() - {BuddyOf(cur)}, Free());
        }
        MergeDescs(desc, node, zone, managed, Free(), used, cur, Desc(0, Nobody, node, false, false));
        StampOnline(desc, buddy, Desc(0, Nobody, node, false, false));
        Remove(ord, buddy);
        freePages := freePages - Pow2(ord);
        SetDesc(buddy, 0, Nobody, false);
        p := if p < buddy then p else buddy;
        ord := ord + 1;
      }
      ghost var cur := Block(p, ord);
      HoldFacts(managed, Free(), used, cur);
      var suspect := p in desc && desc[p].suspect;
      StampFree(desc, node, zone, managed, Free(), used, cur, cur, 0, Desc(ord, Buddy, node, suspect, false));
      StampOnline(desc, p, Desc(ord, Buddy, node, suspect, false));
      NotListed(managed, lists, used, cur, cur);
      Put(managed, Free(), used, cur);
      forall x ensures Covered(Free() + {cur}, x) <==> Covered(Free(), x) || Has(cur, x) {
        CoveredAdd(Free(), cur, x);
      }
      if Coalesced(Free()) && (ord == MAX_ORDER || BuddyOf(cur) !in Free()) {
        AddCoalesced(managed, Free(), used, cur);
      }
      SetDesc(p, ord, Buddy, suspect);
      Push(ord, p);
      freePages := freePages + Pow2(ord);
    }

    /** Allocation as its callers see it: alloc_locked and the stamp of the new owner. */
    method Alloc(order: nat) returns (p: nat)
      requires Valid()
      modifies this
      ensures Valid()
      ensures p == 0 ==>
                && lists == old(lists) && used == old(used) && desc == old(desc) && freePages == old(freePages)
                && forall o | order <= o <= MAX_ORDER :: lists[o] == []
      ensures p != 0 ==>
                && Block(p, order) !in old(used) && used == old(used) + {Block(p, order)}
                && Gone(old(Free()), Free(), Block(p, order))
                && freePages == old(freePages) - Pow2(order)
                && (Coalesced(old(Free())) ==> Coalesced(Free()))
                && (NoOffline(old(desc)) ==> NoOffline(desc))
    {
      ghost var popped;
      p, popped := AllocLocked(order);
      if p != 0 {
        StampUsed(desc, node, zone, managed, Free(), used, Block(p, order), Desc(order, Taken, node, false, false));
        StampOnline(desc, p, Desc(order, Taken, node, false, false));
        SetDesc(p, order, Taken, false);
      }
    }

    /** pmm::free beneath the per-CPU cache: the stamp, then free_locked. */
    method Release(page: nat, order: nat)
      requires Valid() && Block(page, order) in used
      modifies this
      ensures Valid() && used == old(used) - {Block(page, order)}
      ensures Added(old(Free()), Free(), Block(page, order))
      ensures freePages == old(freePages) + Pow2(order)
      ensures Coalesced(old(Free())) && NoOffline(old(desc)) ==> Coalesced(Free())
      ensures NoOffline(old(desc)) ==> NoOffline(desc)
    {
      UnstampUsed(desc, node, zone, managed, Free(), used, Block(page, order), Desc(order, Buddy, node, false, false));
      StampOnline(desc, page, Desc(order, Buddy, node, false, false));
      SetDesc(page, order, Buddy, false);
      FreeLocked(page, order);
    }

    lemma SplitHere(cur: Block)
      requires Holding(cur, cur.page) && cur.order > 0
      ensures Has(cur, cur.page + Pow2(cur.order - 1)) && cur.page + Pow2(cur.order - 1) != 0
      ensures Halves(cur) == (Block(cur.page, cur.order - 1), Block(cur.page + Pow2(cur.order - 1), cur.order - 1))
      ensures Pow2(cur.order) == Pow2(cur.order - 1) + Pow2(cur.order - 1)
    {
    }

    lemma MergeHere(cur: Block)
      requires Holding(cur, 0) && cur.order < MAX_ORDER
      ensures var u := BuddyPage(cur.page, cur.order);
              Parent(cur) == Block(if cur.page < u then cur.page else u, cur.order + 1)
      ensures Pow2(cur.order + 1) == Pow2(cur.order) + Pow2(cur.order)
    {
      assert BlockOk(managed, cur);
      ParentHalves(cur);
    }
  }

  lemma StampOnline(desc: Descs, p: nat, d: Desc)
    requires !d.offline
    ensures NoOffline(desc) ==> NoOffline(desc[p := d])
  {
  }

  lemma HoldFacts(managed: set<nat>, free: set<Block>, used: set<Block>, cur: Block)
    requires Hold(managed, free, used, cur)
    ensures cur.page != 0 && cur.order <= MAX_ORDER && Has(cur, cur.page) && cur.page in managed
  {
    assert BlockOk(managed, cur);
    HeadInBlock(cur);
  }

  /**
    Which blocks are free is determined by which blocks are in use: any run of allocations and
    releases that ends with the same blocks in use ends with the same free lists, as sets.
   */
  lemma FreeIsDetermined(managed: set<nat>, used: set<Block>, free: set<Block>, free': set<Block>)
    requires Rest(managed, free, used) && Rest(managed, free', used)
    requires Coalesced(free) && Coalesced(free')
    ensures free == free'
  {
    forall page ensures Covered(free, page) <==> Covered(free', page) {
      FreeOrUsed(managed, free, used, page);
      FreeOrUsed(managed, free', used, page);
    }
    RestProper(managed, free, used);
    RestProper(managed, free', used);
    CanonicalTiling(free, free');
  }

  lemma RestProper(managed: set<nat>, free: set<Block>, used: set<Block>)
    requires Rest(managed, free, used)
    ensures Proper(free)
  {
    forall b | b in free ensures Aligned(b) && b.order <= MAX_ORDER {
      assert BlockOk(managed, b);
    }
  }

  lemma FreeOrUsed(managed: set<nat>, free: set<Block>, used: set<Block>, page: nat)
    requires Rest(managed, free, used)
    ensures Covered(free, page) <==> page in managed && !Covered(used, page)
  {
    if b: Block :| b in free && Has(b, page) {
      assert BlockOk(managed, b);
      if c: Block :| c in used && Has(c, page) {
        SameBlock(managed, free + used, b, c, page);
      }
    }
    if page in managed {
      assert Covered(free + used, page);
      var b :| b in free + used && Has(b, page);
      if b in used {
        assert Covered(used, page);
      }
    }
  }

  /** Releasing what was just allocated leaves the free blocks exactly as they were. */
  method AllocRelease(z: Zone, order: nat) returns (p: nat)
    requires z.Valid() && Coalesced(z.Free()) && NoOffline(z.desc)
    modifies z
    ensures z.Valid() && z.Free() == old(z.Free()) && z.used == old(z.used) && z.freePages == old(z.freePages)
  {
    p := z.Alloc(order);
    if p != 0 {
      z.Release(p, order);
      FreeIsDetermined(z.managed, z.used, old(z.Free()), z.Free());
    }
  }

  lemma {:induction false} TotalZero(counts: seq<nat>)
    requires forall o | 0 <= o < |counts| :: counts[o] == 0
    ensures Total(counts) == 0
    decreases |counts|
  {
    if counts != [] {
      TotalZero(counts[..|counts| - 1]);
    }
  }
}
