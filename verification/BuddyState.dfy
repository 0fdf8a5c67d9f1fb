/** What a node-owned zone of the physical allocator keeps, as facts about plain values. */
module BuddyState {
  import opened BuddyTiling
  import opened BuddyList

  datatype Owner = Nobody | Reserved | Buddy | Taken

  /** frame_desc */
  datatype Desc = Desc(order: nat, owner: Owner, node: nat, suspect: bool, offline: bool)

  type Descs = map<nat, Desc>

  /** First page of zone::normal (2 GiB). */
  const ZONE_LIMIT: nat := 0x8_0000

  /** zone_of: 0 is dma31, 1 is normal */
  function ZoneOf(page: nat): nat {
    if page < ZONE_LIMIT then 0 else 1
  }

  // ---- the lists of all orders ------------------------------------------------------------

  type Lists = seq<seq<nat>>

  ghost predicate ListsOk(heads: seq<nat>, counts: seq<nat>, mem: Memory, lists: Lists) {
    && |heads| == |counts| == |lists| == MAX_ORDER + 1
    && (forall o {:trigger lists[o]} | 0 <= o < |lists| :: DList(mem, heads[o], lists[o]) && counts[o] == |lists[o]|)
    && Separate(lists)
  }

  /** No node is in two lists. */
  ghost predicate Separate(lists: Lists) {
    forall o, o', i {:trigger lists[o][i], lists[o']} |
      0 <= o < |lists| && 0 <= o' < |lists| && o != o' && 0 <= i < |lists[o]| :: lists[o][i] !in lists[o']
  }

  ghost function FreeBlocks(lists: Lists): set<Block> {
    set o, p | 0 <= o < |lists| && p in lists[o] :: Block(p, o)
  }

  lemma FreeBlocksHas(lists: Lists, b: Block)
    ensures b in FreeBlocks(lists) <==> b.order < |lists| && b.page in lists[b.order]
  {
  }

  function Total(counts: seq<nat>): nat
  {
    if counts == [] then 0
    else Total(counts[..|counts| - 1]) + counts[|counts| - 1] * Pow2(|counts| - 1)
  }

  lemma {:induction false} TotalUpdate(counts: seq<nat>, o: nat, n: nat)
    requires o < |counts|
    ensures Total(counts[o := n]) == Total(counts) - counts[o] * Pow2(o) + n * Pow2(o)
  {
    var k := |counts| - 1;
    if o == k {
      assert counts[o := n][..k] == counts[..k];
    } else {
      assert counts[o := n][..k] == counts[..k][o := n];
      TotalUpdate(counts[..k], o, n);
    }
  }

  lemma TotalMore(counts: seq<nat>, o: nat)
    requires o < |counts|
    ensures Total(counts[o := counts[o] + 1]) == Total(counts) + Pow2(o)
    ensures counts[o] > 0 ==> Total(counts[o := counts[o] - 1]) == Total(counts) - Pow2(o)
  {
    TotalUpdate(counts, o, counts[o] + 1);
    assert (counts[o] + 1) * Pow2(o) == counts[o] * Pow2(o) + Pow2(o);
    if counts[o] > 0 {
      TotalUpdate(counts, o, counts[o] - 1);
      assert (counts[o] - 1) * Pow2(o) == counts[o] * Pow2(o) - Pow2(o);
    }
  }

  ghost predicate InNoList(lists: Lists, p: nat) {
    forall o {:trigger lists[o]} | 0 <= o < |lists| :: p !in lists[o]
  }

  lemma ListsLength(heads: seq<nat>, counts: seq<nat>, mem: Memory, lists: Lists)
    requires ListsOk(heads, counts, mem, lists)
    ensures |lists| == |heads| == |counts| == MAX_ORDER + 1
  {
  }

  lemma ListsPush(heads: seq<nat>, counts: seq<nat>, mem: Memory, lists: Lists, o: nat, p: nat)
    requires ListsOk(heads, counts, mem, lists) && o <= MAX_ORDER && p != 0 && InNoList(lists, p)
    ensures heads[o] != 0 ==> heads[o] in mem
    ensures var lists' := lists[o := [p] + lists[o]];
            && ListsOk(heads[o := p], counts[o := counts[o] + 1], PushMem(mem, heads[o], p), lists')
            && FreeBlocks(lists') == FreeBlocks(lists) + {Block(p, o)}
  {
    assert DList(mem, heads[o], lists[o]) && p !in lists[o];
    if lists[o] != [] {
      Neighbours(mem, heads[o], lists[o], 0);
    }
    var lists', mem' := lists[o := [p] + lists[o]], PushMem(mem, heads[o], p);
    PushKeepsList(mem, heads[o], lists[o], p);
    forall q {:trigger lists'[q]} | 0 <= q < |lists'| && q != o ensures DList(mem', heads[q], lists[q]) {
      assert DList(mem, heads[q], lists[q]) && p !in lists[q];
      forall i: nat {:trigger lists[q][i]} | i < |lists[q]|
        ensures lists[q][i] in mem && lists[q][i] in mem' && mem'[lists[q][i]] == mem[lists[q][i]]
      {
        Neighbours(mem, heads[q], lists[q], i);
        PushElsewhere(mem, heads[o], lists[o], p, lists[q][i]);
      }
      OtherList(mem, mem', heads[q], lists[q]);
    }
    PushSeparate(lists, o, p);
    PushBlocks(lists, o, p);
  }

  lemma PushSeparate(lists: Lists, o: nat, p: nat)
    requires o < |lists| && Separate(lists) && InNoList(lists, p)
    ensures Separate(lists[o := [p] + lists[o]])
  {
    var lists' := lists[o := [p] + lists[o]];
    forall a, b, i {:trigger lists'[a][i], lists'[b]} |
      0 <= a < |lists'| && 0 <= b < |lists'| && a != b && 0 <= i < |lists'[a]|
      ensures lists'[a][i] !in lists'[b]
    {
      var x := lists'[a][i];
      if a == o {
        assert i > 0 ==> x == lists[a][i - 1];
        assert p !in lists[b];
      } else {
        assert x == lists[a][i] && p !in lists[a];
      }
    }
  }

  lemma PushBlocks(lists: Lists, o: nat, p: nat)
    requires o < |lists|
    ensures FreeBlocks(lists[o := [p] + lists[o]]) == FreeBlocks(lists) + {Block(p, o)}
  {
    var lists' := lists[o := [p] + lists[o]];
    forall b ensures b in FreeBlocks(lists') <==> b in FreeBlocks(lists) + {Block(p, o)} {
      FreeBlocksHas(lists, b);
      FreeBlocksHas(lists', b);
    }
  }

  lemma RemoveAtElems(l: seq<nat>, i: nat, x: nat)
    requires i < |l| && forall a, b | 0 <= a < b < |l| :: l[a] != l[b]
    ensures x in RemoveAt(l, i) <==> x in l && x != l[i]
  {
    assert l == l[..i] + [l[i]] + l[i + 1..];
  }

  lemma ListsRemove(heads: seq<nat>, counts: seq<nat>, mem: Memory, lists: Lists, o: nat, i: nat)
    requires ListsOk(heads, counts, mem, lists) && o <= MAX_ORDER && i < |lists[o]|
    ensures var p := lists[o][i];
            && p in mem && p != 0 && counts[o] > 0
            && (mem[p].prev != 0 ==> mem[p].prev in mem) && (mem[p].next != 0 ==> mem[p].next in mem)
            && (mem[p].prev == 0 <==> i == 0)
            && var lists' := lists[o := RemoveAt(lists[o], i)];
            && var heads' := if mem[p].prev == 0 then heads[o := mem[p].next] else heads;
            && ListsOk(heads', counts[o := counts[o] - 1], RemoveMem(mem, p), lists')
            && FreeBlocks(lists') == FreeBlocks(lists) - {Block(p, o)}
            && InNoList(lists', p)
  {
    var p := lists[o][i];
    assert DList(mem, heads[o], lists[o]);
    Neighbours(mem, heads[o], lists[o], i);
    RemoveKeepsList(mem, heads[o], lists[o], i);
    var lists', mem' := lists[o := RemoveAt(lists[o], i)], RemoveMem(mem, p);
    forall q {:trigger lists'[q]} | 0 <= q < |lists'| && q != o ensures DList(mem', heads[q], lists[q]) {
      assert DList(mem, heads[q], lists[q]);
      forall j: nat {:trigger lists[q][j]} | j < |lists[q]|
        ensures lists[q][j] in mem && lists[q][j] in mem' && mem'[lists[q][j]] == mem[lists[q][j]]
      {
        Neighbours(mem, heads[q], lists[q], j);
        RemoveElsewhere(mem, heads[o], lists[o], i, lists[q][j]);
      }
      OtherList(mem, mem', heads[q], lists[q]);
    }
    RemoveSeparate(lists, o, i);
    RemoveBlocks(lists, o, i);
  }

  lemma RemoveSeparate(lists: Lists, o: nat, i: nat)
    requires o < |lists| && i < |lists[o]| && Separate(lists)
    requires forall a, b | 0 <= a < b < |lists[o]| :: lists[o][a] != lists[o][b]
    ensures Separate(lists[o := RemoveAt(lists[o], i)])
    ensures InNoList(lists[o := RemoveAt(lists[o], i)], lists[o][i])
  {
    var lists' := lists[o := RemoveAt(lists[o], i)];
    forall a, b, j {:trigger lists'[a][j], lists'[b]} |
      0 <= a < |lists'| && 0 <= b < |lists'| && a != b && 0 <= j < |lists'[a]|
      ensures lists'[a][j] !in lists'[b]
    {
      var x := lists'[a][j];
      RemoveAtElems(lists[o], i, x);
      assert x in lists[a];
      var k :| 0 <= k < |lists[a]| && lists[a][k] == x;
      assert lists[a][k] !in lists[b];
    }
    forall q {:trigger lists'[q]} | 0 <= q < |lists'| ensures lists[o][i] !in lists'[q] {
      RemoveAtElems(lists[o], i, lists[o][i]);
      assert q != o ==> lists[o][i] !in lists[q];
    }
  }

  lemma RemoveBlocks(lists: Lists, o: nat, i: nat)
    requires o < |lists| && i < |lists[o]|
    requires forall a, b | 0 <= a < b < |lists[o]| :: lists[o][a] != lists[o][b]
    ensures FreeBlocks(lists[o := RemoveAt(lists[o], i)]) == FreeBlocks(lists) - {Block(lists[o][i], o)}
  {
    var lists' := lists[o := RemoveAt(lists[o], i)];
    forall b ensures b in FreeBlocks(lists') <==> b in FreeBlocks(lists) - {Block(lists[o][i], o)} {
      FreeBlocksHas(lists, b);
      FreeBlocksHas(lists', b);
      RemoveAtElems(lists[o], i, b.page);
    }
  }

  // ---- blocks -----------------------------------------------------------------------------

  /** Free and used blocks tile managed memory; cur is in hand, neither free nor used. */
  ghost predicate Hold(managed: set<nat>, free: set<Block>, used: set<Block>, cur: Block) {
    && Tiling(managed, free + used + {cur})
    && free !! used && cur !in free && cur !in used
  }

  ghost predicate Rest(managed: set<nat>, free: set<Block>, used: set<Block>) {
    Tiling(managed, free + used) && free !! used
  }

  lemma TakeFree(managed: set<nat>, free: set<Block>, used: set<Block>, b: Block)
    requires Rest(managed, free, used) && b in free
    ensures Hold(managed, free - {b}, used, b)
  {
    assert free - {b} + used + {b} == free + used;
  }

  lemma TakeUsed(managed: set<nat>, free: set<Block>, used: set<Block>, b: Block)
    requires Rest(managed, free, used) && b in used
    ensures Hold(managed, free, used - {b}, b)
  {
    assert free + (used - {b}) + {b} == free + used;
  }

  lemma Put(managed: set<nat>, free: set<Block>, used: set<Block>, cur: Block)
    requires Hold(managed, free, used, cur)
    ensures Rest(managed, free + {cur}, used) && Rest(managed, free, used + {cur})
  {
    assert free + {cur} + used == free + used + {cur} == free + (used + {cur});
  }

  lemma SplitHold(managed: set<nat>, free: set<Block>, used: set<Block>, cur: Block)
    requires Hold(managed, free, used, cur) && cur.order > 0
    ensures var (lo, hi) := Halves(cur);
            Hold(managed, free + {hi}, used, lo) && hi !in free && hi !in used
  {
    var (lo, hi) := Halves(cur);
    SplitTiling(managed, free + used + {cur}, cur);
    assert free + used + {cur} - {cur} + {lo, hi} == free + {hi} + used + {lo};
  }

  lemma MergeHold(managed: set<nat>, free: set<Block>, used: set<Block>, cur: Block)
    requires Hold(managed, free, used, cur) && cur.order < MAX_ORDER && BuddyOf(cur) in free
    ensures Hold(managed, free - {BuddyOf(cur)}, used, Parent(cur))
    ensures forall page :: Has(Parent(cur), page) <==> Has(cur, page) || Has(BuddyOf(cur), page)
    ensures Aligned(cur)
  {
    var all := free + used + {cur};
    assert BlockOk(managed, cur);
    ParentHalves(cur);
    var p := Parent(cur);
    var (lo, hi) := Halves(p);
    HalvesAligned(p);
    assert {lo, hi} == {cur, BuddyOf(cur)};
    MergeTiling(managed, all, p);
    assert all - {lo, hi} + {p} == (free - {BuddyOf(cur)}) + used + {p};
  }

  /** Head pages of blocks in hand, free and used are all different. */
  lemma HeadsDiffer(managed: set<nat>, blocks: set<Block>, a: Block, b: Block)
    requires Tiling(managed, blocks) && a in blocks && b in blocks && a.page == b.page
    ensures a == b
  {
    HeadInBlock(a);
    HeadInBlock(b);
    SameBlock(managed, blocks, a, b, a.page);
  }

  // ---- descriptors ------------------------------------------------------------------------

  predicate LooksFree(d: Desc, node: nat) {
    d.owner == Buddy && d.node == node
  }

  /** Descriptors are truthful at the heads of blocks, except at page x; the rest is stale. */
  ghost predicate DescsOk(desc: Descs, node: nat, zone: nat, managed: set<nat>, free: set<Block>, used: set<Block>,
                          x: nat) {
    && (forall b | b in free :: b.page in desc && LooksFree(desc[b.page], node) && desc[b.page].order == b.order)
    && (forall b | b in used && b.page != x :: b.page in desc && !LooksFree(desc[b.page], node))
    && (forall p | p in desc && p !in managed && ZoneOf(p) == zone :: !LooksFree(desc[p], node))
    && (forall p | p in managed :: p in desc && ZoneOf(p) == zone)
  }

  /** The test that free_locked makes on the descriptor of the buddy finds exactly a free buddy. */
  lemma BuddyTest(desc: Descs, node: nat, zone: nat, managed: set<nat>, free: set<Block>, used: set<Block>, cur: Block)
    requires Hold(managed, free, used, cur)
    requires DescsOk(desc, node, zone, managed, free, used, 0)
    ensures var u := BuddyPage(cur.page, cur.order);
            (u in desc && ZoneOf(u) == zone && LooksFree(desc[u], node) && desc[u].order == cur.order)
            <==> Block(u, cur.order) in free
  {
    var all := free + used + {cur};
    var u := BuddyPage(cur.page, cur.order);
    if Block(u, cur.order) in free {
      assert BlockOk(managed, Block(u, cur.order));
      HeadInBlock(Block(u, cur.order));
    } else if u in managed {
      var b := BuddyStartsBlock(managed, all, cur);
      assert BlockOk(managed, b);
    }
  }

  // ---- splitting and merging --------------------------------------------------------------

  /** A free block in hand: its descriptor is truthful, and those of the others stay so. */
  lemma HoldDescs(desc: Descs, node: nat, zone: nat, managed: set<nat>, free: set<Block>, used: set<Block>, b: Block)
    requires Rest(managed, free, used) && DescsOk(desc, node, zone, managed, free, used, 0) && b in free
    ensures DescsOk(desc, node, zone, managed, free - {b}, used, b.page)
    ensures b.page in desc && LooksFree(desc[b.page], node) && desc[b.page].order == b.order
  {
    UsedNonzero(managed, free, used);
  }

  lemma UsedNonzero(managed: set<nat>, free: set<Block>, used: set<Block>)
    requires Rest(managed, free, used)
    ensures forall a | a in used :: a.page != 0
  {
    forall a | a in used ensures a.page != 0 {
      assert BlockOk(managed, a);
    }
  }

  lemma SplitCovers(managed: set<nat>, free: set<Block>, used: set<Block>, cur: Block)
    requires Hold(managed, free, used, cur) && cur.order > 0
    ensures var (lo, hi) := Halves(cur);
            forall page :: Covered(free + {hi}, page) || Has(lo, page) <==> Covered(free, page) || Has(cur, page)
  {
    var (lo, hi) := Halves(cur);
    assert BlockOk(managed, cur);
    HalvesAligned(cur);
    forall page ensures Covered(free + {hi}, page) <==> Covered(free, page) || Has(hi, page) {
      CoveredAdd(free, hi, page);
    }
  }

  lemma CoveredAdd(free: set<Block>, b: Block, page: nat)
    ensures Covered(free + {b}, page) <==> Covered(free, page) || Has(b, page)
  {
    if Covered(free, page) {
      var a :| a in free && Has(a, page);
      assert a in free + {b};
    }
    if Has(b, page) {
      assert b in free + {b};
    }
  }

  lemma SplitCoalesced(managed: set<nat>, free: set<Block>, used: set<Block>, cur: Block)
    requires Hold(managed, free, used, cur) && cur.order > 0 && Coalesced(free)
    ensures Coalesced(free + {Halves(cur).1})
  {
    var (lo, hi) := Halves(cur);
    assert BlockOk(managed, cur);
    HalvesAligned(cur);
    SplitHold(managed, free, used, cur);
    forall b {:trigger BuddyOf(b)} | b in free + {hi} && b.order < MAX_ORDER ensures BuddyOf(b) !in free + {hi} {
      if b == hi {
        assert BuddyOf(hi) == lo;
      } else {
        assert b in free + {hi} + used + {lo} && BlockOk(managed, b);
        ParentHalves(b);
      }
    }
  }

  lemma SubsetCoalesced(a: set<Block>, b: set<Block>)
    requires a <= b && Coalesced(b)
    ensures Coalesced(a)
  {
  }

  lemma AddCoalesced(managed: set<nat>, free: set<Block>, used: set<Block>, cur: Block)
    requires Hold(managed, free, used, cur) && Coalesced(free)
    requires cur.order == MAX_ORDER || BuddyOf(cur) !in free
    ensures Coalesced(free + {cur})
  {
    assert BlockOk(managed, cur);
    ParentHalves(cur);
    forall b {:trigger BuddyOf(b)} | b in free + {cur} && b.order < MAX_ORDER ensures BuddyOf(b) !in free + {cur} {
      assert b in free + used + {cur} && BlockOk(managed, b);
      ParentHalves(b);
    }
  }

  /** No free block starts at the page of a block that overlaps none. */
  lemma NotListed(managed: set<nat>, lists: Lists, used: set<Block>, cur: Block, b: Block)
    requires Hold(managed, FreeBlocks(lists), used, cur) && Has(cur, b.page)
    ensures InNoList(lists, b.page)
  {
    forall o {:trigger lists[o]} | 0 <= o < |lists| ensures b.page !in lists[o] {
      if b.page in lists[o] {
        var x := Block(b.page, o);
        FreeBlocksHas(lists, x);
        HeadInBlock(x);
        SameBlock(managed, FreeBlocks(lists) + used + {cur}, x, cur, b.page);
      }
    }
  }

  /** Stamping the head of a block that is about to be free. */
  lemma StampFree(desc: Descs, node: nat, zone: nat, managed: set<nat>, free: set<Block>, used: set<Block>,
                  cur: Block, b: Block, x: nat, d: Desc)
    requires Hold(managed, free, used, cur) && Has(cur, b.page) && DescsOk(desc, node, zone, managed, free, used, x)
    requires LooksFree(d, node) && d.order == b.order
    ensures b.page in managed && b.page in desc
    ensures DescsOk(desc[b.page := d], node, zone, managed, free + {b}, used, x)
  {
    OtherHeads(managed, free, used, cur, b.page);
    assert BlockOk(managed, cur);
  }

  lemma OtherHeads(managed: set<nat>, free: set<Block>, used: set<Block>, cur: Block, page: nat)
    requires Hold(managed, free, used, cur) && Has(cur, page)
    ensures forall a | a in free || a in used :: a.page != page
  {
    forall a | a in free || a in used ensures a.page != page {
      if a.page == page {
        HeadInBlock(a);
        SameBlock(managed, free + used + {cur}, a, cur, page);
      }
    }
  }

  /** Descriptors inside the block in hand are nobody's business. */
  lemma StampInside(desc: Descs, node: nat, zone: nat, managed: set<nat>, free: set<Block>, used: set<Block>,
                    cur: Block, page: nat, d: Desc)
    requires Hold(managed, free, used, cur) && Has(cur, page) && DescsOk(desc, node, zone, managed, free, used, 0)
    ensures DescsOk(desc[page := d], node, zone, managed, free, used, 0)
  {
    OtherHeads(managed, free, used, cur, page);
    assert BlockOk(managed, cur);
  }

  /** Taking a used block in hand ends the exception for its descriptor. */
  lemma TakeUsedDescs(desc: Descs, node: nat, zone: nat, managed: set<nat>, free: set<Block>, used: set<Block>,
                      b: Block)
    requires Rest(managed, free, used) && b in used && DescsOk(desc, node, zone, managed, free, used, b.page)
    ensures DescsOk(desc, node, zone, managed, free, used - {b}, 0)
  {
    forall a | a in used - {b} ensures a.page in desc && !LooksFree(desc[a.page], node) {
      if a.page == b.page {
        HeadsDiffer(managed, free + used, a, b);
      }
    }
  }

  lemma MergeCovers(free: set<Block>, cur: Block, p: Block, page: nat)
    requires BuddyOf(cur) in free
    requires Has(p, page) <==> Has(cur, page) || Has(BuddyOf(cur), page)
    ensures Covered(free - {BuddyOf(cur)}, page) || Has(p, page) <==> Covered(free, page) || Has(cur, page)
  {
    CoveredAdd(free - {BuddyOf(cur)}, BuddyOf(cur), page);
    assert free - {BuddyOf(cur)} + {BuddyOf(cur)} == free;
  }

  lemma MergeDescs(desc: Descs, node: nat, zone: nat, managed: set<nat>, free: set<Block>, used: set<Block>,
                   cur: Block, d: Desc)
    requires Hold(managed, free, used, cur) && cur.order < MAX_ORDER && BuddyOf(cur) in free
    requires DescsOk(desc, node, zone, managed, free, used, 0)
    ensures BuddyOf(cur).page in desc
    ensures DescsOk(desc[BuddyOf(cur).page := d], node, zone, managed, free - {BuddyOf(cur)}, used, 0)
  {
    var u := BuddyOf(cur);
    MergeHold(managed, free, used, cur);
    HeadInBlock(u);
    assert Has(Parent(cur), u.page);
    StampInside(desc, node, zone, managed, free - {u}, used, Parent(cur), u.page, d);
  }

  /** Stamping the new owner into the head of a block just allocated. */
  lemma StampUsed(desc: Descs, node: nat, zone: nat, managed: set<nat>, free: set<Block>, used: set<Block>,
                  b: Block, d: Desc)
    requires Rest(managed, free, used) && b in used && DescsOk(desc, node, zone, managed, free, used, b.page)
    requires !LooksFree(d, node)
    ensures b.page in desc && DescsOk(desc[b.page := d], node, zone, managed, free, used, 0)
  {
    UsedHead(managed, free, used, b);
  }

  lemma UnstampUsed(desc: Descs, node: nat, zone: nat, managed: set<nat>, free: set<Block>, used: set<Block>,
                    b: Block, d: Desc)
    requires Rest(managed, free, used) && b in used && DescsOk(desc, node, zone, managed, free, used, 0)
    ensures b.page in desc && DescsOk(desc[b.page := d], node, zone, managed, free, used, b.page)
  {
    UsedHead(managed, free, used, b);
    UsedNonzero(managed, free, used);
  }

  lemma UsedHead(managed: set<nat>, free: set<Block>, used: set<Block>, b: Block)
    requires Rest(managed, free, used) && b in used
    ensures b.page in managed && b.page != 0
    ensures forall a | (a in free || a in used) && a != b :: a.page != b.page
  {
    assert BlockOk(managed, b);
    HeadInBlock(b);
    forall a | (a in free || a in used) && a != b ensures a.page != b.page {
      if a.page == b.page {
        HeadsDiffer(managed, free + used, a, b);
      }
    }
  }

  /** What splitting left of free block b in hand goes to a user: exactly its pages are gone. */
  lemma TakenFrom(managed: set<nat>, free0: set<Block>, free: set<Block>, used: set<Block>, b: Block, cur: Block)
    requires b in free0 && Hold(managed, free, used, cur)
    requires forall page :: Covered(free, page) || Has(cur, page) <==> Covered(free0 - {b}, page) || Has(b, page)
    ensures Rest(managed, free, used + {cur}) && cur !in used
    ensures forall page :: Covered(free, page) <==> Covered(free0, page) && !Has(cur, page)
  {
    Put(managed, free, used, cur);
    assert free0 - {b} + {b} == free0;
    forall page ensures Covered(free, page) <==> Covered(free0, page) && !Has(cur, page) {
      CoveredAdd(free0 - {b}, b, page);
      if Covered(free, page) && Has(cur, page) {
        var a :| a in free && Has(a, page);
        SameBlock(managed, free + used + {cur}, a, cur, page);
      }
    }
  }

  lemma ExemptMore(desc: Descs, node: nat, zone: nat, managed: set<nat>, free: set<Block>, used: set<Block>, b: Block)
    requires DescsOk(desc, node, zone, managed, free, used, b.page)
    ensures DescsOk(desc, node, zone, managed, free, used + {b}, b.page)
  {
  }

  // ---- blocks that only look free ------------------------------------------------------------

  /** free_locked's test on the descriptor of the buddy of cur. */
  predicate MergeTest(desc: Descs, node: nat, zone: nat, cur: Block) {
    var u := BuddyPage(cur.page, cur.order);
    u in desc && ZoneOf(u) == zone && LooksFree(desc[u], node) && desc[u].order == cur.order
  }

  /** Descriptors are truthful for free blocks; those of blocks in use may say anything. */
  ghost predicate FreeDescsOk(desc: Descs, node: nat, zone: nat, managed: set<nat>, free: set<Block>) {
    DescsOk(desc, node, zone, managed, free, {}, 0)
  }

  /** A block that is on no free list, but whose descriptor has not been stamped as taken. */
  predicate Unstamped(desc: Descs, node: nat, b: Block, order: nat) {
    b.page in desc && LooksFree(desc[b.page], node) && desc[b.page].order == order
  }

  /**
    Blocks are off the lists with a free-looking descriptor between the end of alloc_locked and the
    stamp, and all the time that they are in a per-CPU cache.  The merge test is right exactly when
    no such block starts at the buddy page and carries the order tested for.
   */
  lemma MergeTestExact(desc: Descs, node: nat, zone: nat, managed: set<nat>, free: set<Block>, used: set<Block>,
                       cur: Block)
    requires Hold(managed, free, used, cur) && FreeDescsOk(desc, node, zone, managed, free)
    ensures (MergeTest(desc, node, zone, cur) <==> Block(BuddyPage(cur.page, cur.order), cur.order) in free)
            <==> !exists b ::
                   b in used && b.page == BuddyPage(cur.page, cur.order) && Unstamped(desc, node, b, cur.order)
  {
    var u := BuddyPage(cur.page, cur.order);
    var all := free + used + {cur};
    if Block(u, cur.order) in free {
      assert BlockOk(managed, Block(u, cur.order));
      HeadInBlock(Block(u, cur.order));
      forall b | b in used && b.page == u ensures false {
        HeadsDiffer(managed, all, b, Block(u, cur.order));
      }
    } else if MergeTest(desc, node, zone, cur) {
      var b := BuddyStartsBlock(managed, all, cur);
      assert BlockOk(managed, b);
      assert b in used && Unstamped(desc, node, b, cur.order);
    } else {
      forall b | b in used && b.page == u ensures !Unstamped(desc, node, b, cur.order) {
        assert BlockOk(managed, b);
        HeadInBlock(b);
      }
    }
  }
}
