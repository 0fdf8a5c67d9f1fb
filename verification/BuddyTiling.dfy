/** Aligned power-of-two blocks of pages, their buddies, and tilings made of them. */
module BuddyTiling {
  import opened Arith

  const MAX_ORDER: nat := 10

  function Pow2(o: nat): (r: nat)
    ensures r > 0
  {
    if o == 0 then 1 else 2 * Pow2(o - 1)
  }

  /** 2^order pages from page on. */
  datatype Block = Block(page: nat, order: nat)

  predicate Aligned(b: Block) {
    b.page % Pow2(b.order) == 0
  }

  predicate Has(b: Block, page: nat) {
    b.page <= page < b.page + Pow2(b.order)
  }

  /** page ^ 2^order, for an aligned page: flipping one bit adds or subtracts it. */
  function BuddyPage(page: nat, order: nat): nat {
    if (page / Pow2(order)) % 2 == 0 then page + Pow2(order)
    else if page >= Pow2(order) then page - Pow2(order) else 0
  }

  function Parent(b: Block): Block {
    Block(if (b.page / Pow2(b.order)) % 2 == 0 then b.page else BuddyPage(b.page, b.order), b.order + 1)
  }

  /** Number of the block of the given order that a page lies in. */
  function Idx(page: nat, order: nat): nat {
    Div(page, Pow2(order))
  }

  lemma IdxStep(page: nat, order: nat)
    ensures Idx(page, order + 1) == Idx(page, order) / 2
  {
    DivDiv(page, Pow2(order), 2);
  }

  lemma AlignedIdx(b: Block)
    requires Aligned(b)
    ensures b.page == Pow2(b.order) * Idx(b.page, b.order)
  {
  }

  lemma HasIdx(b: Block, page: nat)
    requires Aligned(b)
    ensures Has(b, page) <==> Idx(page, b.order) == Idx(b.page, b.order)
  {
    hide Pow2;
    var n, q := Pow2(b.order), Idx(b.page, b.order);
    AlignedIdx(b);
    if Has(b, page) {
      DivUnique(page, n, q, page - b.page);
    }
  }

  lemma {:induction false} IdxAbove(x: nat, y: nat, o: nat, o': nat)
    requires o <= o' && Idx(x, o) == Idx(y, o)
    ensures Idx(x, o') == Idx(y, o')
    decreases o' - o
  {
    hide Idx;
    if o < o' {
      IdxStep(x, o);
      IdxStep(y, o);
      IdxAbove(x, y, o + 1, o');
    }
  }

  /** Aligned blocks with a common page are nested. */
  lemma Nested(a: Block, b: Block, page: nat)
    requires Aligned(a) && Aligned(b) && a.order <= b.order
    requires Has(a, page) && Has(b, page)
    ensures forall x {:trigger Has(a, x)} | Has(a, x) :: Has(b, x)
    ensures a.order == b.order ==> a == b
  {
    hide Idx, Has, Pow2, Aligned;
    HasIdx(a, page);
    HasIdx(b, page);
    forall x {:trigger Has(a, x)} | Has(a, x) ensures Has(b, x) {
      HasIdx(a, x);
      HasIdx(b, x);
      IdxAbove(x, page, a.order, b.order);
    }
    AlignedIdx(a);
    AlignedIdx(b);
  }

  /** A block and its buddy are the two halves of their parent. */
  lemma ParentHalves(b: Block)
    requires Aligned(b)
    ensures Aligned(Parent(b)) && Aligned(Block(BuddyPage(b.page, b.order), b.order))
    ensures var p, u := Parent(b).page, BuddyPage(b.page, b.order);
            if b.page < u then p == b.page && u == p + Pow2(b.order) else p == u && b.page == p + Pow2(b.order)
    ensures b.page != BuddyPage(b.page, b.order)
    ensures BuddyPage(BuddyPage(b.page, b.order), b.order) == b.page
  {
    assert Pow2(b.order + 1) == 2 * Pow2(b.order);
    hide Pow2;
    if (b.page / Pow2(b.order)) % 2 == 0 {
      FlipEven(Pow2(b.order), b.page);
    } else {
      FlipOdd(Pow2(b.order), b.page);
    }
  }

  // ---- tilings ----------------------------------------------------------------------------

  ghost predicate BlockOk(managed: set<nat>, b: Block) {
    && b.page > 0 && b.order <= MAX_ORDER && Aligned(b)
    && forall page {:trigger Has(b, page)} | Has(b, page) :: page in managed
  }

  ghost predicate Apart(a: Block, b: Block) {
    a != b ==> forall page {:trigger Has(a, page)} {:trigger Has(b, page)} :: !(Has(a, page) && Has(b, page))
  }

  ghost predicate Covered(blocks: set<Block>, page: nat) {
    exists b :: b in blocks && Has(b, page)
  }

  /** The blocks are aligned, lie in managed memory, do not overlap and leave no page out. */
  ghost predicate Tiling(managed: set<nat>, blocks: set<Block>) {
    && (forall b {:trigger BlockOk(managed, b)} | b in blocks :: BlockOk(managed, b))
    && (forall a, b {:trigger Apart(a, b)} | a in blocks && b in blocks :: Apart(a, b))
    && (forall page {:trigger Covered(blocks, page)} | page in managed :: Covered(blocks, page))
  }

  lemma HeadInBlock(b: Block)
    ensures Has(b, b.page)
  {
  }

  /** Two blocks of a tiling with a common page are the same block. */
  lemma SameBlock(managed: set<nat>, blocks: set<Block>, a: Block, b: Block, page: nat)
    requires Tiling(managed, blocks) && a in blocks && b in blocks && Has(a, page) && Has(b, page)
    ensures a == b
  {
    assert Apart(a, b);
  }

  /**
    The page a block is merged towards is never inside another block: if it is managed, it is
    where a block starts, and that block is no larger.
   */
  lemma BuddyStartsBlock(managed: set<nat>, blocks: set<Block>, c: Block) returns (b: Block)
    requires Tiling(managed, blocks) && c in blocks && BuddyPage(c.page, c.order) in managed
    ensures b in blocks && b != c && b.page == BuddyPage(c.page, c.order) && b.order <= c.order
  {
    var buddy := BuddyPage(c.page, c.order);
    assert BlockOk(managed, c);
    ParentHalves(c);
    assert Covered(blocks, buddy);
    b :| b in blocks && Has(b, buddy);
    assert BlockOk(managed, b);
    if b.order > c.order {
      assert Has(Parent(c), c.page) && Has(Parent(c), buddy);
      Nested(Parent(c), b, buddy);
      HeadInBlock(c);
      SameBlock(managed, blocks, b, c, c.page);
      assert false;
    }
    var half := Block(buddy, c.order);
    HeadInBlock(half);
    HeadInBlock(b);
    Nested(b, half, buddy);
    assert Has(half, b.page);
  }

  function Halves(b: Block): (Block, Block)
    requires b.order > 0
  {
    (Block(b.page, b.order - 1), Block(b.page + Pow2(b.order - 1), b.order - 1))
  }

  lemma HalvesAligned(b: Block)
    requires b.order > 0 && Aligned(b)
    ensures var (lo, hi) := Halves(b);
            && Aligned(lo) && Aligned(hi)
            && Parent(lo) == b && Parent(hi) == b
            && BuddyPage(lo.page, lo.order) == hi.page && BuddyPage(hi.page, hi.order) == lo.page
            && forall page :: Has(b, page) <==> Has(lo, page) || Has(hi, page)
  {
    assert Pow2(b.order) == 2 * Pow2(b.order - 1);
    hide Pow2;
    HalveMultiple(Pow2(b.order - 1), b.page);
    FlipEven(Pow2(b.order - 1), b.page);
  }

  /** Splitting a block keeps the tiling. */
  lemma SplitTiling(managed: set<nat>, blocks: set<Block>, b: Block)
    requires Tiling(managed, blocks) && b in blocks && b.order > 0
    ensures var (lo, hi) := Halves(b);
            lo !in blocks && hi !in blocks && Tiling(managed, blocks - {b} + {lo, hi})
  {
    var (lo, hi) := Halves(b);
    var blocks' := blocks - {b} + {lo, hi};
    assert BlockOk(managed, b);
    HalvesAligned(b);
    HeadInBlock(lo);
    HeadInBlock(hi);
    if lo in blocks { SameBlock(managed, blocks, lo, b, lo.page); }
    if hi in blocks { SameBlock(managed, blocks, hi, b, hi.page); }
    forall a | a in blocks' ensures BlockOk(managed, a) {
      if a != lo && a != hi {
        assert BlockOk(managed, a);
      }
    }
    forall x, y | x in blocks' && y in blocks' ensures Apart(x, y) {
      var x', y' := if x in {lo, hi} then b else x, if y in {lo, hi} then b else y;
      assert Apart(x', y');
    }
    forall page | page in managed ensures Covered(blocks', page) {
      assert Covered(blocks, page);
      var a :| a in blocks && Has(a, page);
      var a' := if a != b then a else if Has(lo, page) then lo else hi;
      assert a' in blocks' && Has(a', page);
    }
  }

  /** Merging the two halves of a block keeps the tiling. */
  lemma MergeTiling(managed: set<nat>, blocks: set<Block>, b: Block)
    requires b.order > 0 && b.order <= MAX_ORDER && Aligned(b)
    requires var (lo, hi) := Halves(b); Tiling(managed, blocks) && lo in blocks && hi in blocks
    ensures var (lo, hi) := Halves(b);
            b !in blocks && Tiling(managed, blocks - {lo, hi} + {b})
  {
    var (lo, hi) := Halves(b);
    var blocks' := blocks - {lo, hi} + {b};
    HalvesAligned(b);
    HeadInBlock(lo);
    assert BlockOk(managed, lo) && BlockOk(managed, hi);
    if b in blocks { SameBlock(managed, blocks, lo, b, lo.page); }
    forall a | a in blocks' ensures BlockOk(managed, a) {
      if a != b {
        assert BlockOk(managed, a);
      }
    }
    forall x, y | x in blocks' && y in blocks' ensures Apart(x, y) {
      if x == b && y != b {
        assert Apart(lo, y) && Apart(hi, y);
      } else if x != b && y == b {
        assert Apart(x, lo) && Apart(x, hi);
      } else {
        assert x == y || Apart(x, y);
      }
    }
    forall page | page in managed ensures Covered(blocks', page) {
      assert Covered(blocks, page);
      var a :| a in blocks && Has(a, page);
      var a' := if a == lo || a == hi then b else a;
      assert a' in blocks' && Has(a', page);
    }
  }

  // ---- coalesced tilings are canonical ----------------------------------------------------

  function BuddyOf(b: Block): Block {
    Block(BuddyPage(b.page, b.order), b.order)
  }

  /** No two free buddies of one order could still be merged. */
  ghost predicate Coalesced(blocks: set<Block>) {
    forall b {:trigger BuddyOf(b)} | b in blocks && b.order < MAX_ORDER :: BuddyOf(b) !in blocks
  }

  /** Aligned blocks that do not overlap. */
  ghost predicate Proper(blocks: set<Block>) {
    && (forall b | b in blocks :: Aligned(b) && b.order <= MAX_ORDER)
    && (forall a, b {:trigger Apart(a, b)} | a in blocks && b in blocks :: Apart(a, b))
  }

  /** An aligned block that coalesced blocks cover lies within one of them. */
  lemma {:induction false} InsideSome(blocks: set<Block>, b: Block) returns (c: Block)
    requires Proper(blocks) && Coalesced(blocks)
    requires Aligned(b) && b.order <= MAX_ORDER
    requires forall page {:trigger Has(b, page)} | Has(b, page) :: Covered(blocks, page)
    ensures c in blocks && b.order <= c.order
    ensures forall page {:trigger Has(b, page)} | Has(b, page) :: Has(c, page)
    decreases b.order
  {
    HeadInBlock(b);
    if b.order == 0 {
      c :| c in blocks && Has(c, b.page);
      assert Covered(blocks, b.page);
    } else {
      var (lo, hi) := Halves(b);
      HalvesAligned(b);
      HeadInBlock(lo);
      HeadInBlock(hi);
      c := InsideSome(blocks, lo);
      var d := InsideSome(blocks, hi);
      assert BuddyOf(lo) == hi;
      if c.order >= b.order {
        Nested(b, c, lo.page);
      } else if d.order >= b.order {
        Nested(b, d, hi.page);
        c := d;
      } else {
        Nested(lo, c, lo.page);
        Nested(hi, d, hi.page);
        assert false;
      }
    }
  }

  ghost predicate SamePages(a: set<Block>, b: set<Block>) {
    forall page :: Covered(a, page) <==> Covered(b, page)
  }

  lemma CanonicalHalf(a: set<Block>, b: set<Block>, x: Block)
    requires Proper(a) && Proper(b) && Coalesced(a) && Coalesced(b) && SamePages(a, b)
    requires x in a
    ensures x in b
  {
    forall page {:trigger Has(x, page)} | Has(x, page) ensures Covered(b, page) {
      assert Covered(a, page);
    }
    var y := InsideSome(b, x);
    forall page {:trigger Has(y, page)} | Has(y, page) ensures Covered(a, page) {
      assert Covered(b, page);
    }
    var z := InsideSome(a, y);
    HeadInBlock(x);
    assert Apart(x, z);
    Nested(x, y, x.page);
  }

  /** Fully coalesced blocks are determined by the pages they cover. */
  lemma CanonicalTiling(a: set<Block>, b: set<Block>)
    requires Proper(a) && Proper(b) && Coalesced(a) && Coalesced(b) && SamePages(a, b)
    ensures a == b
  {
    forall x | x in a ensures x in b { CanonicalHalf(a, b, x); }
    forall x | x in b ensures x in a { CanonicalHalf(b, a, x); }
  }
}
