/** How the free lists are first filled: every usable, unreserved page ends up in one block. */
module BuddySeed {
  import opened BuddyTiling
  import opened BuddyState
  import opened Reservations
  import opened Arith

  /** How many blocks of the log hold a page. */
  ghost function Count(log: seq<Block>, page: nat): nat {
    if log == [] then 0
    else Count(log[..|log| - 1], page) + if Has(log[|log| - 1], page) then 1 else 0
  }

  /** How many usable regions hold a page. */
  ghost function CountIn(regions: seq<Range>, page: nat): nat {
    if regions == [] then 0
    else CountIn(regions[..|regions| - 1], page) + if In(regions[|regions| - 1], page) then 1 else 0
  }

  lemma CountOne(log: seq<Block>, b: Block, page: nat)
    ensures Count(log + [b], page) == Count(log, page) + if Has(b, page) then 1 else 0
  {
    assert (log + [b])[..|log|] == log;
  }

  lemma {:induction false} CountConcat(a: seq<Block>, b: seq<Block>, page: nat)
    ensures Count(a + b, page) == Count(a, page) + Count(b, page)
    decreases |b|
  {
    if b == [] {
      assert a + b == a;
    } else {
      var c := b[..|b| - 1];
      assert a + b == (a + c) + [b[|b| - 1]];
      assert b == c + [b[|b| - 1]];
      CountOne(a + c, b[|b| - 1], page);
      CountOne(c, b[|b| - 1], page);
      CountConcat(a, c, page);
    }
  }

  /** Last page that a block starting at run may reach: blocks do not straddle the DMA limit. */
  function ZoneEnd(run: nat, end: nat): nat {
    if ZoneOf(run) == 0 && ZONE_LIMIT < end then ZONE_LIMIT else end
  }

  predicate Fits(b: Block, end: nat) {
    Aligned(b) && b.page + Pow2(b.order) <= ZoneEnd(b.page, end)
  }

  /** A block that init may push: as large as alignment and the end of its run allow. */
  ghost predicate Largest(b: Block, end: nat) {
    && Fits(b, end) && b.order <= MAX_ORDER
    && (b.order < MAX_ORDER ==> !Fits(Block(b.page, b.order + 1), end))
  }

  /** The search for the order of the next block. */
  method ChooseOrder(run: nat, end: nat) returns (ord: nat)
    requires run < end
    ensures Largest(Block(run, ord), end)
  {
    ord := MAX_ORDER;
    while ord > 0
      invariant ord <= MAX_ORDER && (ord < MAX_ORDER ==> !Fits(Block(run, ord + 1), end))
    {
      if run % Pow2(ord) == 0 && run + Pow2(ord) <= ZoneEnd(run, end) {
        return;
      }
      ord := ord - 1;
    }
    assert Pow2(0) == 1 && run % 1 == 0;
  }

  /** The blocks pushed for a run of free pages: they cover it once and none could have been larger. */
  method SeedRun(start: nat, end: nat) returns (log: seq<Block>)
    requires start <= end
    ensures forall page: nat :: Count(log, page) == if start <= page < end then 1 else 0
    ensures forall i | 0 <= i < |log| :: Largest(log[i], end) && start <= log[i].page < end
  {
    hide Largest, Has, Pow2;
    log := [];
    var run := start;
    while run < end
      invariant start <= run <= end
      invariant forall page: nat :: Count(log, page) == if start <= page < run then 1 else 0
      invariant forall i | 0 <= i < |log| :: Largest(log[i], end) && start <= log[i].page < end
    {
      var ord := ChooseOrder(run, end);
      var b := Block(run, ord);
      LargestFits(b, end);
      forall page: nat ensures Count(log + [b], page) == if start <= page < run + Pow2(ord) then 1 else 0 {
        CountOne(log, b, page);
        HasIs(b, page);
      }
      log := log + [b];
      run := run + Pow2(ord);
    }
  }

  lemma HasIs(b: Block, page: nat)
    ensures Has(b, page) <==> b.page <= page < b.page + Pow2(b.order)
  {
  }

  lemma LargestFits(b: Block, end: nat)
    requires Largest(b, end) && b.page < end
    ensures b.page + Pow2(b.order) <= end && b.order <= MAX_ORDER && Aligned(b)
  {
  }

  lemma LimitAligned(o: nat)
    requires o <= MAX_ORDER
    ensures ZONE_LIMIT % Pow2(o) == 0
  {
    assert Pow2(10) == 1024 && Pow2(9) == 512 && Pow2(8) == 256 && Pow2(7) == 128 && Pow2(6) == 64
      && Pow2(5) == 32 && Pow2(4) == 16 && Pow2(3) == 8 && Pow2(2) == 4 && Pow2(1) == 2 && Pow2(0) == 1;
  }

  /** No two blocks of a run are buddies: the run starts out fully coalesced. */
  lemma RunIsCoalesced(a: Block, b: Block, end: nat)
    requires Largest(a, end) && Largest(b, end) && a.order < MAX_ORDER
    ensures b != BuddyOf(a)
  {
    ParentHalves(a);
    if b == BuddyOf(a) {
      HalvesFit(if a.page < b.page then a else b, if a.page < b.page then b else a, end);
    }
  }

  lemma HalvesFit(lo: Block, hi: Block, end: nat)
    requires Fits(lo, end) && Fits(hi, end) && lo.order == hi.order < MAX_ORDER
    requires hi.page == lo.page + Pow2(lo.order) && Aligned(Block(lo.page, lo.order + 1))
    ensures Fits(Block(lo.page, lo.order + 1), end)
  {
    var p := Block(lo.page, lo.order + 1);
    LimitAligned(p.order);
    assert Pow2(p.order) == 2 * Pow2(lo.order);
    hide Pow2;
    if lo.page < ZONE_LIMIT {
      NextAligned(Pow2(p.order), lo.page, ZONE_LIMIT);
    }
  }

  /** The run of unreserved pages from page on stops at end: at the end of its region, or where a reservation starts. */
  ghost predicate RunEnd(r: Range, resv: seq<Range>, page: nat, end: nat) {
    && r.start <= page < end <= r.end && !InSome(resv, page)
    && (forall k | 0 <= k < |resv| && resv[k].start > page :: end <= resv[k].start)
    && (end == r.end || exists k :: 0 <= k < |resv| && resv[k].start == end)
  }

  /** A block as large as its run in a region allows. */
  ghost predicate InRun(b: Block, r: Range, resv: seq<Range>) {
    exists end: nat :: RunEnd(r, resv, b.page, end) && Largest(b, end)
  }

  lemma IsInRun(b: Block, r: Range, resv: seq<Range>, cur: nat, end: nat)
    requires RunEnd(r, resv, cur, end) && cur <= b.page < end && Largest(b, end)
    ensures InRun(b, r, resv)
  {
    FreeRun(resv, cur, end);
    assert RunEnd(r, resv, b.page, end);
  }

  /** Pages of one run have the same end. */
  lemma SameRunEnd(r: Range, resv: seq<Range>, p: nat, e: nat, q: nat, e': nat)
    requires RunEnd(r, resv, p, e) && RunEnd(r, resv, q, e') && p <= q < e
    ensures e == e'
  {
  }

  /** One usable region: walk over reservations and seed the runs between them. */
  method SeedRegion(r: Range, resv: seq<Range>) returns (log: seq<Block>)
    requires Ordered(resv)
    ensures forall page: nat :: Count(log, page) == if In(r, page) && !InSome(resv, page) then 1 else 0
    ensures forall i | 0 <= i < |log| :: Seeded(log[i]) && InRun(log[i], r, resv)
  {
    log := [];
    var cur := r.start;
    while cur < r.end
      invariant r.start <= cur && (cur <= r.end || log == [])
      invariant forall page: nat ::
                Count(log, page) == if r.start <= page < cur && In(r, page) && !InSome(resv, page) then 1 else 0
      invariant forall i | 0 <= i < |log| :: Seeded(log[i]) && InRun(log[i], r, resv)
    {
      hide Ordered, Seeded, Count, InRun, Largest;
      var skip := SkipEnd(cur, resv);
      if skip != 0 {
        var e := if skip < r.end then skip else r.end;
        Skipped(resv, cur, skip);
        cur := e;
        continue;
      }
      var e := NextStart(cur, r.end, resv);
      FreeRun(resv, cur, e);
      var run := SeedRun(cur, e);
      forall page: nat ensures Count(log + run, page)
          == if r.start <= page < e && In(r, page) && !InSome(resv, page) then 1 else 0 {
        CountConcat(log, run, page);
      }
      forall i | 0 <= i < |run| ensures Seeded(run[i]) && InRun(run[i], r, resv) {
        RunSeeded(run[i], e);
        IsInRun(run[i], r, resv, cur, e);
      }
      log := log + run;
      cur := e;
    }
  }

  /** What every block pushed by init satisfies. */
  ghost predicate Seeded(b: Block) {
    && Aligned(b) && b.order <= MAX_ORDER
    && forall page {:trigger Has(b, page)} | Has(b, page) :: ZoneOf(page) == ZoneOf(b.page)
  }

  lemma RunSeeded(b: Block, end: nat)
    requires Largest(b, end)
    ensures Seeded(b)
  {
  }

  lemma Skipped(resv: seq<Range>, cur: nat, skip: nat)
    requires exists i :: 0 <= i < |resv| && In(resv[i], cur) && resv[i].end == skip
    ensures cur < skip && forall page | cur <= page < skip :: InSome(resv, page)
  {
    var i :| 0 <= i < |resv| && In(resv[i], cur) && resv[i].end == skip;
    forall page | cur <= page < skip ensures InSome(resv, page) {
      assert In(resv[i], page);
    }
  }

  lemma FreeRun(resv: seq<Range>, cur: nat, end: nat)
    requires !InSome(resv, cur)
    requires forall i | 0 <= i < |resv| && resv[i].start > cur :: end <= resv[i].start
    ensures forall page | cur <= page < end :: !InSome(resv, page)
  {
  }

  ghost predicate InSomeRun(b: Block, regions: seq<Range>, resv: seq<Range>) {
    exists g: nat :: g < |regions| && InRun(b, regions[g], resv)
  }

  lemma IsInSomeRun(b: Block, regions: seq<Range>, resv: seq<Range>, g: nat)
    requires g < |regions| && InRun(b, regions[g], resv)
    ensures InSomeRun(b, regions, resv)
  {
  }

  /**
    The seeding loop of init: a reserved page gets into no block, any other page gets into as many
    blocks as there are usable regions that hold it.
   */
  method Seed(regions: seq<Range>, resv: seq<Range>) returns (log: seq<Block>)
    requires Ordered(resv)
    ensures forall page: nat :: Count(log, page) == if InSome(resv, page) then 0 else CountIn(regions, page)
    ensures forall i | 0 <= i < |log| :: Seeded(log[i]) && InSomeRun(log[i], regions, resv)
  {
    log := [];
    var i := 0;
    while i < |regions|
      invariant i <= |regions|
      invariant forall page: nat :: Count(log, page) == if InSome(resv, page) then 0 else CountIn(regions[..i], page)
      invariant forall k | 0 <= k < |log| :: Seeded(log[k]) && InSomeRun(log[k], regions, resv)
    {
      hide Ordered, Seeded, InSome, InRun, InSomeRun;
      var more := SeedRegion(regions[i], resv);
      forall k | 0 <= k < |more| ensures InSomeRun(more[k], regions, resv) {
        IsInSomeRun(more[k], regions, resv, i);
      }
      forall page: nat
        ensures Count(log + more, page) == if InSome(resv, page) then 0 else CountIn(regions[..i + 1], page)
      {
        CountConcat(log, more, page);
        assert regions[..i + 1][..i] == regions[..i];
      }
      log := log + more;
      i := i + 1;
    }
    assert regions[..|regions|] == regions;
  }

  // ---- consequences --------------------------------------------------------------------------

  ghost predicate AllApart(log: seq<Block>) {
    forall i, j, page | 0 <= i < j < |log| && Has(log[i], page) :: !Has(log[j], page)
  }

  lemma {:induction false} CountPositive(log: seq<Block>, page: nat)
    ensures Count(log, page) > 0 <==> exists i :: 0 <= i < |log| && Has(log[i], page)
  {
    if log != [] {
      var n := |log| - 1;
      CountPositive(log[..n], page);
      if i :| 0 <= i < |log[..n]| && Has(log[..n][i], page) {
        assert Has(log[i], page);
      }
      if i :| 0 <= i < |log| && Has(log[i], page) {
        assert i < n ==> Has(log[..n][i], page);
      }
    }
  }

  lemma {:induction false} CountTwo(log: seq<Block>, page: nat)
    ensures Count(log, page) > 1 <==> exists i, j :: 0 <= i < j < |log| && Has(log[i], page) && Has(log[j], page)
  {
    if log != [] {
      var n := |log| - 1;
      var front := log[..n];
      CountTwo(front, page);
      CountPositive(front, page);
      if i, j :| 0 <= i < j < |front| && Has(front[i], page) && Has(front[j], page) {
        assert Has(log[i], page) && Has(log[j], page);
      }
      if i :| 0 <= i < |front| && Has(front[i], page) {
        assert Has(log[i], page) && Has(log[n], page) == Has(log[|log| - 1], page);
      }
      if i, j :| 0 <= i < j < |log| && Has(log[i], page) && Has(log[j], page) {
        assert Has(front[i], page);
        assert j < n ==> Has(front[j], page);
      }
    }
  }

  /** No page is pushed twice exactly when no unreserved page lies in two usable regions. */
  lemma ApartExact(log: seq<Block>, regions: seq<Range>, resv: seq<Range>)
    requires forall page: nat :: Count(log, page) == if InSome(resv, page) then 0 else CountIn(regions, page)
    ensures AllApart(log) <==> forall page: nat :: InSome(resv, page) || CountIn(regions, page) <= 1
  {
    if AllApart(log) {
      forall page: nat ensures InSome(resv, page) || CountIn(regions, page) <= 1 {
        CountTwo(log, page);
      }
    }
    if forall page: nat :: InSome(resv, page) || CountIn(regions, page) <= 1 {
      forall i, j, page | 0 <= i < j < |log| && Has(log[i], page) ensures !Has(log[j], page) {
        CountTwo(log, page);
        assert Count(log, page) <= 1;
      }
    }
  }

  /** Then the blocks of each zone tile its memory, all of it free. */
  lemma SeedTiles(log: seq<Block>, managed: set<nat>, zone: nat)
    requires AllApart(log) && Count(log, 0) == 0
    requires forall i | 0 <= i < |log| :: Seeded(log[i])
    requires forall page: nat :: page in managed <==> Count(log, page) > 0 && ZoneOf(page) == zone
    ensures Rest(managed, set b | b in log && ZoneOf(b.page) == zone, {})
  {
    hide Pow2, Has, Count;
    var free := set b | b in log && ZoneOf(b.page) == zone;
    forall b {:trigger BlockOk(managed, b)} | b in free ensures BlockOk(managed, b) {
      var i :| 0 <= i < |log| && log[i] == b;
      HeadInBlock(b);
      CountPositive(log, 0);
      forall page {:trigger Has(b, page)} | Has(b, page) ensures page in managed {
        CountPositive(log, page);
      }
    }
    forall a, b {:trigger Apart(a, b)} | a in free && b in free ensures Apart(a, b) {
      var i :| 0 <= i < |log| && log[i] == a;
      var j :| 0 <= j < |log| && log[j] == b;
    }
    forall page {:trigger Covered(free, page)} | page in managed ensures Covered(free, page) {
      CountPositive(log, page);
      var i :| 0 <= i < |log| && Has(log[i], page);
      assert Seeded(log[i]) && log[i] in free;
    }
    assert free + {} == free;
  }

  // ---- how far boot coalesces ----------------------------------------------------------------

  ghost predicate Usable(regions: seq<Range>, resv: seq<Range>, page: nat) {
    !InSome(resv, page) && CountIn(regions, page) > 0
  }

  /** Where one usable region ends and another one starts, or a reservation starts, which then is an empty one. */
  ghost predicate Cut(regions: seq<Range>, resv: seq<Range>, e: nat) {
    || (exists i: nat, j: nat ::
          && i < |regions| && j < |regions|
          && regions[i].start < regions[i].end == e == regions[j].start < regions[j].end)
    || (exists k: nat :: k < |resv| && resv[k].start == e)
  }

  /** An aligned block of usable pages of the zone that lies across such a place. */
  ghost predicate Bridges(regions: seq<Range>, resv: seq<Range>, zone: nat, b: Block) {
    && Aligned(b) && b.order <= MAX_ORDER
    && (forall page: nat {:trigger Has(b, page)} | Has(b, page) :: Usable(regions, resv, page) && ZoneOf(page) == zone)
    && exists e: nat {:trigger Cut(regions, resv, e)} :: e > 0 && Cut(regions, resv, e) && Has(b, e - 1) && Has(b, e)
  }

  lemma {:induction false} CountInPositive(regions: seq<Range>, page: nat, g: nat)
    requires g < |regions| && In(regions[g], page)
    ensures CountIn(regions, page) > 0
    decreases |regions|
  {
    if g < |regions| - 1 {
      CountInPositive(regions[..|regions| - 1], page, g);
    }
  }

  /** A page that lies in one region at most. */
  lemma {:induction false} OneRegion(regions: seq<Range>, page: nat, g: nat, g': nat)
    requires CountIn(regions, page) <= 1 && g < |regions| && g' < |regions| && In(regions[g], page)
    requires In(regions[g'], page)
    ensures g == g'
    decreases |regions|
  {
    var n := |regions| - 1;
    if g < n {
      CountInPositive(regions[..n], page, g);
    }
    if g' < n {
      CountInPositive(regions[..n], page, g');
    }
    if g < n && g' < n {
      OneRegion(regions[..n], page, g, g');
    }
  }

  ghost predicate SeedOf(log: seq<Block>, regions: seq<Range>, resv: seq<Range>) {
    && (forall page: nat :: Count(log, page) == if InSome(resv, page) then 0 else CountIn(regions, page))
    && (forall page: nat :: InSome(resv, page) || CountIn(regions, page) <= 1)
    && (forall i | 0 <= i < |log| :: Seeded(log[i]) && InSomeRun(log[i], regions, resv))
  }

  ghost function ZoneBlocks(log: seq<Block>, zone: nat): set<Block> {
    set b | b in log && ZoneOf(b.page) == zone
  }

  /** Both pages beside a cut are never in one block. */
  lemma NotAcross(log: seq<Block>, regions: seq<Range>, resv: seq<Range>, c: Block, e: nat)
    requires SeedOf(log, regions, resv) && c in log && e > 0 && Cut(regions, resv, e)
    ensures !(Has(c, e - 1) && Has(c, e))
  {
    if Has(c, e - 1) && Has(c, e) {
      var n :| 0 <= n < |log| && log[n] == c;
      assert InSomeRun(c, regions, resv);
      var g: nat :| g < |regions| && InRun(c, regions[g], resv);
      var end: nat :| RunEnd(regions[g], resv, c.page, end) && Largest(c, end);
      LargestFits(c, end);
      assert c.page <= e - 1 && e < end;
      CountPositive(log, e);
      if i: nat, j: nat :|
        && i < |regions| && j < |regions|
        && regions[i].start < regions[i].end == e == regions[j].start < regions[j].end
      {
        OneRegion(regions, e, g, j);
      }
    }
  }

  lemma ZoneProper(log: seq<Block>, regions: seq<Range>, resv: seq<Range>, zone: nat)
    requires SeedOf(log, regions, resv)
    ensures Proper(ZoneBlocks(log, zone))
    ensures forall page {:trigger Covered(ZoneBlocks(log, zone), page)} |
              Usable(regions, resv, page) && ZoneOf(page) == zone ::
              Covered(ZoneBlocks(log, zone), page)
  {
    var free := ZoneBlocks(log, zone);
    ApartExact(log, regions, resv);
    forall a, b {:trigger Apart(a, b)} | a in free && b in free ensures Apart(a, b) {
      var i :| 0 <= i < |log| && log[i] == a;
      var j :| 0 <= j < |log| && log[j] == b;
      hide Has;
    }
    forall b | b in free ensures Aligned(b) && b.order <= MAX_ORDER {
      var i :| 0 <= i < |log| && log[i] == b;
      assert Seeded(log[i]);
    }
    forall page {:trigger Covered(free, page)} | Usable(regions, resv, page) && ZoneOf(page) == zone
      ensures Covered(free, page)
    {
      CountPositive(log, page);
      var i :| 0 <= i < |log| && Has(log[i], page);
      assert Seeded(log[i]) && log[i] in free;
    }
  }

  /** Two free buddies at boot lie on either side of a cut. */
  lemma BuddiesBridge(log: seq<Block>, regions: seq<Range>, resv: seq<Range>, zone: nat, lo: Block, hi: Block)
    requires SeedOf(log, regions, resv) && lo in log && hi in log && lo.order == hi.order < MAX_ORDER
    requires hi.page == lo.page + Pow2(lo.order) && hi == BuddyOf(lo)
    ensures Cut(regions, resv, hi.page)
  {
    hide Largest, Pow2, BuddyOf, Has, Aligned;
    var e := hi.page;
    var g, end := RunOf(log, regions, resv, lo);
    var g', end' := RunOf(log, regions, resv, hi);
    LargestFits(lo, end);
    InOneAtMost(log, regions, resv, hi, e);
    InOneAtMost(log, regions, resv, lo, e - 1);
    if e < end {
      OneRegion(regions, e, g, g');
      SameRunEnd(regions[g], resv, lo.page, end, hi.page, end');
      RunIsCoalesced(lo, hi, end);
    } else if end == regions[g].end && regions[g'].start < e {
      OneRegion(regions, e - 1, g, g');
    }
  }

  lemma RunOf(log: seq<Block>, regions: seq<Range>, resv: seq<Range>, b: Block) returns (g: nat, end: nat)
    requires SeedOf(log, regions, resv) && b in log
    ensures g < |regions| && RunEnd(regions[g], resv, b.page, end) && Largest(b, end)
  {
    hide Largest, RunEnd, Seeded;
    var n :| 0 <= n < |log| && log[n] == b;
    assert InSomeRun(log[n], regions, resv);
    g :| g < |regions| && InRun(b, regions[g], resv);
    end :| RunEnd(regions[g], resv, b.page, end) && Largest(b, end);
  }

  lemma InOneAtMost(log: seq<Block>, regions: seq<Range>, resv: seq<Range>, b: Block, page: nat)
    requires SeedOf(log, regions, resv) && b in log && b.page <= page < b.page + Pow2(b.order)
    ensures CountIn(regions, page) == 1 && !InSome(resv, page)
  {
    HasIs(b, page);
    hide Seeded, InSomeRun, Pow2, Has;
    CountPositive(log, page);
    var i :| 0 <= i < |log| && log[i] == b;
    assert Has(log[i], page);
    hide InSome;
  }

  /**
    After boot the free lists of a zone are fully coalesced exactly if no aligned block of usable pages lies
    across the border of two usable regions, or across an empty reservation: runs are seeded one by one.
   */
  lemma BootCoalesced(log: seq<Block>, regions: seq<Range>, resv: seq<Range>, zone: nat)
    requires SeedOf(log, regions, resv)
    ensures Coalesced(ZoneBlocks(log, zone)) <==> !exists b: Block :: Bridges(regions, resv, zone, b)
  {
    var free := ZoneBlocks(log, zone);
    ZoneProper(log, regions, resv, zone);
    if Coalesced(free) {
      forall b: Block ensures !Bridges(regions, resv, zone, b) {
        NoBridge(log, regions, resv, zone, b);
      }
    } else {
      var b :| b in free && b.order < MAX_ORDER && BuddyOf(b) in free;
      ParentHalves(b);
      var lo := if b.page < BuddyOf(b).page then b else BuddyOf(b);
      var hi := BuddyOf(lo);
      ParentBridges(log, regions, resv, zone, lo, hi);
    }
  }

  lemma NoBridge(log: seq<Block>, regions: seq<Range>, resv: seq<Range>, zone: nat, b: Block)
    requires SeedOf(log, regions, resv) && Coalesced(ZoneBlocks(log, zone))
    ensures !Bridges(regions, resv, zone, b)
  {
    ZoneProper(log, regions, resv, zone);
    hide SeedOf, Proper, Coalesced, Usable, Covered;
    if Bridges(regions, resv, zone, b) {
      var c := InsideSome(ZoneBlocks(log, zone), b);
      var e: nat :| e > 0 && Cut(regions, resv, e) && Has(b, e - 1) && Has(b, e);
      NotAcross(log, regions, resv, c, e);
    }
  }

  lemma ParentBridges(log: seq<Block>, regions: seq<Range>, resv: seq<Range>, zone: nat, lo: Block, hi: Block)
    requires SeedOf(log, regions, resv) && lo in ZoneBlocks(log, zone) && hi in ZoneBlocks(log, zone)
    requires lo.order == hi.order < MAX_ORDER && hi.page == lo.page + Pow2(lo.order) && hi == BuddyOf(lo)
    requires Aligned(Block(lo.page, lo.order + 1))
    ensures Bridges(regions, resv, zone, Block(lo.page, lo.order + 1))
  {
    var p := Block(lo.page, lo.order + 1);
    hide SeedOf, Pow2, Cut, Usable, BuddyOf, Aligned, ZoneOf;
    ZoneInLog(log, zone, lo);
    ZoneInLog(log, zone, hi);
    hide ZoneBlocks;
    BuddiesBridge(log, regions, resv, zone, lo, hi);
    DoubleSize(lo.order);
    forall page: nat {:trigger Has(p, page)} | Has(p, page)
      ensures Usable(regions, resv, page) && ZoneOf(page) == zone
    {
      BlockUsable(log, regions, resv, zone, if page < hi.page then lo else hi, page);
    }
    assert Has(p, hi.page - 1) && Has(p, hi.page) && hi.page > 0;
  }

  lemma ZoneInLog(log: seq<Block>, zone: nat, b: Block)
    requires b in ZoneBlocks(log, zone)
    ensures b in log
  {
  }

  lemma DoubleSize(o: nat)
    ensures Pow2(o + 1) == 2 * Pow2(o) && Pow2(o) > 0
  {
  }

  lemma BlockUsable(log: seq<Block>, regions: seq<Range>, resv: seq<Range>, zone: nat, b: Block, page: nat)
    requires SeedOf(log, regions, resv) && b in ZoneBlocks(log, zone) && b.page <= page < b.page + Pow2(b.order)
    ensures Usable(regions, resv, page) && ZoneOf(page) == zone
  {
    InOneAtMost(log, regions, resv, b, page);
    hide InSomeRun, InSome;
    var i :| 0 <= i < |log| && log[i] == b;
    assert Seeded(log[i]) && Has(b, page);
  }

  /**
    Memory below page 512 reserved, as init does it, and usable pages 512 to 516 and 517 to 519: pages 516 and
    517 are buddies, and boot leaves both as free blocks of one page.
   */
  lemma BootLeavesBuddies(log: seq<Block>)
    requires SeedOf(log, [Range(512, 517), Range(517, 520)], [Range(0, 512)])
    ensures Block(516, 0) in ZoneBlocks(log, 0) && Block(517, 0) in ZoneBlocks(log, 0)
    ensures BuddyOf(Block(516, 0)) == Block(517, 0) && !Coalesced(ZoneBlocks(log, 0))
  {
    BesideCut(log, 516);
    BesideCut(log, 517);
    assert Pow2(0) == 1;
  }

  /** Neither 516 nor 517 is in a block with the other, and any larger block with one of them has both. */
  lemma BesideCut(log: seq<Block>, page: nat)
    requires SeedOf(log, [Range(512, 517), Range(517, 520)], [Range(0, 512)]) && 516 <= page <= 517
    ensures Block(page, 0) in ZoneBlocks(log, 0)
  {
    var regions, resv := [Range(512, 517), Range(517, 520)], [Range(0, 512)];
    CountInPositive(regions, page, page - 516);
    CountPositive(log, page);
    var i :| 0 <= i < |log| && Has(log[i], page);
    assert regions[0].end == 517 == regions[1].start;
    assert Cut(regions, resv, 517);
    NotAcross(log, regions, resv, log[i], 517);
    assert Seeded(log[i]);
    OnePage(log[i], page);
  }

  lemma OnePage(b: Block, page: nat)
    requires Aligned(b) && Has(b, page) && 516 <= page <= 517 && !(Has(b, 516) && Has(b, 517))
    ensures b == Block(page, 0)
  {
    if b.order > 0 {
      var half := Pow2(b.order - 1);
      assert Pow2(b.order) == 2 * half && half > 0;
      var k := b.page / Pow2(b.order);
      assert b.page == 2 * (half * k) by {
        Multiple(b.page, half);
      }
    }
  }

  lemma Multiple(page: nat, half: nat)
    requires half > 0 && page % (2 * half) == 0
    ensures page == 2 * (half * (page / (2 * half)))
  {
  }

  /** Two usable regions that overlap: page 516 gets into two blocks. */
  lemma PushedTwice(log: seq<Block>)
    requires var regions, resv := [Range(512, 520), Range(516, 524)], [Range(0, 512)];
             forall page: nat :: Count(log, page) == if InSome(resv, page) then 0 else CountIn(regions, page)
    ensures Count(log, 516) == 2 && !AllApart(log)
  {
    var regions, resv := [Range(512, 520), Range(516, 524)], [Range(0, 512)];
    assert regions[..1] == [Range(512, 520)] && regions[..1][..0] == [];
    assert CountIn(regions[..1], 516) == 1;
    assert !InSome(resv, 516) && CountIn(regions, 516) == 2;
    ApartExact(log, regions, resv);
  }
}
