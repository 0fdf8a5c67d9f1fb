/** A zone of the buddy allocator as boot leaves it: valid, all of it free. */
module BuddyBoot {
  import opened BuddyTiling
  import opened BuddyList
  import opened BuddyState
  import opened Buddy
  import opened BuddySeed
  import opened R = Reservations

  /** The pages of the blocks that go to a zone. */
  ghost function Pages(log: seq<Block>, zone: nat): set<nat> {
    if log == [] then {}
    else
      var b := log[|log| - 1];
      Pages(log[..|log| - 1], zone) + if ZoneOf(b.page) == zone then Interval(b.page, Pow2(b.order)) else {}
  }

  ghost function Interval(a: nat, n: nat): (r: set<nat>)
    ensures |r| == n && forall page: nat {:trigger page in r} :: page in r <==> a <= page < a + n
  {
    if n == 0 then {} else Interval(a, n - 1) + {a + n - 1}
  }

  lemma {:induction false} PagesHave(log: seq<Block>, zone: nat, page: nat)
    requires forall i | 0 <= i < |log| :: Seeded(log[i])
    ensures page in Pages(log, zone) <==> Count(log, page) > 0 && ZoneOf(page) == zone
    decreases |log|
  {
    if log != [] {
      var n := |log| - 1;
      PagesHave(log[..n], zone, page);
      HasIs(log[n], page);
      assert Seeded(log[n]);
      hide Pow2;
      if Has(log[n], page) {
        assert ZoneOf(page) == ZoneOf(log[n].page);
      }
    }
  }

  /** One more block: its pages are new. */
  lemma PagesMore(log: seq<Block>, zone: nat, k: nat)
    requires k < |log| && AllApart(log) && forall i | 0 <= i < |log| :: Seeded(log[i])
    ensures |Pages(log[..k + 1], zone)|
         == |Pages(log[..k], zone)| + if ZoneOf(log[k].page) == zone then Pow2(log[k].order) else 0
  {
    var front, b := log[..k], log[k];
    assert log[..k + 1][..k] == front;
    var pages := Interval(b.page, Pow2(b.order));
    forall page: nat | page in pages ensures page !in Pages(front, zone) {
      PagesHave(front, zone, page);
      CountPositive(front, page);
      HasIs(b, page);
      assert forall i | 0 <= i < |front| :: front[i] == log[i] && !Has(log[i], page);
    }
    assert Pages(front, zone) !! pages && |Pages(front, zone) + pages| == |Pages(front, zone)| + |pages|;
  }

  /** The first k blocks of the log have been pushed and stamped. */
  ghost predicate Filled(lists: Lists, desc: Descs, table: Descs, node: nat, zone: nat, log: seq<Block>, k: nat) {
    && k <= |log| && FreeBlocks(lists) == ZoneBlocks(log[..k], zone) && desc.Keys == table.Keys
    && (forall b | b in ZoneBlocks(log[..k], zone) && b.page in desc ::
        desc[b.page] == Desc(b.order, Buddy, node, false, false))
    && (forall p | p in desc ::
          && !desc[p].offline
          && (LooksFree(desc[p], node) ==> exists b :: b in ZoneBlocks(log[..k], zone) && b.page == p))
  }

  lemma FillStart(lists: Lists, table: Descs, node: nat, zone: nat, log: seq<Block>)
    requires FreeBlocks(lists) == {} && forall p | p in table :: !LooksFree(table[p], node) && !table[p].offline
    ensures Filled(lists, table, table, node, zone, log, 0)
  {
    assert ZoneBlocks(log[..0], zone) == {};
  }

  lemma NotYetListed(lists: Lists, desc: Descs, table: Descs, node: nat, zone: nat, log: seq<Block>, k: nat)
    requires Filled(lists, desc, table, node, zone, log, k) && k < |log| && AllApart(log)
    ensures InNoList(lists, log[k].page)
  {
    var p := log[k].page;
    hide Pow2, Has, ZoneOf, AllApart, ZoneBlocks;
    forall o {:trigger lists[o]} | 0 <= o < |lists| ensures p !in lists[o] {
      if p in lists[o] {
        FreeBlocksHas(lists, Block(p, o));
        OtherHead(log, zone, k, Block(p, o));
      }
    }
  }

  lemma FillStep(lists: Lists, desc: Descs, lists': Lists, desc': Descs, table: Descs, node: nat, zone: nat,
                 log: seq<Block>, k: nat)
    requires Filled(lists, desc, table, node, zone, log, k) && k < |log| && AllApart(log)
    requires if ZoneOf(log[k].page) == zone
             then && FreeBlocks(lists') == FreeBlocks(lists) + {log[k]}
                  && desc' == (if log[k].page in desc
                      then desc[log[k].page := Desc(log[k].order, Buddy, node, false, false)] else desc)
             else FreeBlocks(lists') == FreeBlocks(lists) && desc' == desc
    ensures Filled(lists', desc', table, node, zone, log, k + 1)
  {
    var b := log[k];
    assert log[..k + 1] == log[..k] + [b];
    var before, after := ZoneBlocks(log[..k], zone), ZoneBlocks(log[..k + 1], zone);
    assert after == if ZoneOf(b.page) == zone then before + {b} else before;
    hide ZoneBlocks, ZoneOf;
    if ZoneOf(b.page) == zone {
      forall c | c in before ensures c.page != b.page {
        OtherHead(log, zone, k, c);
      }
      forall p | p in desc' && LooksFree(desc'[p], node) ensures exists c :: c in after && c.page == p {
        if p == b.page {
          assert b in after;
        } else {
          var c :| c in before && c.page == p;
          assert c in after;
        }
      }
    }
  }

  lemma OtherHead(log: seq<Block>, zone: nat, k: nat, c: Block)
    requires k < |log| && AllApart(log) && c in ZoneBlocks(log[..k], zone)
    ensures c.page != log[k].page
  {
    var j :| 0 <= j < |log[..k]| && log[..k][j] == c;
    assert log[j] == c;
    HeadInBlock(c);
    HeadInBlock(log[k]);
    hide Has, Pow2;
  }

  lemma FillEnd(lists: Lists, desc: Descs, table: Descs, node: nat, zone: nat, log: seq<Block>, managed: set<nat>)
    requires Filled(lists, desc, table, node, zone, log, |log|) && Rest(managed, ZoneBlocks(log, zone), {})
    requires forall p | p in managed :: p in table && ZoneOf(p) == zone
    ensures FreeBlocks(lists) == ZoneBlocks(log, zone) && NoOffline(desc)
    ensures DescsOk(desc, node, zone, managed, FreeBlocks(lists), {}, 0)
  {
    assert log[..|log|] == log;
    var free := ZoneBlocks(log, zone);
    hide ZoneBlocks, ZoneOf, Pow2;
    forall b | b in free ensures b.page in managed {
      assert b in free + {};
      assert BlockOk(managed, b);
      HeadInBlock(b);
    }
  }

  /**
    The part of init that fills one zone of one node.  Given that a page lies in one usable region at most,
    as the memory map should have it, the zone holds every usable page once, and all of them are free.
   */
  method Boot(node: nat, zone: nat, regions: seq<Range>, resv: seq<Range>, table: Descs) returns (z: Zone)
    requires R.Ordered(resv) && InSome(resv, 0) && forall page: nat :: InSome(resv, page) || CountIn(regions, page) <= 1
    requires forall page: nat | CountIn(regions, page) > 0 :: page in table
    requires forall p | p in table :: !LooksFree(table[p], node) && !table[p].offline
    ensures fresh(z) && z.Valid() && z.used == {} && NoOffline(z.desc) && z.node == node && z.zone == zone
    ensures forall page: nat :: page in z.managed <==> Usable(regions, resv, page) && ZoneOf(page) == zone
    ensures z.freePages == |z.managed|
    ensures Coalesced(z.Free()) <==> !exists b: Block :: Bridges(regions, resv, zone, b)
  {
    var log := Seed(regions, resv);
    ApartExact(log, regions, resv);
    BootCoalesced(log, regions, resv, zone);
    ghost var managed := Pages(log, zone);
    ManagedIs(log, regions, resv, zone);
    SeedTiles(log, managed, zone);
    z := FillZone(node, zone, log, managed, table);
  }

  lemma ManagedIs(log: seq<Block>, regions: seq<Range>, resv: seq<Range>, zone: nat)
    requires SeedOf(log, regions, resv)
    ensures forall page: nat :: page in Pages(log, zone) <==> Count(log, page) > 0 && ZoneOf(page) == zone
    ensures forall page: nat :: page in Pages(log, zone) <==> Usable(regions, resv, page) && ZoneOf(page) == zone
  {
    forall page: nat ensures page in Pages(log, zone) <==> Count(log, page) > 0 && ZoneOf(page) == zone {
      PagesHave(log, zone, page);
    }
  }

  /** The pushes of init for one zone. */
  method FillZone(node: nat, zone: nat, log: seq<Block>, ghost managed: set<nat>, table: Descs) returns (z: Zone)
    requires AllApart(log) && Count(log, 0) == 0 && forall i | 0 <= i < |log| :: Seeded(log[i])
    requires managed == Pages(log, zone) && Rest(managed, ZoneBlocks(log, zone), {})
    requires forall p | p in managed :: p in table && ZoneOf(p) == zone
    requires forall p | p in table :: !LooksFree(table[p], node) && !table[p].offline
    ensures fresh(z) && z.Valid() && z.used == {} && NoOffline(z.desc) && z.node == node && z.zone == zone
    ensures z.managed == managed
    ensures z.Free() == ZoneBlocks(log, zone) && z.freePages == |managed|
  {
    z := new Zone(node, zone, managed, table);
    hide Pow2, Has, Seeded, AllApart, Filled, Rest, ListsOk, FreeBlocks, ZoneBlocks, LooksFree, InNoList, Pages, Count;
    FillStart(z.lists, table, node, zone, log);
    NoPages(log, zone);
    var k := 0;
    while k < |log|
      invariant k <= |log| && fresh(z) && z.ListsValid() && z.freePages == Total(z.counts) == |Pages(log[..k], zone)|
      invariant z.used == {}
      invariant Filled(z.lists, z.desc, table, node, zone, log, k)
    {
      var b := log[k];
      PagesMore(log, zone, k);
      SeededHead(log, k);
      ghost var lists, desc := z.lists, z.desc;
      if ZoneOf(b.page) == zone {
        NotYetListed(z.lists, z.desc, table, node, zone, log, k);
        z.Push(b.order, b.page);
        z.SetDesc(b.page, b.order, Owner.Buddy, false);
        z.freePages := z.freePages + Pow2(b.order);
      }
      FillStep(lists, desc, z.lists, z.desc, table, node, zone, log, k);
      k := k + 1;
    }
    assert log[..|log|] == log;
    FillEnd(z.lists, z.desc, table, node, zone, log, managed);
  }

  lemma NoPages(log: seq<Block>, zone: nat)
    ensures |Pages(log[..0], zone)| == 0
  {
  }

  lemma SeededHead(log: seq<Block>, k: nat)
    requires k < |log| && Count(log, 0) == 0 && forall i | 0 <= i < |log| :: Seeded(log[i])
    ensures log[k].page != 0 && log[k].order <= MAX_ORDER
  {
    assert Seeded(log[k]);
    CountPositive(log, 0);
    HeadInBlock(log[k]);
    hide Pow2;
  }

  // ---- a page in a per-CPU cache -------------------------------------------------------------------

  /** If no list has a block, every page is in use. */
  lemma NothingFree(z: Zone, page: nat)
    requires z.Valid() && (forall o | 0 <= o <= MAX_ORDER :: z.lists[o] == []) && page in z.managed
    ensures Covered(z.used, page)
  {
    ListsLength(z.heads, z.counts, z.mem, z.lists);
    assert z.Free() + z.used == z.used;
    assert Covered(z.Free() + z.used, page);
  }

  lemma TwoPages(regions: seq<Range>, page: nat)
    requires regions == [Range(512, 514)]
    ensures CountIn(regions, page) == if 512 <= page < 514 then 1 else 0
  {
    assert regions[..0] == [];
  }

  /** Boot with two usable pages. */
  method BootTwo() returns (z: Zone)
    ensures fresh(z) && z.Valid() && z.node == z.zone == 0 && z.managed == {512, 513} && z.used == {}
  {
    var regions, resv, blank := [Range(512, 514)], [Range(0, 512)], Desc(0, Nobody, 0, false, false);
    assert In(resv[0], 0);
    forall page: nat ensures CountIn(regions, page) == if 512 <= page < 514 then 1 else 0 {
      TwoPages(regions, page);
    }
    hide Rest, DescsOk, ListsOk, Coalesced, Bridges, CountIn, NoOffline;
    z := Boot(0, 0, regions, resv, map[512 := blank, 513 := blank]);
    assert z.managed == {512, 513};
  }

  /** A page that is not in use is there, so one page can be had. */
  method TakePage(z: Zone, ghost page: nat) returns (p: nat)
    requires z.Valid() && page in z.managed && !Covered(z.used, page)
    modifies z
    ensures z.Valid() && p in z.managed && z.used == old(z.used) + {Block(p, 0)} && Block(p, 0) !in old(z.used)
  {
    p := z.Alloc(0);
    hide Rest, DescsOk, ListsOk, Coalesced, Covered;
    if p == 0 {
      NothingFree(z, page);
    } else {
      TakenHead(z, p);
    }
  }

  /** Both are allocated. */
  method TakeBoth() returns (z: Zone, p: nat, q: nat)
    ensures fresh(z) && z.Valid() && z.node == z.zone == 0 && z.managed == {512, 513} && p != q
    ensures p in z.managed && q in z.managed && z.used == {Block(p, 0), Block(q, 0)}
  {
    hide Rest, DescsOk, ListsOk, Coalesced, Covered;
    z := BootTwo();
    NotCovered(512);
    p := TakePage(z, 512);
    assert !Covered(z.used, 1025 - p) by {
      assert z.used == {Block(p, 0)};
      if Covered(z.used, 1025 - p) {
        OneCovered(p, 1025 - p);
      }
    }
    q := TakePage(z, 1025 - p);
  }

  lemma NotCovered(page: nat)
    ensures !Covered({}, page)
  {
  }

  lemma OneCovered(p: nat, page: nat)
    requires Covered({Block(p, 0)}, page)
    ensures page == p
  {
    assert Pow2(0) == 1;
  }

  lemma TakenHead(z: Zone, p: nat)
    requires z.Valid() && Block(p, 0) in z.used
    ensures p in z.managed
  {
    assert Block(p, 0) in z.Free() + z.used;
    assert BlockOk(z.managed, Block(p, 0));
    HeadInBlock(Block(p, 0));
  }

  /**
    One of them is freed into the per-CPU cache, which stamps it as free without listing it.  When the other one
    is then freed past the cache, free_locked finds its buddy free, and takes it off a list that it is not on.
   */
  method CachedBlockPassesTest() returns (z: Zone, p: nat, q: nat)
    ensures Hold(z.managed, z.Free(), {Block(p, 0)}, Block(q, 0)) && FreeDescsOk(z.desc, 0, 0, z.managed, z.Free())
    ensures MergeTest(z.desc, 0, 0, Block(q, 0)) && Block(p, 0) == BuddyOf(Block(q, 0)) && Block(p, 0) !in z.Free()
  {
    z, p, q := TakeBoth();
    TakeUsed(z.managed, z.Free(), z.used, Block(q, 0));
    assert z.used - {Block(q, 0)} == {Block(p, 0)};
    FreeElsewhere(z, p);
    z.SetDesc(p, 0, Owner.Buddy, false);
  }

  lemma FreeElsewhere(z: Zone, p: nat)
    requires z.Valid() && Block(p, 0) in z.used
    ensures p in z.desc && forall b | b in z.Free() :: b.page != p
  {
    TakenHead(z, p);
    forall b | b in z.Free() ensures b.page != p {
      HeadInBlock(b);
      HeadInBlock(Block(p, 0));
      assert b in z.Free() + z.used && Block(p, 0) in z.Free() + z.used;
      assert Apart(b, Block(p, 0));
    }
  }
}
