/** Stack growth: a fault just below a stack region extends it by one page. */
module VmStack {
  import opened Wrappers
  import opened Layout
  import opened VmTree
  import opened VmPages
  import opened Rmap
  import opened VmMove
  import opened VmContract
  import opened VmRegion
  import opened VmState
  import opened VmCarve
  import opened VmSpace
  import opened VmFault

  /** No other region lies in [start, end of r). */
  ghost predicate Clear(regions: Regions, id: nat, start: nat) {
    id in regions && forall y | y in regions && y != id ::
        regions[y].end <= start || regions[y].start >= regions[id].end
  }

  lemma RekeyOrdered(order: seq<nat>, regions: Regions, k: nat, start: nat)
    requires Ordered(order, SpansOf(regions)) && k < |order| && Clear(regions, order[k], start)
    requires start < regions[order[k]].end
    ensures Ordered(order, SpansOf(regions[order[k] := regions[order[k]].(start := start)]))
  {
    OrderedHas(order, regions);
    var id := order[k];
    var regions' := regions[id := regions[id].(start := start)];
    hide Ordered;
    forall i | 0 <= i < |order| ensures order[i] in regions' && regions'[order[i]].start < regions'[order[i]].end {
      assert i != k ==> order[i] != id;
    }
    forall i, j | 0 <= i < j < |order| ensures regions'[order[i]].end <= regions'[order[j]].start {
      if j == k {
        assert order[i] != id && regions[order[i]].end <= regions[id].start;
      } else {
        assert order[j] != id;
      }
    }
    OrderedFrom(order, regions');
  }

  /** A region with a new start stays where it was in address order. */
  lemma RekeyKeeps(order: seq<nat>, regions: Regions, chains: Chains, k: nat, start: nat)
    requires SpaceOk(order, regions, chains) && k < |order| && Clear(regions, order[k], start)
    requires RegionOk(regions[order[k]].(start := start))
    ensures var id := order[k]; var r' := regions[id].(start := start); var regions' := regions[id := r'];
            && SpaceOk(order, regions', chains) && Knows(order, regions) && Knows(order, regions')
            && Plus(Total(order, regions'), Of(regions[id])) == Plus(Total(order, regions), Of(r'))
  {
    var id := order[k];
    var r' := regions[id].(start := start);
    var regions' := regions[id := r'];
    RegionBounds(r');
    KnowsOrder(order, regions, chains);
    RekeyOrdered(order, regions, k, start);
    TotalUpdate(order, k, regions, r');
    hide Ordered, RegionOk, Exact, Total, SpansOf, Clear;
    forall y {:trigger Exact(chains, y, regions'[y].pages)} | y in regions'
      ensures Exact(chains, y, regions'[y].pages)
    {
      assert Exact(chains, y, regions[y].pages);
    }
    forall y {:trigger RegionOk(regions'[y])} | y in regions' ensures RegionOk(regions'[y]) {
      if y != id {
        assert RegionOk(regions[y]);
      }
    }
  }

  lemma WithoutOrdered(order: seq<nat>, regions: Regions, chains: Chains, k: nat)
    requires SpaceOk(order, regions, chains) && k < |order|
    ensures Ordered(order[..k] + order[k + 1..], SpansOf(regions - {order[k]}))
  {
    EraseOrdered(order, regions, k);
  }

  /** Where the other regions lie. */
  lemma Sides(order: seq<nat>, regions: Regions, chains: Chains, k: nat, start: nat, i: nat)
    requires SpaceOk(order, regions, chains) && k < |order| && Clear(regions, order[k], start)
    requires start < regions[order[k]].end
    requires i < |order| - 1
    ensures var order', spans' := order[..k] + order[k + 1..], SpansOf(regions - {order[k]});
            && order'[i] in spans'
            && if i < k then spans'[order'[i]].start <= start && spans'[order'[i]].end <= start
                else spans'[order'[i]].start > start
  {
    hide SpaceOk, Ordered;
    KnowsOrder(order, regions, chains);
    OrderedHas(order, regions);
    var order', spans' := order[..k] + order[k + 1..], SpansOf(regions - {order[k]});
    var j := if i < k then i else i + 1;
    assert order'[i] == order[j] && order[j] in regions && order[j] != order[k];
    assert if j < k then regions[order[j]].end <= regions[order[k]].start
        else regions[order[k]].end <= regions[order[j]].start;
    assert spans'[order[j]] == Span(regions[order[j]].start, regions[order[j]].end);
  }

  lemma SamePlace(order: seq<nat>, regions: Regions, chains: Chains, k: nat, start: nat, p: nat)
    requires SpaceOk(order, regions, chains) && k < |order| && Clear(regions, order[k], start)
    requires start < regions[order[k]].end
    requires Placed(order[..k] + order[k + 1..], SpansOf(regions - {order[k]}), start, None, p, p)
    ensures p == k
  {
    if p < k {
      Sides(order, regions, chains, k, start, p);
    }
    if p > k {
      Sides(order, regions, chains, k, start, k);
    }
    hide SpaceOk, Clear, Ordered;
  }

  lemma NeverBlocked(order: seq<nat>, regions: Regions, chains: Chains, k: nat, start: nat)
    requires SpaceOk(order, regions, chains) && k < |order| && Clear(regions, order[k], start)
    requires start < regions[order[k]].end
    requires Ordered(order[..k] + order[k + 1..], SpansOf(regions - {order[k]}))
    ensures !Blocked(order[..k] + order[k + 1..], SpansOf(regions - {order[k]}), start, None)
  {
    var order', spans' := order[..k] + order[k + 1..], SpansOf(regions - {order[k]});
    forall i: nat | i < |order'| ensures !In(spans'[order'[i]], start) {
      Sides(order, regions, chains, k, start, i);
    }
    hide SpaceOk, Clear, Ordered;
  }

  lemma BackInPlace(order: seq<nat>, k: nat)
    requires k < |order|
    ensures var order' := order[..k] + order[k + 1..];
            k <= |order'| && order'[..k] + [order[k]] + order'[k..] == order
  {
  }

  /** vm_rekey_region: with the way clear it cannot fail. */
  method Rekey(s: Space, id: nat, start: nat)
    requires s.rmap.Valid() && SpaceOk(InOrder(s.tree), s.regions, s.rmap.chains) && id in s.regions
    requires Clear(s.regions, id, start) && RegionOk(s.regions[id].(start := start))
    modifies s`tree, s`regions
    ensures InOrder(s.tree) == old(InOrder(s.tree))
    ensures s.regions == old(s.regions)[id := old(s.regions)[id].(start := start)]
    ensures SpaceOk(InOrder(s.tree), s.regions, s.rmap.chains) && Knows(InOrder(s.tree), s.regions)
    ensures Knows(InOrder(s.tree), old(s.regions))
    ensures Plus(Total(InOrder(s.tree), s.regions), Of(old(s.regions)[id])) ==
        Plus(Total(InOrder(s.tree), old(s.regions)), Of(s.regions[id]))
  {
    hide *;
    ghost var order, chains := InOrder(s.tree), s.rmap.chains;
    KnowsOrder(order, s.regions, chains);
    var r := s.regions[id];
    var k := CountBelow(s.tree, SpansOf(s.regions), r.start);
    PlaceOf(order, s.regions, chains, id, k);
    SizeIs(s.tree);
    RekeyKeeps(order, s.regions, chains, k, start);
    RegionBounds(r.(start := start));
    WithoutOrdered(order, s.regions, chains, k);
    NeverBlocked(order, s.regions, chains, k, start);
    var without := Erase(s.tree, k);
    var place := PlanInsert(without, SpansOf(s.regions - {id}), start, None);
    assert place.Some?;
    SamePlace(order, s.regions, chains, k, start, place.value);
    SizeIs(without);
    BackInPlace(order, k);
    InsertOrder(without, place.value, id);
    s.tree := Insert(without, place.value, id);
    s.regions := s.regions[id := r.(start := start)];
  }

  lemma GrowthClear(order: seq<nat>, regions: Regions, chains: Chains, id: nat)
    requires SpaceOk(order, regions, chains) && id in regions && regions[id].start >= VM_USER_START + PAGE_SIZE
    requires forall y | y in regions :: !(regions[y].start <= regions[id].start - PAGE_SIZE < regions[y].end)
    ensures Clear(regions, id, regions[id].start - PAGE_SIZE)
    ensures RegionOk(regions[id].(start := regions[id].start - PAGE_SIZE))
    ensures IsPageAligned(regions[id].start - PAGE_SIZE) && RegionOk(regions[id])
    ensures Vacant(regions[id].pages, regions[id].start - PAGE_SIZE)
  {
    assert RegionOk(regions[id]);
    forall y | y in regions && y != id
      ensures regions[y].end <= regions[id].start - PAGE_SIZE || regions[y].start >= regions[id].end
    {
      assert RegionOk(regions[y]);
      BesidesIt(order, regions, chains, id, y);
      if regions[y].end <= regions[id].start {
        PageGap(regions[y].end, regions[id].start);
      }
    }
    hide SpaceOk;
  }

  lemma BesidesIt(order: seq<nat>, regions: Regions, chains: Chains, id: nat, y: nat)
    requires SpaceOk(order, regions, chains) && id in regions && y in regions && y != id
    ensures regions[y].end <= regions[id].start || regions[id].end <= regions[y].start
  {
    OrderedHas(order, regions);
    hide Ordered, RegionOk, Exact;
    var i :| 0 <= i < |order| && order[i] == id;
    var j :| 0 <= j < |order| && order[j] == y;
  }

  lemma PageGap(x: nat, y: nat)
    requires IsPageAligned(x) && IsPageAligned(y) && x <= y
    ensures x == y || x <= y - PAGE_SIZE
  {
  }

  lemma ShrinkClear(order: seq<nat>, regions: Regions, chains: Chains, r: Region, id: nat, start: nat)
    requires SpaceOk(order, regions, chains) && id in regions && regions[id].start <= start < regions[id].end
    requires regions[id].end == r.end
    ensures Clear(regions, id, start)
  {
    forall y | y in regions && y != id ensures regions[y].end <= start || regions[y].start >= regions[id].end {
      BesidesIt(order, regions, chains, id, y);
    }
  }

  /** A region one page longer at the low end, with that page in it, and counted. */
  ghost predicate Grown(before: Regions, regions: Regions, id: nat, p: Slot) {
    && id in before && id in regions && regions == before[id := regions[id]] && before[id].start >= PAGE_SIZE
    && regions[id] == before[id].(start := before[id].start - PAGE_SIZE, pages := regions[id].pages,
                                  committed := before[id].committed + 1, resident := before[id].resident + 1)
    && Entries(regions[id].pages) == Entries(before[id].pages) + {p} && p.va == before[id].start - PAGE_SIZE
  }

  lemma IsGrown(before: Regions, between: Regions, regions: Regions, id: nat, p: Slot)
    requires id in before && before[id].start >= PAGE_SIZE && p.va == before[id].start - PAGE_SIZE
    requires between == before[id := before[id].(start := before[id].start - PAGE_SIZE)]
    requires PageAdded(between, regions, id, p)
    ensures Grown(before, regions, id, p)
  {
  }

  lemma GrownTotals(t0: Totals, t1: Totals, t2: Totals, r: Region)
    requires PAGE_SIZE <= r.start <= r.end
    requires Plus(t1, Of(r)) == Plus(t0, Of(r.(start := r.start - PAGE_SIZE))) && t2 == Plus(t1, Totals(0, 1, 1))
    ensures t2 == Totals(t0.mapped + PAGE_SIZE, t0.committed + 1, t0.resident + 1)
  {
  }

  lemma BackTotals(t0: Totals, t1: Totals, t2: Totals, t3: Totals, r: Region, r1: Region, r2: Region)
    requires Plus(t1, Of(r)) == Plus(t0, Of(r1)) && t2 == t1 && Plus(t3, Of(r2)) == Plus(t2, Of(r))
    requires Of(r2) == Of(r1)
    ensures t3 == t0
  {
  }

  lemma BackRegions(before: Regions, between: Regions, id: nat, r2: Region, start: nat)
    requires id in before && between == before[id := before[id].(start := start)]
    requires id in between && r2 == between[id].(pages := r2.pages) && Entries(r2.pages) == Entries(before[id].pages)
    ensures SameRegions(before, between[id := r2][id := r2.(start := before[id].start)])
    ensures r2.(start := before[id].start) == before[id].(pages := r2.pages)
    ensures Of(r2) == Of(before[id].(start := start)) && Of(r2.(start := before[id].start)) == Of(before[id])
  {
    assert between[id := r2][id := r2.(start := before[id].start)] == before[id := before[id].(pages := r2.pages)];
  }

  /** The page that goes into the new end of the stack. */
  function StackSlot(r: Region, f: nat): Slot {
    Slot(if r.start >= PAGE_SIZE then r.start - PAGE_SIZE else 0, f, if r.attrs.flags.cow then Cow else Resident, 0)
  }

  lemma StackSlotIs(r: Region, f: nat)
    requires r.start >= PAGE_SIZE
    ensures var p := StackSlot(r, f);
            p.va == r.start - PAGE_SIZE && p.phys == f && (p.state == Resident || p.state == Cow)
  {
  }

  lemma AboveIs(order: seq<nat>, regions: Regions, k: nat, va: nat)
    requires Knows(order, regions) && k < |order| && forall i | 0 <= i < |order| :: order[i] in SpansOf(regions)
    requires forall i | 0 <= i < |order| :: SpansOf(regions)[order[i]].start < va + 1 <==> i < k
    ensures order[k] in regions && va < regions[order[k]].start
  {
  }

  lemma SameAt(between: Regions, regions: Regions, id: nat)
    requires SameRegions(between, regions) && id in regions
    ensures id in between && regions[id] == between[id].(pages := regions[id].pages)
    ensures Entries(regions[id].pages) == Entries(between[id].pages)
  {
  }

  lemma OkPages(order: seq<nat>, regions: Regions, chains: Chains, id: nat)
    requires SpaceOk(order, regions, chains) && id in regions
    ensures Ok(regions[id].pages) && |regions[id].pages.slots| < MAX_U32
  {
    assert RegionOk(regions[id]);
  }

  /** Undoes Rekey after the page could not be installed. */
  method GoBack(s: Space, id: nat, oldStart: nat, ghost before: Regions, ghost between: Regions, ghost start: nat)
    requires s.rmap.Valid() && SpaceOk(InOrder(s.tree), s.regions, s.rmap.chains) && id in before
    requires RegionOk(before[id])
    requires Knows(InOrder(s.tree), before) && Knows(InOrder(s.tree), between) && Knows(InOrder(s.tree), s.regions)
    requires start < before[id].start == oldStart && between == before[id := before[id].(start := start)]
    requires SameRegions(between, s.regions) && id in s.regions && s.regions == between[id := s.regions[id]]
    requires Plus(Total(InOrder(s.tree), between), Of(before[id])) ==
        Plus(Total(InOrder(s.tree), before), Of(before[id].(start := start)))
    requires Total(InOrder(s.tree), s.regions) == Total(InOrder(s.tree), between)
    modifies s`tree, s`regions
    ensures InOrder(s.tree) == old(InOrder(s.tree)) && SpaceOk(InOrder(s.tree), s.regions, s.rmap.chains)
    ensures SameRegions(before, s.regions) && Knows(InOrder(s.tree), s.regions)
    ensures Total(InOrder(s.tree), s.regions) == Total(InOrder(s.tree), before)
  {
    hide *;
    ghost var order, r2 := InOrder(s.tree), s.regions[id];
    SameAt(between, s.regions, id);
    OkPages(order, s.regions, s.rmap.chains, id);
    BackRegions(before, between, id, r2, start);
    BackOk(before[id], r2.pages);
    RegionBounds(before[id]);
    ShrinkClear(order, s.regions, s.rmap.chains, before[id], id, before[id].start);
    Rekey(s, id, oldStart);
    BackTotals(Total(order, before), Total(order, between), Total(order, old(s.regions)), Total(order, s.regions),
               before[id], before[id].(start := start), r2);
  }

  /** The region takes in the page below it, or is put back as it was. */
  method Grow(s: Space, id: nat, start: nat, f: nat, luck: Luck) returns (ok: bool)
    requires s.Valid() && id in s.regions && RegionOk(s.regions[id]) && f != 0 && s.totalCommitted + 1 <= s.commitLimit
    requires s.regions[id].start >= PAGE_SIZE && start == s.regions[id].start - PAGE_SIZE && PAGE_SIZE > 0
    requires IsPageAligned(start)
    requires Clear(s.regions, id, start) && RegionOk(s.regions[id].(start := start))
    requires Vacant(s.regions[id].pages, start)
    modifies s`tree, s`regions, s`totalMapped, s`totalCommitted, s`totalResident, s.rmap
    ensures s.Valid()
    ensures !ok ==>
              && SameRegions(old(s.regions), s.regions)
              && s.totalCommitted == old(s.totalCommitted) && s.totalResident == old(s.totalResident)
              && s.totalMapped == old(s.totalMapped)
    ensures Ample(old(s.regions)[id], luck) && f < s.rmap.limit ==> ok
    ensures ok ==>
              && Grown(old(s.regions), s.regions, id, StackSlot(old(s.regions)[id], f))
              && s.totalMapped == old(s.totalMapped) + PAGE_SIZE
              && s.totalCommitted == old(s.totalCommitted) + 1 && s.totalResident == old(s.totalResident) + 1
  {
    hide *;
    s.Parts();
    ghost var order, regions0 := InOrder(s.tree), s.regions;
    var r := s.regions[id];
    RegionBounds(r);
    AmpleMoved(r, start, luck);
    Rekey(s, id, start);
    ghost var regions1 := s.regions;
    var p := StackSlot(r, f);
    StackSlotIs(r, f);
    ok := Install(s, id, p, luck);
    if !ok {
      GoBack(s, id, r.start, regions0, regions1, start);
      s.Whole();
      return;
    }
    IsGrown(regions0, regions1, s.regions, id, p);
    GrownTotals(Total(order, regions0), Total(order, regions1), Total(order, s.regions), r);
    s.totalMapped := s.totalMapped + PAGE_SIZE;
    s.totalResident := s.totalResident + 1;
    s.totalCommitted := s.totalCommitted + 1;
    s.Whole();
  }

  /** The page below a stack obtained, mapped and taken in; every failure puts back what was done. */
  method GrowInto(s: Space, m: Machine, id: nat, f: nat, luck: Luck) returns (a: Action)
    requires s.Valid() && f != 0 && f !in m.pins && id in s.regions && s.regions[id].start >= VM_USER_START + PAGE_SIZE
    requires forall y | y in s.regions :: !(s.regions[y].start <= s.regions[id].start - PAGE_SIZE < s.regions[y].end)
    modifies s`tree, s`regions, s`totalMapped, s`totalCommitted, s`totalResident, s.rmap, m
    ensures s.Valid() && (a == StackGrew || a == Oom || a == Killed)
    ensures a != StackGrew ==>
              && SameRegions(old(s.regions), s.regions) && m.dat == old(m.dat) && m.pins == old(m.pins)
              && s.totalCommitted == old(s.totalCommitted) && s.totalResident == old(s.totalResident)
              && s.totalMapped == old(s.totalMapped)
    ensures a == StackGrew ==> luck.frame && luck.pin && luck.table
    ensures a != StackGrew ==>
              !(&& old(s.totalCommitted) < s.commitLimit && luck.frame && luck.pin && luck.table
                && old(s.regions)[id].start - PAGE_SIZE !in old(m.dat) && Ample(old(s.regions)[id], luck)
                    && f < s.rmap.limit)
    ensures a == StackGrew ==>
              && Grown(old(s.regions), s.regions, id, StackSlot(old(s.regions)[id], f))
              && m.dat == old(m.dat)[old(s.regions)[id].start - PAGE_SIZE := f] && m.pins == old(m.pins)[f := 1]
              && s.totalMapped == old(s.totalMapped) + PAGE_SIZE
              && s.totalCommitted == old(s.totalCommitted) + 1 && s.totalResident == old(s.totalResident) + 1
  {
    hide *;
    SameRegionsRefl(s.regions);
    s.Parts();
    var start := s.regions[id].start - PAGE_SIZE;
    AdmitsIs(s.totalCommitted, s.commitLimit, 1);
    if !Admits(s.totalCommitted, s.commitLimit, 1) {
      return Oom;
    }
    var ok := m.Obtain(f, luck);
    if !ok {
      return if luck.frame then Oom else Killed;
    }
    ok := m.MapPage(start, f, luck);
    if !ok {
      m.GiveBack(f);
      PutBack(old(m.pins), f, 1);
      return Killed;
    }
    GrowthClear(InOrder(s.tree), s.regions, s.rmap.chains, id);
    PageIsPositive();
    ok := Grow(s, id, start, f, luck);
    if !ok {
      m.UnmapPage(start);
      m.GiveBack(f);
      PutBack(old(m.pins), f, 1);
      PutBack(old(m.dat), start, f);
      return Oom;
    }
    return StackGrew;
  }

  /** A stack whose lowest page lies just above va, with the page below it free. */
  ghost predicate Growable(regions: Regions, y: nat, va: nat) {
    && y in regions && regions[y].attrs.flags.stack && va < regions[y].start <= va + PAGE_SIZE
    && regions[y].start >= VM_USER_START + PAGE_SIZE
    && forall z | z in regions :: !(regions[z].start <= regions[y].start - PAGE_SIZE < regions[z].end)
  }

  lemma GrowableIs(regions: Regions, y: nat, va: nat)
    ensures Growable(regions, y, va) <==>
              && y in regions && regions[y].attrs.flags.stack && va < regions[y].start <= va + PAGE_SIZE
              && regions[y].start >= VM_USER_START + PAGE_SIZE
              && forall z | z in regions :: !(regions[z].start <= regions[y].start - PAGE_SIZE < regions[z].end)
  {
  }

  /** A stack that can grow down to va is the first region above va. */
  lemma OnlyAbove(order: seq<nat>, regions: Regions, chains: Chains, k: nat, va: nat)
    requires SpaceOk(order, regions, chains) && k <= |order|
    requires forall i | 0 <= i < |order| :: order[i] in SpansOf(regions)
    requires forall i | 0 <= i < |order| :: SpansOf(regions)[order[i]].start < va + 1 <==> i < k
    ensures forall y | Growable(regions, y, va) :: k < |order| && order[k] == y
  {
    forall y | Growable(regions, y, va) ensures k < |order| && order[k] == y {
      var i :| 0 <= i < |order| && order[i] == y;
      OrderedHas(order, regions);
      assert RegionOk(regions[order[k]]) && RegionOk(regions[y]);
      if k < i {
        PageGap(regions[order[k]].start, regions[y].start);
      }
    }
  }

  lemma AmpleMoved(r: Region, start: nat, luck: Luck)
    ensures Ample(r.(start := start), luck) == Ample(r, luck)
  {
  }

  /** The stack path of handle_page_fault, for an address that no region holds. */
  method StackFault(s: Space, m: Machine, va: nat, f: nat, luck: Luck) returns (a: Action, ghost id: nat)
    requires s.Valid() && f != 0 && f !in m.pins
    requires forall y | y in s.regions :: !(s.regions[y].start <= va < s.regions[y].end)
    modifies s`tree, s`regions, s`totalMapped, s`totalCommitted, s`totalResident, s.rmap, m
    ensures s.Valid() && (a == StackGrew || a == Oom || a == Killed)
    ensures a != StackGrew ==>
              && SameRegions(old(s.regions), s.regions) && m.dat == old(m.dat) && m.pins == old(m.pins)
              && s.totalCommitted == old(s.totalCommitted) && s.totalResident == old(s.totalResident)
              && s.totalMapped == old(s.totalMapped)
    ensures a == StackGrew ==> Growable(old(s.regions), id, va) && luck.frame && luck.pin && luck.table
    ensures forall y | Growable(old(s.regions), y, va) ::
              && old(s.totalCommitted) < s.commitLimit && luck.frame && luck.pin && luck.table
              && old(s.regions)[y].start - PAGE_SIZE !in old(m.dat) && Ample(old(s.regions)[y], luck)
              && f < s.rmap.limit
              ==> a == StackGrew && id == y
    ensures a == StackGrew ==>
              && id in old(s.regions) && Grown(old(s.regions), s.regions, id, StackSlot(old(s.regions)[id], f))
              && old(s.regions)[id].attrs.flags.stack
              && old(s.regions)[id].start - PAGE_SIZE <= va < old(s.regions)[id].start
              && m.dat == old(m.dat)[old(s.regions)[id].start - PAGE_SIZE := f] && m.pins == old(m.pins)[f := 1]
              && s.totalMapped == old(s.totalMapped) + PAGE_SIZE
              && s.totalCommitted == old(s.totalCommitted) + 1 && s.totalResident == old(s.totalResident) + 1
  {
    hide *;
    id := 0;
    SameRegionsRefl(s.regions);
    s.Parts();
    ghost var order, chains, regions0 := InOrder(s.tree), s.rmap.chains, s.regions;
    KnowsOrder(order, s.regions, chains);
    var k := CountBelow(s.tree, SpansOf(s.regions), va + 1);
    SizeIs(s.tree);
    OnlyAbove(order, s.regions, chains, k, va);
    if k == Size(s.tree) {
      return Killed, 0;
    }
    KnowsIt(order, s.regions, k);
    var above := InOrder(s.tree)[k];
    id := above;
    AboveIs(order, s.regions, k, va);
    var r := s.regions[above];
    GrowableIs(s.regions, above, va);
    if !r.attrs.flags.stack || va + PAGE_SIZE < r.start {
      return Killed, id;
    }
    if r.start < VM_USER_START + PAGE_SIZE {
      return Killed, id;
    }
    var start := r.start - PAGE_SIZE;
    var found := Find(s.tree, SpansOf(s.regions), start);
    if found.Some? {
      FoundRegion(order, s.regions, chains, found.value, start);
      return Killed, id;
    }
    NoneFound(order, s.regions, chains, start);
    a := GrowInto(s, m, above, f, luck);
  }
}
