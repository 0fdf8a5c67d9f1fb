/** An address space: mapping, splitting, unmapping and protecting regions, and the commit budget. */
module VmSpace {
  import opened Wrappers
  import opened Layout
  import opened VmTree
  import opened VmPages
  import opened Rmap
  import opened VmMove
  import opened VmContract
  import opened VmRegion
  import opened VmState
  import opened VmCarve
  import VmGap

  /** Pages and shares of the two halves of a split. */
  ghost predicate Shares(r: Region, va: nat, lo: PageMap, up: PageMap, c: nat, n: nat) {
    && Ok(lo) && Ok(up) && |lo.slots| == |r.pages.slots| && |up.slots| < MAX_U32
    && Divided(Entries(r.pages), Entries(lo), Entries(up), va)
    && c <= r.committed && n <= r.resident
    && |Committed(Entries(up))| <= c && |Entries(up)| <= n
    && |Committed(Entries(r.pages))| - |Committed(Entries(up))| <= r.committed - c
    && |Entries(r.pages)| - |Entries(up)| <= r.resident - n
  }

  lemma SharesSplit(r: Region, va: nat, lo: PageMap, up: PageMap, c: nat, n: nat)
    requires RegionOk(r) && IsPageAligned(va) && r.start < va < r.end && Shares(r, va, lo, up, c, n)
    ensures c <= r.committed && n <= r.resident
    ensures SplitInto(r, va, Lower(r, va, c, n, lo), Upper(r, va, c, n, up))
  {
    SplitOk(r, va, c, n, lo, up);
  }

  lemma CountedShares(r: Region, va: nat, lo: PageMap, up: PageMap)
    requires RegionOk(r) && Ok(lo) && Ok(up) && |lo.slots| == |r.pages.slots| && |up.slots| < MAX_U32
    requires Divided(Entries(r.pages), Entries(lo), Entries(up), va)
    ensures Shares(r, va, lo, up, |Committed(Entries(up))|, |Entries(up)|)
  {
    DividedCards(Entries(r.pages), Entries(lo), Entries(up), va);
  }

  lemma ProportionalShares(r: Region, va: nat, up: PageMap, c: nat, n: nat)
    requires RegionOk(r) && |r.pages.slots| == 0 && up.count == 0 && |up.slots| < MAX_U32 && c <= r.committed
    requires n <= r.resident
    ensures Shares(r, va, r.pages, up, c, n)
  {
    assert Entries(r.pages) == {} && Entries(up) == {};
    assert Committed({}) == {};
  }

  lemma StartSharing(chains: Chains, id: nat, pm: PageMap, x: nat, up: PageMap)
    requires id != x && Ok(pm) && Exact(chains, id, pm) && Exact(chains, x, NO_PAGES) && up.count == 0
    ensures Sharing(chains, id, pm, x, up, Entries(pm)) && Exact(chains, x, up)
  {
    assert Entries(up) == {};
    forall f: nat, i: nat {:trigger Linked(chains, f, Ref(x, i))}
      ensures Linked(chains, f, Ref(x, i)) <==> Wants(up, i, f)
    {
      assert !Wants(NO_PAGES, i, f);
    }
    UniquePages(pm);
  }

  lemma NoPagesEmpty(chains: Chains, x: nat, pm: PageMap)
    requires Exact(chains, x, pm) && Entries(pm) == {}
    ensures Exact(chains, x, NO_PAGES)
  {
    forall f: nat, i: nat {:trigger Linked(chains, f, Ref(x, i))}
      ensures Linked(chains, f, Ref(x, i)) <==> Wants(NO_PAGES, i, f)
    {
      if Wants(pm, i, f) {
        EntriesHave(pm, i);
      }
    }
  }

  lemma OkOf(order: seq<nat>, regions: Regions, chains: Chains, id: nat)
    requires SpaceOk(order, regions, chains) && id in regions
    ensures RegionOk(regions[id]) && Exact(chains, id, regions[id].pages) && Ok(regions[id].pages)
    ensures |regions[id].pages.slots| < MAX_U32 && regions[id].start < regions[id].end
    ensures regions[id].pages.count <= |regions[id].pages.slots|
  {
    assert RegionOk(regions[id]);
  }

  class Space {
    const rmap: ReverseMap
    const maxRegions: nat
    const key: nat

    var tree: Tree
    var regions: Regions
    var totalMapped: nat
    var totalCommitted: nat
    var totalResident: nat
    var regionCount: nat
    var commitLimit: nat

    /** Pages charged to the budget for work still under way. */
    ghost var inFlight: nat

    ghost predicate Accounts()
      reads this
    {
      && Knows(InOrder(tree), regions) && regionCount == |InOrder(tree)|
      && inFlight <= totalCommitted <= commitLimit
      && Total(InOrder(tree), regions) == Totals(totalMapped, totalCommitted - inFlight, totalResident)
    }

    ghost predicate Valid()
      reads this, rmap
    {
      rmap.Valid() && SpaceOk(InOrder(tree), regions, rmap.chains) && Accounts()
    }

    /** vm_space_init */
    constructor (rmap: ReverseMap, maxRegions: nat, key: nat, commitLimit: nat)
      requires rmap.Valid()
      ensures Valid() && this.rmap == rmap && regions == map[] && inFlight == 0 && this.commitLimit == commitLimit
      ensures this.maxRegions == maxRegions && this.key == key && regionCount == 0
    {
      this.rmap, this.maxRegions, this.key, this.commitLimit := rmap, maxRegions, key, commitLimit;
      tree, regions, inFlight := Leaf, map[], 0;
      totalMapped, totalCommitted, totalResident, regionCount := 0, 0, 0, 0;
    }

    /** Valid, taken apart and put together. */
    lemma Parts()
      requires Valid()
      ensures rmap.Valid() && SpaceOk(InOrder(tree), regions, rmap.chains)
      ensures Knows(InOrder(tree), regions) && regionCount == |InOrder(tree)|
      ensures inFlight <= totalCommitted <= commitLimit
      ensures Total(InOrder(tree), regions) == Totals(totalMapped, totalCommitted - inFlight, totalResident)
    {
    }

    lemma Whole()
      requires rmap.Valid() && SpaceOk(InOrder(tree), regions, rmap.chains)
      requires Knows(InOrder(tree), regions) && regionCount == |InOrder(tree)|
      requires inFlight <= totalCommitted <= commitLimit
      requires Total(InOrder(tree), regions) == Totals(totalMapped, totalCommitted - inFlight, totalResident)
      ensures Valid()
    {
    }

    // ---- splitting --------------------------------------------------------------------------

    /** Slots and shares for the halves; memory tells whether the slot array of the upper half can be had. */
    method DividePages(id: nat, x: nat, va: nat, memory: bool) returns (ok: bool, lo: PageMap, up: PageMap, c: nat,
                       n: nat)
      requires Valid() && id in regions && x !in regions && Exact(rmap.chains, x, NO_PAGES)
      requires regions[id].start < va < regions[id].end && IsPageAligned(va)
      modifies rmap
      ensures rmap.Valid() && OthersSame(old(rmap.chains), rmap.chains, id, x)
      ensures !ok ==> rmap.chains == old(rmap.chains)
      ensures ok ==> Shares(regions[id], va, lo, up, c, n) && Exact(rmap.chains, id, lo) && Exact(rmap.chains, x, up)
      ensures ok ==> lo.count <= regions[id].pages.count && up.count <= regions[id].pages.count
      ensures memory && regions[id].pages.count <= MAX_U32 / 2 ==> ok
    {
      MaxU32();
      hide *;
      Parts();
      var r := regions[id];
      OkOf(InOrder(tree), regions, rmap.chains, id);
      OthersRefl(rmap.chains, id, x);
      EmptyOk();
      c, n, lo := 0, 0, r.pages;
      up, ok := ReserveCapacity(NO_PAGES, r.pages.count, memory);
      if !ok {
        return;
      }
      StartSharing(rmap.chains, id, r.pages, x, up);
      if |r.pages.slots| != 0 {
        lo, up, c, n := MoveUpper(rmap, id, r.pages, x, up, va);
        SharingOk(rmap.chains, id, lo, x, up, Entries(r.pages));
        IsDivided(r.pages, lo, up, va);
        CountedShares(r, va, lo, up);
      } else {
        PartOfTotal(r, va);
        var total, part := PageCount(r.start, r.end), PageCount(va, r.end);
        c, n := Share(r.committed, part, total), Share(r.resident, part, total);
        ProportionalShares(r, va, up, c, n);
      }
    }

    /** vm_split; resources tells whether the new region and its objects can be had. */
    method Split(id: nat, va: nat, x: nat, resources: bool, memory: bool) returns (v: Verdict)
      requires Valid() && id in regions && x !in regions && Exact(rmap.chains, x, NO_PAGES)
      modifies this`tree, this`regions, this`regionCount, rmap
      ensures Valid() && SameView(old(regions), regions)
      ensures v.Refused? ==> unchanged(this) && rmap.chains == old(rmap.chains)
      ensures v.Refused? ==> v == Refused(SplitError(old(regions)[id], va))
      ensures v.Refused? && SplitError(old(regions)[id], va) == OutOfMemory ==>
                !(old(regionCount) < maxRegions && resources && memory && SmallMap(old(regions)[id]))
      ensures v.Granted? ==>
                SplitError(old(regions)[id], va) == OutOfMemory && old(regionCount) < maxRegions && resources
      ensures v.Granted? && SmallMap(old(regions)[id]) ==>
                id in regions && x in regions && SmallMap(regions[id]) && SmallMap(regions[x])
      ensures v.Granted? ==>
                && id in regions && x in regions && regions == old(regions)[id := regions[id]][x := regions[x]]
                && SplitInto(old(regions)[id], va, regions[id], regions[x])
                && OthersSame(old(rmap.chains), rmap.chains, id, x)
                && regionCount == old(regionCount) + 1
                && Behind(old(InOrder(tree)), InOrder(tree), id, x)
    {
      SplitErrorIs(regions[id], va);
      hide *;
      Parts();
      SameViewRefl(regions);
      var r := regions[id];
      if va <= r.start || va >= r.end {
        return Refused(InvalidArg);
      }
      if !IsPageAligned(va) {
        return Refused(AlignmentError);
      }
      if regionCount >= maxRegions || !resources {
        return Refused(OutOfMemory);
      }
      ghost var order, before := InOrder(tree), rmap.chains;
      OkOf(order, regions, before, id);
      NotBlockedInside(order, regions, before, id, va);
      Listed(order, regions, before, id);
      var place := PlanInsert(tree, SpansOf(regions), va, Some(id));
      // a split never overlaps another region
      assert place.Some?;
      var k := place.value;
      PositionOf(order, regions, before, id, va, k);
      PlacedBound(order, SpansOf(regions), va, Some(id), k);
      v := SplitAt(id, va, x, k, memory);
    }

    /** The halves of region id, once the place k of the upper one is known. */
    method SplitAt(id: nat, va: nat, x: nat, k: nat, memory: bool) returns (v: Verdict)
      requires Valid() && id in regions && x !in regions && Exact(rmap.chains, x, NO_PAGES)
      requires regions[id].start < va < regions[id].end && IsPageAligned(va)
      requires 0 < k <= |InOrder(tree)| && InOrder(tree)[k - 1] == id
      requires forall i | 0 <= i < |InOrder(tree)| && i != k - 1 :: InOrder(tree)[i] != id
      modifies this`tree, this`regions, this`regionCount, rmap
      ensures Valid() && SameView(old(regions), regions)
      ensures v.Refused? ==> unchanged(this) && rmap.chains == old(rmap.chains) && v == Refused(OutOfMemory)
      ensures v.Refused? ==> !(memory && SmallMap(old(regions)[id]))
      ensures v.Granted? ==>
                && id in regions && x in regions && regions == old(regions)[id := regions[id]][x := regions[x]]
                && (SmallMap(old(regions)[id]) ==> SmallMap(regions[id]) && SmallMap(regions[x]))
                && SplitInto(old(regions)[id], va, regions[id], regions[x])
                && OthersSame(old(rmap.chains), rmap.chains, id, x) && regionCount == old(regionCount) + 1
                && Behind(old(InOrder(tree)), InOrder(tree), id, x)
    {
      SmallMapIs(regions[id]);
      hide *;
      Parts();
      SameViewRefl(regions);
      var r := regions[id];
      ghost var order, before := InOrder(tree), rmap.chains;
      var ok, lo, up, c, n := DividePages(id, x, va, memory);
      if !ok {
        Whole();
        return Refused(OutOfMemory);
      }
      SharesSplit(r, va, lo, up, c, n);
      var l, u := Lower(r, va, c, n, lo), Upper(r, va, c, n, up);
      HalvesPages(r, va, c, n, lo, up);
      SmallMapIs(l);
      SmallMapIs(u);
      SplitKeeps(order, regions, before, rmap.chains, id, x, va, l, u, k);
      LinkUpper(k, id, x, l, u);
      IsBehind(order, k, id, x);
      return Granted;
    }

    /** The upper half goes behind the lower one. */
    method LinkUpper(k: nat, id: nat, x: nat, l: Region, u: Region)
      requires k <= |InOrder(tree)| && rmap.Valid() && regionCount == |InOrder(tree)|
      requires inFlight <= totalCommitted <= commitLimit
      requires var order', regions' := InOrder(tree)[..k] + [x] + InOrder(tree)[k..], regions[id := l][x := u];
               && SpaceOk(order', regions', rmap.chains) && Knows(order', regions')
               && Total(order', regions') == Totals(totalMapped, totalCommitted - inFlight, totalResident)
      modifies this`tree, this`regions, this`regionCount
      ensures Valid() && InOrder(tree) == old(InOrder(tree))[..k] + [x] + old(InOrder(tree))[k..]
      ensures regions == old(regions)[id := l][x := u] && regionCount == old(regionCount) + 1
    {
      hide *;
      SizeIs(tree);
      InsertOrder(tree, k, x);
      InsertLength(InOrder(tree), k, x);
      tree := Insert(tree, k, x);
      regions := regions[id := l][x := u];
      regionCount := regionCount + 1;
      Whole();
    }

    /** vm_join_split: undoes a split of r at va that nothing has touched since. */
    method JoinSplit(id: nat, x: nat, ghost r: Region, ghost va: nat)
      requires Valid() && id in regions && x in regions && SplitInto(r, va, regions[id], regions[x])
      modifies this`tree, this`regions, this`regionCount, rmap
      ensures Valid() && regionCount == old(regionCount) - 1 && id != x && x !in regions
      ensures id in regions && regions == (old(regions) - {x})[id := regions[id]]
      ensures regions[id] == r.(pages := regions[id].pages) && Entries(regions[id].pages) == Entries(r.pages)
      ensures OthersSame(old(rmap.chains), rmap.chains, id, x) && Exact(rmap.chains, x, NO_PAGES)
    {
      hide *;
      Parts();
      ghost var order, before := InOrder(tree), rmap.chains;
      var l, u := regions[id], regions[x];
      SplitFacts(r, va, l, u);
      KnowsOrder(order, regions, before);
      var k := CountBelow(tree, SpansOf(regions), u.start);
      PlaceOf(order, regions, before, x, k);
      Adjacent(order, regions, before, id, x, k);
      OkOf(order, regions, before, id);
      OkOf(order, regions, before, x);
      ResharePages(before, r, va, id, l, x, u);
      var back, rest := MoveBack(rmap, id, l.pages, x, u.pages, Entries(r.pages));
      SharingOk(rmap.chains, id, back, x, rest, Entries(r.pages));
      NoPagesEmpty(rmap.chains, x, rest);
      JoinInverts(r, va, u.committed, u.resident, l.pages, u.pages, back);
      BackOk(r, back);
      JoinKeeps(order, regions, before, rmap.chains, id, x, k, r.(pages := back));
      SizeIs(tree);
      EraseLength(order, k);
      tree := Erase(tree, k);
      var joined := Joined(l, u, back);
      JoinedPages(l, u, back);
      regions := (regions - {x})[id := joined];
      regionCount := regionCount - 1;
      Whole();
    }

    /** The split at the lower end of a range, where a region reaches across it. */
    method CarveLow(lo: nat, x: nat, resources: bool, memory: bool) returns (v: Verdict, low: Option<nat>)
      requires Valid() && IsPageAligned(lo) && x !in regions && Exact(rmap.chains, x, NO_PAGES)
      modifies this`tree, this`regions, this`regionCount, rmap
      ensures Valid() && SameView(old(regions), regions)
      ensures v.Refused? || low.None? ==> unchanged(this) && rmap.chains == old(rmap.chains)
      ensures v.Refused? ==>
                v == Refused(OutOfMemory) && !(old(regionCount) < maxRegions && resources && memory
                    && SmallMaps(old(regions)))
      ensures v.Granted? && SmallMaps(old(regions)) ==> SmallMaps(regions)
      ensures v.Granted? && !CutAt(old(regions), lo) ==> old(regionCount) < maxRegions && resources
      ensures regionCount <= old(regionCount) + 1
      ensures v.Granted? ==> CutAt(regions, lo) && AllParts(old(regions), regions, lo, VM_USER_END)
      ensures v.Granted? && low.Some? ==>
                && low.value in old(regions) && low.value in regions && x in regions
                && regionCount == old(regionCount) + 1
                && SplitInto(old(regions)[low.value], lo, regions[low.value], regions[x])
                && regions == old(regions)[low.value := regions[low.value]][x := regions[x]]
                && OthersSame(old(rmap.chains), rmap.chains, low.value, x)
    {
      hide *;
      Parts();
      ghost var order, chains := InOrder(tree), rmap.chains;
      KnowsOrder(order, regions, chains);
      SameViewRefl(regions);
      var found := Find(tree, SpansOf(regions), lo);
      if found.Some? {
        FoundRegion(order, regions, chains, found.value, lo);
        SmallMapAt(regions, found.value);
        SplitErrorIs(regions[found.value], lo);
        if regions[found.value].start < lo {
          v := Split(found.value, lo, x, resources, memory);
          low := found;
          if v.Granted? {
            SmallMapsSplit(old(regions), found.value, x, regions[found.value], regions[x]);
            LowCut(order, old(regions), chains, found.value, x, lo, regions[found.value], regions[x]);
          }
          return;
        }
        FoundOnly(order, regions, chains, found.value, lo);
      } else {
        NoneFound(order, regions, chains, lo);
      }
      NoLowCut(order, regions, chains, lo);
      return Granted, None;
    }

    /** The split at the upper end. */
    method CarveHigh(lo: nat, hi: nat, y: nat, resources: bool, memory: bool,
                     ghost before: Regions) returns (v: Verdict)
      requires Valid() && lo < hi && IsPageAligned(hi) && y !in regions && Exact(rmap.chains, y, NO_PAGES)
      requires CutAt(regions, lo) && AllParts(before, regions, lo, VM_USER_END)
      requires forall o | o in before :: before[o].end <= VM_USER_END
      modifies this`tree, this`regions, this`regionCount, rmap
      ensures Valid() && SameView(old(regions), regions)
      ensures v.Refused? ==> unchanged(this) && rmap.chains == old(rmap.chains)
      ensures v.Refused? ==>
                v == Refused(OutOfMemory) && !(old(regionCount) < maxRegions && resources && memory
                    && SmallMaps(old(regions)))
      ensures v.Granted? ==> CutAt(regions, lo) && CutAt(regions, hi) && AllParts(before, regions, lo, hi)
    {
      hide *;
      Parts();
      ghost var order, chains := InOrder(tree), rmap.chains;
      KnowsOrder(order, regions, chains);
      SameViewRefl(regions);
      PageFits(hi);
      HighRegion(order, regions, chains, hi);
      var high := Find(tree, SpansOf(regions), hi - PAGE_SIZE);
      if high.Some? {
        FoundRegion(order, regions, chains, high.value, hi - PAGE_SIZE);
        FoundOnly(order, regions, chains, high.value, hi - PAGE_SIZE);
        SmallMapAt(regions, high.value);
        SplitErrorIs(regions[high.value], hi);
        if regions[high.value].end > hi {
          v := Split(high.value, hi, y, resources, memory);
          if v.Granted? {
            HighCut(before, order, old(regions), chains, high.value, y, lo, hi, regions[high.value], regions[y]);
          }
          return;
        }
      } else {
        NoneFound(order, regions, chains, hi - PAGE_SIZE);
      }
      NoHighCut(before, order, regions, chains, lo, hi);
      return Granted;
    }

    /** The splits of vm_unmap and vm_protect at both ends of a range; a failure of the second undoes the first. */
    method Carve(lo: nat, hi: nat, x: nat, y: nat, resources: bool, memory: bool, resources': bool,
                 memory': bool) returns (v: Verdict)
      requires Valid() && lo < hi && IsPageAligned(lo) && IsPageAligned(hi)
      requires x != y && x !in regions && y !in regions && Exact(rmap.chains, x, NO_PAGES)
      requires Exact(rmap.chains, y, NO_PAGES)
      modifies this`tree, this`regions, this`regionCount, rmap
      ensures Valid() && SameView(old(regions), regions)
      ensures v.Refused? ==> SameRegions(old(regions), regions) && regionCount == old(regionCount)
      ensures v.Refused? ==> v == Refused(OutOfMemory)
      ensures (old(regionCount) + 2 <= maxRegions && resources && memory && resources' && memory'
               && SmallMaps(old(regions))) ==>
                v.Granted?
      ensures v.Granted? ==> CutAt(regions, lo) && CutAt(regions, hi) && AllParts(old(regions), regions, lo, hi)
    {
      hide *;
      Parts();
      ghost var regions0 := regions;
      SameRegionsRefl(regions);
      UserBound(InOrder(tree), regions, rmap.chains);
      var low: Option<nat>;
      v, low := CarveLow(lo, x, resources, memory);
      if v.Refused? {
        return;
      }
      if low.Some? {
        OtherExact(old(rmap.chains), rmap.chains, y, NO_PAGES, low.value, x);
      }
      ghost var regions1 := regions;
      v := CarveHigh(lo, hi, y, resources', memory', regions0);
      if v.Refused? {
        if low.Some? {
          JoinSplit(low.value, x, regions0[low.value], lo);
          Undone(regions0, low.value, x, regions1[low.value], regions1[x], regions[low.value]);
          SameRegionsView(regions0, low.value, regions[low.value].pages);
        }
        return;
      }
      SameViewTrans(regions0, regions1, regions);
    }

    // ---- removing ----------------------------------------------------------------------------

    /** The region at a place in address order goes, with its slots, links and share of the totals. */
    method RemoveAt(k: nat)
      requires Valid() && k < |InOrder(tree)|
      modifies this`tree, this`regions, this`regionCount, this`totalMapped, this`totalCommitted, this`totalResident,
          rmap
      ensures Valid() && InOrder(tree) == old(InOrder(tree))[..k] + old(InOrder(tree))[k + 1..]
      ensures regions == old(regions) - {old(InOrder(tree))[k]}
      ensures Exact(rmap.chains, old(InOrder(tree))[k], NO_PAGES)
    {
      hide *;
      Parts();
      var order := InOrder(tree);
      ghost var before := rmap.chains;
      KnowsIt(order, regions, k);
      var id := order[k];
      OkOf(order, regions, before, id);
      var r := regions[id];
      Teardown(rmap, id, r.pages);
      EraseKeeps(order, regions, before, rmap.chains, k);
      SizeIs(tree);
      EraseLength(order, k);
      ghost var after := Total(order[..k] + order[k + 1..], regions - {id});
      PlusIs(after, r);
      totalCommitted := totalCommitted - r.committed;
      totalResident := totalResident - r.resident;
      totalMapped := totalMapped - (r.end - r.start);
      tree := Erase(tree, k);
      regions := regions - {id};
      regionCount := regionCount - 1;
      Whole();
    }

    /** The authorization loop that vm_unmap and vm_protect run before they change anything. */
    method FirstPass(lo: nat, hi: nat, f: nat, wish: Option<Prot>) returns (v: Verdict)
      requires Valid() && lo < hi && Front(InOrder(tree), regions, lo, hi, f)
      ensures v.Granted? ==> AllGranted(key, regions, lo, hi, wish)
      ensures v.Refused? ==> !AllGranted(key, regions, lo, hi, wish)
    {
      hide *;
      Parts();
      var order := InOrder(tree);
      FrontBound(order, regions, lo, hi, f);
      FrontEnd(order, regions, lo, hi, f);
      PassStart(key, order, regions, lo, hi, wish, f);
      var i := f;
      while i < |order| && regions[order[i]].start < hi
        invariant f <= i <= |order| && Passed(key, order, regions, lo, hi, wish, f, i)
        invariant i < |order| ==> order[i] in regions
      {
        var r := regions[order[i]];
        v := Authorize(ClipRequest(key, r, WishedFor(r, wish), lo, hi));
        PassStep(key, order, regions, rmap.chains, lo, hi, wish, f, i);
        if v.Refused? {
          return;
        }
        i := i + 1;
        if i < |order| {
          KnowsIt(order, regions, i);
        }
      }
      PassEnd(key, order, regions, rmap.chains, lo, hi, wish, f, i);
      v := Granted;
    }

    /** The removal loop of vm_unmap; the fatal check in it cannot fire. */
    method RemoveRange(lo: nat, hi: nat, ghost before: Regions)
      requires Valid() && lo < hi && CutAt(regions, lo) && CutAt(regions, hi)
      requires AllGranted(key, before, lo, hi, None) && AllParts(before, regions, lo, hi)
      modifies this`tree, this`regions, this`regionCount, this`totalMapped, this`totalCommitted, this`totalResident,
          rmap
      ensures Valid() && Removed(old(regions), regions, lo, hi)
    {
      hide *;
      Parts();
      KnowsOrder(InOrder(tree), regions, rmap.chains);
      var f := FirstOverlap(tree, SpansOf(regions), lo, hi);
      SpansKnow(InOrder(tree), regions);
      FrontAt(InOrder(tree), regions, rmap.chains, lo, hi, f);
      SizeIs(tree);
      FrontBound(InOrder(tree), regions, lo, hi, f);
      DropStart(regions, lo, hi);
      while f < Size(tree) && regions[InOrder(tree)[f]].start < hi
        invariant Valid() && Front(InOrder(tree), regions, lo, hi, f) && Dropped(old(regions), regions, lo, hi)
        invariant f <= Size(tree) == |InOrder(tree)| && (f < Size(tree) ==> InOrder(tree)[f] in regions)
        decreases Size(tree)
      {
        Parts();
        ghost var order, regions1 := InOrder(tree), regions;
        FrontStep(order, regions, rmap.chains, lo, hi, f);
        var r := regions[InOrder(tree)[f]];
        DropParts(before, old(regions), regions, lo, hi);
        SecondPass(key, before, regions, lo, hi, None, order[f]);
        WishNone(r);
        // the authorization was granted before
        assert Authorize(WholeRequest(key, r, r.attrs.prot)).Granted?;
        FrontErase(order, regions, rmap.chains, lo, hi, f);
        DropOne(old(regions), regions, lo, hi, order[f]);
        RemoveAt(f);
        EraseLength(order, f);
        SizeIs(tree);
        FrontBound(InOrder(tree), regions, lo, hi, f);
      }
      Parts();
      FrontDone(InOrder(tree), regions, rmap.chains, lo, hi, f);
      DropEnd(old(regions), regions, lo, hi);
    }

    /** vm_unmap: exactly [va, va + size) goes, or nothing changes. */
    method Unmap(va: nat, size: nat, x: nat, y: nat, resources: bool, memory: bool, resources': bool,
                 memory': bool) returns (v: Verdict)
      requires Valid() && va < TWO64 && size < TWO64
      requires x != y && x !in regions && y !in regions && Exact(rmap.chains, x, NO_PAGES)
      requires Exact(rmap.chains, y, NO_PAGES)
      modifies this`tree, this`regions, this`regionCount, this`totalMapped, this`totalCommitted, this`totalResident,
          rmap
      ensures Valid()
      ensures v.Granted? ==> RangeOk(va, size) && AllGranted(key, old(regions), va, va + size, None)
      ensures RangeOk(va, size) && AllGranted(key, old(regions), va, va + size, None) && v.Refused? ==>
                v == Refused(OutOfMemory)
      ensures RangeOk(va, size) && AllGranted(key, old(regions), va, va + size, None) && v.Refused? ==>
                !(old(regionCount) + 2 <= maxRegions && resources && memory && resources' && memory'
                    && SmallMaps(old(regions)))
      ensures v.Granted? ==> Removed(old(regions), regions, va, va + size)
      ensures v.Refused? ==>
                && SameRegions(old(regions), regions) && SameView(old(regions), regions)
                && regionCount == old(regionCount)
                && totalMapped == old(totalMapped) && totalCommitted == old(totalCommitted)
                && totalResident == old(totalResident)
    {
      RangeOkIs(va, size);
      hide *;
      SameRegionsRefl(regions);
      if size == 0 || !IsPageAligned(size) {
        return Refused(InvalidArg);
      }
      if !IsPageAligned(va) {
        return Refused(AlignmentError);
      }
      if va + size >= TWO64 {
        return Refused(InvalidAddress);
      }
      var hi := va + size;
      AlignedSum(va, size);
      v := ValidateRange(va, hi);
      if v.Refused? {
        return;
      }
      Parts();
      KnowsOrder(InOrder(tree), regions, rmap.chains);
      var f := FirstOverlap(tree, SpansOf(regions), va, hi);
      SpansKnow(InOrder(tree), regions);
      FrontAt(InOrder(tree), regions, rmap.chains, va, hi, f);
      SizeIs(tree);
      if f == Size(tree) {
        FrontEnd(InOrder(tree), regions, va, hi, f);
        FrontDone(InOrder(tree), regions, rmap.chains, va, hi, f);
        DropStart(regions, va, hi);
        DropEnd(regions, regions, va, hi);
        NothingAsked(key, regions, va, hi, None);
        return Granted;
      }
      v := FirstPass(va, hi, f, None);
      if v.Refused? {
        return;
      }
      ghost var before := regions;
      v := Carve(va, hi, x, y, resources, memory, resources', memory');
      if v.Refused? {
        return;
      }
      ghost var carved := regions;
      RemoveRange(va, hi, before);
      RemovedFromSame(before, carved, regions, va, hi);
    }

    // ---- mapping ------------------------------------------------------------------------------

    /** A new region without pages linked at its place. */
    method Link(k: nat, x: nat, r: Region)
      requires Valid() && x !in regions && RegionOk(r) && r.pages == NO_PAGES && Exact(rmap.chains, x, NO_PAGES)
      requires Placed(InOrder(tree), SpansOf(regions), r.start, None, k, k)
      requires forall id | id in regions :: !(r.start < regions[id].start < r.end)
      requires totalCommitted + r.committed <= commitLimit
      modifies this`tree, this`regions, this`regionCount, this`totalMapped, this`totalCommitted, this`totalResident
      ensures Valid() && regions == old(regions)[x := r] && regionCount == old(regionCount) + 1
      ensures totalMapped == old(totalMapped) + (r.end - r.start)
      ensures totalCommitted == old(totalCommitted) + r.committed && totalResident == old(totalResident) + r.resident
    {
      hide *;
      Parts();
      PlacedBound(InOrder(tree), SpansOf(regions), r.start, None, k);
      InsertKeeps(InOrder(tree), regions, rmap.chains, k, x, r);
      RegionBounds(r);
      PlusIs(Total(InOrder(tree), regions), r);
      SizeIs(tree);
      InsertOrder(tree, k, x);
      InsertLength(InOrder(tree), k, x);
      totalMapped := totalMapped + (r.end - r.start);
      totalCommitted := totalCommitted + r.committed;
      totalResident := totalResident + r.resident;
      tree := Insert(tree, k, x);
      regions := regions[x := r];
      regionCount := regionCount + 1;
      Whole();
    }

    /** vm_map: a free range is found, authorized and mapped; the insertion cannot fail. */
    method Map(size: nat, attrs: Attrs, x: nat, resources: bool) returns (v: Verdict, va: nat)
      requires Valid() && size < TWO64 && x !in regions && Exact(rmap.chains, x, NO_PAGES)
      modifies this`tree, this`regions, this`regionCount, this`totalMapped, this`totalCommitted, this`totalResident
      ensures Valid()
      ensures v.Refused? ==> unchanged(this)
      ensures v.Granted? <==>
                && size > 0 && IsPageAligned(size) && old(regionCount) < maxRegions && resources
                && Grantable(key, attrs.prot)
                && exists a: nat :: Free(old(regions), a, size)
      ensures v.Granted? ==>
                && regions == old(regions)[x := NewRegion(va, size, attrs, 0, 0)]
                && Free(old(regions), va, size) && forall a: nat | Free(old(regions), a, size) :: a <= va
    {
      hide *;
      va := 0;
      if size == 0 || !IsPageAligned(size) {
        return Refused(InvalidArg), 0;
      }
      if regionCount >= maxRegions {
        return Refused(OutOfMemory), 0;
      }
      Parts();
      ghost var order := InOrder(tree);
      KnowsOrder(order, regions, rmap.chains);
      BaseFits();
      ghost var k0: nat;
      var gap: VmGap.GapResult;
      gap, k0 := VmGap.FindGap(tree, SpansOf(regions), VM_MMAP_BASE, size, PAGE_SIZE);
      FitsAreFree(order, regions, rmap.chains, size);
      if !gap.Gap? {
        return Refused(OutOfMemory), 0;
      }
      va := gap.va;
      GapIsPaged(order, regions, rmap.chains, size);
      FreeIsGranted(regions, key, va, size, attrs);
      v := Authorize(BuildRequest(key, va, size, attrs.prot, attrs.flags, attrs.backing, 0, 0));
      if v.Refused? {
        return;
      }
      if !resources {
        return Refused(OutOfMemory), va;
      }
      GrantedNoWrap(key, va, size, attrs);
      GapIsFree(order, regions, rmap.chains, size, attrs, va);
      var place := PlanInsert(tree, SpansOf(regions), va, None);
      FreeNotBlocked(order, regions, rmap.chains, va, size);
      assert place.Some?;
      Link(place.value, x, NewRegion(va, size, attrs, 0, 0));
    }

    /**
      vm_map_fixed; resources tells whether a region object can be had.  It tests the start of the range
      only, so it keeps regions apart exactly when none begins inside the range.
     */
    method MapFixed(va: nat, size: nat, attrs: Attrs, phys: nat, x: nat, resources: bool) returns (v: Verdict)
      requires Valid() && size < TWO64 && va < TWO64 && x !in regions && Exact(rmap.chains, x, NO_PAGES)
      modifies this`tree, this`regions, this`regionCount, this`totalMapped, this`totalCommitted, this`totalResident
      ensures v.Refused? ==> unchanged(this)
      ensures v.Granted? <==>
                && size > 0 && IsPageAligned(size) && IsPageAligned(va) && VM_USER_START <= va
                && va + size <= VM_USER_END
                && Grantable(key, attrs.prot) && (phys == 0 || IsPageAligned(phys)) && old(regionCount) < maxRegions
                && resources
                && (attrs.backing == Physical && phys != 0 ==> old(totalCommitted) + size / PAGE_SIZE <= commitLimit)
                && !Held(old(regions), va)
      ensures v.Granted? ==>
                regions == old(regions)[x := NewRegion(va, size, attrs, phys, if attrs.backing == Physical
                    && phys != 0 then size / PAGE_SIZE else 0)]
      ensures v.Granted? ==>
                && regionCount == old(regionCount) + 1 && totalMapped == old(totalMapped) + size
                && totalCommitted - old(totalCommitted) == totalResident - old(totalResident)
                     == if attrs.backing == Physical && phys != 0 then size / PAGE_SIZE else 0
      ensures v.Granted? ==> (Ordered(InOrder(tree), SpansOf(regions)) <==> !BeginsInside(old(regions), va, size))
      ensures v.Granted? && !BeginsInside(old(regions), va, size) ==> Valid()
      ensures totalCommitted <= commitLimit
    {
      hide *;
      Parts();
      if size == 0 || !IsPageAligned(size) {
        return Refused(InvalidArg);
      }
      if !IsPageAligned(va) {
        return Refused(AlignmentError);
      }
      if va < VM_USER_START || va + size > VM_USER_END {
        return Refused(InvalidAddress);
      }
      FixedIsGranted(key, va, size, attrs, phys);
      if attrs.prot.write && attrs.prot.exec {
        return Refused(CapabilityInvalid);
      }
      v := Authorize(BuildRequest(key, va, size, attrs.prot, attrs.flags, attrs.backing, phys, 0));
      if v.Refused? {
        return;
      }
      if regionCount >= maxRegions {
        return Refused(OutOfMemory);
      }
      PageIsPositive();
      var n := if attrs.backing == Physical && phys != 0 then size / PAGE_SIZE else 0;
      AdmitsIs(totalCommitted, commitLimit, n);
      if n > 0 && !Admits(totalCommitted, commitLimit, n) {
        return Refused(OutOfMemory);
      }
      if !resources {
        return Refused(OutOfMemory);
      }
      ghost var order, regions0 := InOrder(tree), regions;
      KnowsOrder(order, regions, rmap.chains);
      BlockedIsHeld(order, regions, rmap.chains, va);
      var place := PlanInsert(tree, SpansOf(regions), va, None);
      if place.None? {
        return Refused(RegionOverlap);
      }
      NewRegionOk(va, size, attrs, phys, n);
      LinkFixed(place.value, x, NewRegion(va, size, attrs, phys, n));
    }

    /** The new region linked where its start belongs, whatever it overlaps. */
    method LinkFixed(k: nat, x: nat, r: Region)
      requires Valid() && x !in regions && RegionOk(r) && r.pages == NO_PAGES && Exact(rmap.chains, x, NO_PAGES)
      requires r.start < r.end
      requires Placed(InOrder(tree), SpansOf(regions), r.start, None, k, k)
      requires totalCommitted + r.committed <= commitLimit
      modifies this`tree, this`regions, this`regionCount, this`totalMapped, this`totalCommitted, this`totalResident
      ensures regions == old(regions)[x := r] && regionCount == old(regionCount) + 1 && totalCommitted <= commitLimit
      ensures totalMapped == old(totalMapped) + (r.end - r.start) && totalCommitted == old(totalCommitted) + r.committed
      ensures totalResident == old(totalResident) + r.resident
      ensures Ordered(InOrder(tree), SpansOf(regions)) <==> !BeginsInside(old(regions), r.start, r.end - r.start)
      ensures !BeginsInside(old(regions), r.start, r.end - r.start) ==> Valid()
    {
      hide *;
      Parts();
      ghost var order := InOrder(tree);
      ghost var va, size := r.start, r.end - r.start;
      FixedExactly(order, regions, rmap.chains, k, x, r, va, size);
      PlacedBound(order, SpansOf(regions), va, None, k);
      ghost var apart := !BeginsInside(regions, va, size);
      if apart {
        NoneBegins(regions, va, size, r);
        InsertKeeps(order, regions, rmap.chains, k, x, r);
        PlusIs(Total(order, regions), r);
      }
      SizeIs(tree);
      InsertOrder(tree, k, x);
      InsertLength(order, k, x);
      tree := Insert(tree, k, x);
      regions := regions[x := r];
      regionCount, totalMapped := regionCount + 1, totalMapped + (r.end - r.start);
      totalCommitted, totalResident := totalCommitted + r.committed, totalResident + r.resident;
      if apart {
        Whole();
      }
    }

    // ---- the commit budget --------------------------------------------------------------------

    /** vm_space_try_charge_commit */
    method Charge(pages: nat) returns (ok: bool)
      requires Valid()
      modifies this`totalCommitted, this`inFlight
      ensures Valid() && (ok <==> old(totalCommitted) + pages <= commitLimit)
      ensures inFlight == old(inFlight) + if ok then pages else 0
    {
      if !Admits(totalCommitted, commitLimit, pages) {
        return false;
      }
      totalCommitted, inFlight := totalCommitted + pages, inFlight + pages;
      return true;
    }

    /** vm_space_uncharge_commit: with a charge to return, its fatal check cannot fire. */
    method Uncharge(pages: nat)
      requires Valid() && pages <= inFlight
      modifies this`totalCommitted, this`inFlight
      ensures Valid() && inFlight == old(inFlight) - pages && totalCommitted == old(totalCommitted) - pages
    {
      totalCommitted, inFlight := totalCommitted - pages, inFlight - pages;
    }

    /** vm_space_set_commit_limit */
    method SetLimit(pages: nat) returns (ok: bool)
      requires Valid()
      modifies this`commitLimit
      ensures Valid() && (ok <==> pages >= totalCommitted) && commitLimit == if ok then pages else old(commitLimit)
    {
      if pages < totalCommitted {
        return false;
      }
      commitLimit := pages;
      return true;
    }
  }

  /** Doubling the capacity of a slot array stays within 32 bits up to this many slots. */
  predicate SmallMap(r: Region) {
    r.pages.count <= MAX_U32 / 2
  }

  lemma SmallMapIs(r: Region)
    ensures SmallMap(r) <==> r.pages.count <= MAX_U32 / 2
  {
  }

  /** Why a split at va is refused; an address fit for one leaves only memory to fail. */
  function SplitError(r: Region, va: nat): Error {
    if va <= r.start || va >= r.end then InvalidArg else if !IsPageAligned(va) then AlignmentError else OutOfMemory
  }

  /** x has been put into the order right after id. */
  ghost predicate Behind(order: seq<nat>, order': seq<nat>, id: nat, x: nat) {
    exists k :: 0 < k <= |order| && order[k - 1] == id && order' == order[..k] + [x] + order[k..]
  }

  lemma IsBehind(order: seq<nat>, k: nat, id: nat, x: nat)
    requires 0 < k <= |order| && order[k - 1] == id
    ensures Behind(order, order[..k] + [x] + order[k..], id, x)
  {
  }

  lemma SplitErrorIs(r: Region, va: nat)
    ensures SplitError(r, va) == if va <= r.start || va >= r.end then InvalidArg
        else if !IsPageAligned(va) then AlignmentError else OutOfMemory
  {
  }

  ghost predicate SmallMaps(regions: Regions) {
    forall id | id in regions :: SmallMap(regions[id])
  }

  lemma SmallMapAt(regions: Regions, id: nat)
    requires id in regions
    ensures SmallMaps(regions) ==> SmallMap(regions[id])
  {
  }

  lemma SmallMapsSplit(regions: Regions, id: nat, x: nat, l: Region, u: Region)
    ensures SmallMaps(regions) && SmallMap(l) && SmallMap(u) ==> SmallMaps(regions[id := l][x := u])
  {
  }

  lemma MaxU32()
    ensures MAX_U32 / 2 <= MAX_U32
  {
  }

  /** What vm_unmap asks of its arguments. */
  predicate RangeOk(va: nat, size: nat) {
    size > 0 && IsPageAligned(size) && IsPageAligned(va) && va + size < TWO64
  }

  lemma RangeOkIs(va: nat, size: nat)
    ensures RangeOk(va, size) <==> size > 0 && IsPageAligned(size) && IsPageAligned(va) && va + size < TWO64
    ensures RangeOk(va, size) ==> ValidateRange(va, va + size).Granted?
  {
    if RangeOk(va, size) {
      AlignedSum(va, size);
    }
  }

  lemma NothingAsked(key: nat, regions: Regions, lo: nat, hi: nat, wish: Option<Prot>)
    requires forall id | id in regions :: !Touches(regions[id], lo, hi)
    ensures AllGranted(key, regions, lo, hi, wish)
  {
  }

  /** vm_commit_admitted */
  predicate Admits(committed: nat, limit: nat, pages: nat) {
    pages <= limit && committed <= limit - pages
  }

  lemma AdmitsIs(committed: nat, limit: nat, pages: nat)
    ensures Admits(committed, limit, pages) <==> committed + pages <= limit
  {
  }

  function NewRegion(va: nat, size: nat, attrs: Attrs, phys: nat, pages: nat): Region {
    Region(va, va + size, attrs, phys, 0, pages, pages, NO_PAGES)
  }

  /** A range in which a mapping may be placed: on a page boundary below the mmap base, and clear of all regions. */
  ghost predicate Free(regions: Regions, va: nat, size: nat) {
    && IsPageAligned(va) && VM_USER_START <= va && va + size <= VM_MMAP_BASE
    && forall id | id in regions :: va + size <= regions[id].start || regions[id].end <= va
  }

  ghost predicate BeginsInside(regions: Regions, va: nat, size: nat) {
    exists id :: id in regions && va < regions[id].start < va + size
  }

  lemma RegionBounds(r: Region)
    requires RegionOk(r)
    ensures r.start < r.end
  {
  }

  lemma PageIsPositive()
    ensures PAGE_SIZE > 0
  {
  }

  lemma BaseFits()
    ensures VM_MMAP_BASE < TWO64
  {
  }

  lemma GapIsPaged(order: seq<nat>, regions: Regions, chains: Chains, size: nat)
    requires SpaceOk(order, regions, chains) && IsPageAligned(size)
    ensures Ordered(order, SpansOf(regions)) && VmGap.Paged(order, SpansOf(regions), VM_MMAP_BASE, size, PAGE_SIZE)
  {
    forall i | 0 <= i < |order| ensures SpansOf(regions)[order[i]].start % PAGE_SIZE == 0
        && VM_USER_START <= SpansOf(regions)[order[i]].start {
      assert order[i] in SpansOf(regions);
      assert RegionOk(regions[order[i]]);
    }
  }

  lemma FitsIsFree(order: seq<nat>, regions: Regions, chains: Chains, size: nat, va: nat)
    requires SpaceOk(order, regions, chains) && Ordered(order, SpansOf(regions))
    ensures VmGap.Fits(order, SpansOf(regions), VM_MMAP_BASE, size, PAGE_SIZE, va) <==> Free(regions, va, size)
  {
    OrderedHas(order, regions);
    if VmGap.Fits(order, SpansOf(regions), VM_MMAP_BASE, size, PAGE_SIZE, va) {
      forall id | id in regions ensures va + size <= regions[id].start || regions[id].end <= va {
        var i :| 0 <= i < |order| && order[i] == id;
        assert SpansOf(regions)[order[i]] == Span(regions[id].start, regions[id].end);
      }
    }
    if Free(regions, va, size) {
      forall i | 0 <= i < |order|
        ensures va + size <= SpansOf(regions)[order[i]].start || SpansOf(regions)[order[i]].end <= va
      {
        assert order[i] in regions;
      }
    }
  }

  lemma FitsAreFree(order: seq<nat>, regions: Regions, chains: Chains, size: nat)
    requires SpaceOk(order, regions, chains) && Ordered(order, SpansOf(regions))
    ensures forall a: nat {:trigger Free(regions, a, size)} ::
              VmGap.Fits(order, SpansOf(regions), VM_MMAP_BASE, size, PAGE_SIZE, a) <==> Free(regions, a, size)
  {
    forall a: nat
      ensures VmGap.Fits(order, SpansOf(regions), VM_MMAP_BASE, size, PAGE_SIZE, a) <==> Free(regions, a, size)
    {
      FitsIsFree(order, regions, chains, size, a);
    }
  }

  /** The contract on its own: no page both writable and executable, and a storage key that exists. */
  predicate Grantable(key: nat, prot: Prot) {
    !(prot.write && prot.exec) && (key == STORAGE_KEY_AUTO || key < STORAGE_KEY_COUNT)
  }

  lemma FreeIsGranted(regions: Regions, key: nat, va: nat, size: nat, attrs: Attrs)
    requires 0 < size < TWO64 && IsPageAligned(size) && va < TWO64
    ensures var v := Authorize(BuildRequest(key, va, size, attrs.prot, attrs.flags, attrs.backing, 0, 0));
            (Free(regions, va, size) ==> (v.Granted? <==> Grantable(key, attrs.prot)))
                && (v.Granted? ==> Grantable(key, attrs.prot))
  {
    AuthorizeExact(key, va, size, attrs.prot, attrs.flags, attrs.backing, 0, 0);
    if IsPageAligned(va) {
      AlignedSum(va, size);
    }
  }

  lemma FixedIsGranted(key: nat, va: nat, size: nat, attrs: Attrs, phys: nat)
    requires 0 < size < TWO64 && IsPageAligned(size) && IsPageAligned(va) && va + size <= VM_USER_END
    ensures Grantable(key, attrs.prot) ==> !(attrs.prot.write && attrs.prot.exec)
    ensures Authorize(BuildRequest(key, va, size, attrs.prot, attrs.flags, attrs.backing, phys, 0)).Granted?
       <==> Grantable(key, attrs.prot) && (phys == 0 || IsPageAligned(phys))
  {
    AuthorizeExact(key, va, size, attrs.prot, attrs.flags, attrs.backing, phys, 0);
    AlignedSum(va, size);
  }

  ghost predicate Held(regions: Regions, va: nat) {
    exists id :: id in regions && regions[id].start <= va < regions[id].end
  }

  lemma BlockedIsHeld(order: seq<nat>, regions: Regions, chains: Chains, va: nat)
    requires SpaceOk(order, regions, chains) && Ordered(order, SpansOf(regions))
    ensures Blocked(order, SpansOf(regions), va, None) <==> Held(regions, va)
  {
    OrderedHas(order, regions);
    if Held(regions, va) {
      var id :| id in regions && regions[id].start <= va < regions[id].end;
      var i :| 0 <= i < |order| && order[i] == id;
      assert In(SpansOf(regions)[order[i]], va);
    }
    if Blocked(order, SpansOf(regions), va, None) {
      var i :| 0 <= i < |order| && In(SpansOf(regions)[order[i]], va);
      assert order[i] in regions;
    }
  }

  lemma GrantedNoWrap(key: nat, va: nat, size: nat, attrs: Attrs)
    requires va < TWO64 && size < TWO64
    requires Authorize(BuildRequest(key, va, size, attrs.prot, attrs.flags, attrs.backing, 0, 0)).Granted?
    ensures va + size < TWO64
  {
    AuthorizeExact(key, va, size, attrs.prot, attrs.flags, attrs.backing, 0, 0);
  }

  lemma GapIsFree(order: seq<nat>, regions: Regions, chains: Chains, size: nat, attrs: Attrs, va: nat)
    requires SpaceOk(order, regions, chains) && Ordered(order, SpansOf(regions)) && IsPageAligned(size)
    requires 0 < size < TWO64
    requires VmGap.Fits(order, SpansOf(regions), VM_MMAP_BASE, size, PAGE_SIZE, va) || va + size >= TWO64
    requires va < TWO64 && va + size < TWO64
    requires forall a: nat | VmGap.Fits(order, SpansOf(regions), VM_MMAP_BASE, size, PAGE_SIZE, a) :: a <= va
    ensures Free(regions, va, size) && forall a: nat | Free(regions, a, size) :: a <= va
    ensures var r := NewRegion(va, size, attrs, 0, 0);
            RegionOk(r) && r.pages == NO_PAGES && r.start == va && r.end == va + size && r.committed == 0
    ensures forall id | id in regions :: !(va < regions[id].start < va + size)
  {
    FitsIsFree(order, regions, chains, size, va);
    forall a: nat | Free(regions, a, size) ensures a <= va {
      FitsIsFree(order, regions, chains, size, a);
    }
    NewRegionOk(va, size, attrs, 0, 0);
  }

  lemma NewRegionOk(va: nat, size: nat, attrs: Attrs, phys: nat, n: nat)
    requires IsPageAligned(va) && IsPageAligned(size) && 0 < size && VM_USER_START <= va && va + size <= VM_USER_END
    ensures var r := NewRegion(va, size, attrs, phys, n);
            && RegionOk(r) && r.pages == NO_PAGES && r.start == va && r.end == va + size && r.committed == n
            && r.resident == n
  {
    AlignedSum(va, size);
    assert Entries(NO_PAGES) == {};
    assert Committed({}) == {};
  }

  lemma FreeNotBlocked(order: seq<nat>, regions: Regions, chains: Chains, va: nat, size: nat)
    requires SpaceOk(order, regions, chains) && Ordered(order, SpansOf(regions)) && Free(regions, va, size) && size > 0
    ensures !Blocked(order, SpansOf(regions), va, None)
  {
    OrderedHas(order, regions);
    forall i | 0 <= i < |order| ensures !In(SpansOf(regions)[order[i]], va) {
      assert order[i] in regions;
    }
  }

  lemma NoneBegins(regions: Regions, va: nat, size: nat, r: Region)
    requires !BeginsInside(regions, va, size) && r.start == va && r.end == va + size
    ensures forall id | id in regions :: !(r.start < regions[id].start < r.end)
  {
  }

  lemma FixedExactly(order: seq<nat>, regions: Regions, chains: Chains, k: nat, x: nat, r: Region, va: nat, size: nat)
    requires SpaceOk(order, regions, chains) && x !in regions && r.start == va < r.end == va + size
    requires Placed(order, SpansOf(regions), va, None, k, k)
    ensures k <= |order|
    ensures Ordered(order[..k] + [x] + order[k..], SpansOf(regions[x := r])) <==> !BeginsInside(regions, va, size)
  {
    var s := SpansOf(regions);
    InsertIsApartExactly(order, s, k, x, Span(va, va + size));
    assert SpansOf(regions[x := r]) == s[x := Span(va, va + size)];
    if BeginsInside(regions, va, size) {
      var id :| id in regions && va < regions[id].start < va + size;
      var i :| 0 <= i < |order| && order[i] == id;
      assert s[order[i]].start == regions[id].start;
    } else {
      forall i | 0 <= i < |order| ensures !(va < s[order[i]].start < va + size) {
        assert order[i] in regions;
      }
    }
  }

  /** Regions from f up to i have been authorized. */
  ghost predicate Passed(key: nat, order: seq<nat>, regions: Regions, lo: nat, hi: nat, wish: Option<Prot>, f: nat,
                         i: nat) {
    && Front(order, regions, lo, hi, f) && f <= i <= |order|
    && forall k | f <= k < i :: Authorize(ClipRequest(key, regions[order[k]], WishedFor(regions[order[k]], wish), lo,
        hi)).Granted?
  }

  lemma PassStart(key: nat, order: seq<nat>, regions: Regions, lo: nat, hi: nat, wish: Option<Prot>, f: nat)
    requires Front(order, regions, lo, hi, f)
    ensures Passed(key, order, regions, lo, hi, wish, f, f)
  {
  }

  lemma PassStep(key: nat, order: seq<nat>, regions: Regions, chains: Chains, lo: nat, hi: nat, wish: Option<Prot>,
                 f: nat, i: nat)
    requires Passed(key, order, regions, lo, hi, wish, f, i) && i < |order| && order[i] in regions
    requires regions[order[i]].start < hi
    requires SpaceOk(order, regions, chains)
    ensures var v := Authorize(ClipRequest(key, regions[order[i]], WishedFor(regions[order[i]], wish), lo, hi));
            if v.Granted? then Passed(key, order, regions, lo, hi, wish, f, i + 1)
                else !AllGranted(key, regions, lo, hi, wish)
  {
    hide Authorize, ClipRequest, WishedFor, SpaceOk;
    assert Touches(regions[order[i]], lo, hi);
  }

  lemma PassEnd(key: nat, order: seq<nat>, regions: Regions, chains: Chains, lo: nat, hi: nat, wish: Option<Prot>,
                f: nat, i: nat)
    requires Passed(key, order, regions, lo, hi, wish, f, i) && SpaceOk(order, regions, chains)
    requires i < |order| ==> order[i] in regions && regions[order[i]].start >= hi
    ensures AllGranted(key, regions, lo, hi, wish)
  {
    OrderedHas(order, regions);
    hide Authorize, ClipRequest, WishedFor, Ordered, RegionOk, Exact;
    forall id | id in regions && Touches(regions[id], lo, hi)
      ensures Authorize(ClipRequest(key, regions[id], WishedFor(regions[id], wish), lo, hi)).Granted? {
      var k :| 0 <= k < |order| && order[k] == id;
    }
  }

  lemma KnowsIt(order: seq<nat>, regions: Regions, k: nat)
    requires Knows(order, regions) && k < |order|
    ensures order[k] in regions
  {
  }

  lemma PlusIs(t: Totals, r: Region)
    requires r.start < r.end
    ensures Plus(t, Of(r)) == Totals(t.mapped + (r.end - r.start), t.committed + r.committed, t.resident + r.resident)
  {
  }

  lemma SpansKnow(order: seq<nat>, regions: Regions)
    requires Knows(order, regions)
    ensures forall i | 0 <= i < |order| :: order[i] in SpansOf(regions)
  {
  }

  lemma FrontBound(order: seq<nat>, regions: Regions, lo: nat, hi: nat, f: nat)
    requires Front(order, regions, lo, hi, f)
    ensures f <= |order| && (f < |order| ==> order[f] in regions)
  {
  }

  lemma FrontEnd(order: seq<nat>, regions: Regions, lo: nat, hi: nat, f: nat)
    requires Front(order, regions, lo, hi, f)
    ensures Knows(order, regions)
  {
  }

  lemma WishNone(r: Region)
    ensures WishedFor(r, None) == r.attrs.prot
  {
  }

  lemma AlignedSum(a: nat, b: nat)
    requires IsPageAligned(a) && IsPageAligned(b)
    ensures IsPageAligned(a + b)
  {
  }

  /** Some regions within [lo, hi) are gone, the rest is as before; no region reaches across either end. */
  ghost predicate Dropped(before: Regions, regions: Regions, lo: nat, hi: nat) {
    && (forall id | id in regions :: id in before && regions[id] == before[id])
    && (forall id | id in before && id !in regions :: lo <= before[id].start && before[id].end <= hi)
    && CutAt(before, lo) && CutAt(before, hi)
  }

  lemma DropStart(regions: Regions, lo: nat, hi: nat)
    ensures CutAt(regions, lo) && CutAt(regions, hi) ==> Dropped(regions, regions, lo, hi)
  {
  }

  lemma DropOne(before: Regions, regions: Regions, lo: nat, hi: nat, id: nat)
    requires Dropped(before, regions, lo, hi) && id in regions && Touches(regions[id], lo, hi)
    ensures Dropped(before, regions - {id}, lo, hi)
  {
  }

  lemma DropParts(before: Regions, carved: Regions, regions: Regions, lo: nat, hi: nat)
    requires Dropped(carved, regions, lo, hi) && AllParts(before, carved, lo, hi)
    ensures AllParts(before, regions, lo, hi)
  {
  }

  lemma DropEnd(before: Regions, regions: Regions, lo: nat, hi: nat)
    requires Dropped(before, regions, lo, hi) || before == regions
    requires forall id | id in regions :: !Touches(regions[id], lo, hi)
    ensures Removed(before, regions, lo, hi)
  {
    DropView(before, regions, lo, hi);
  }

  lemma RemovedFromSame(before: Regions, carved: Regions, regions: Regions, lo: nat, hi: nat)
    requires SameView(before, carved) && Removed(carved, regions, lo, hi)
    ensures Removed(before, regions, lo, hi)
  {
    forall a: nat, p: Piece {:trigger Shows(regions, a, p)}
      ensures Shows(regions, a, p) <==> Shows(before, a, p) && !(lo <= a < hi) {
      assert Shows(carved, a, p) <==> Shows(before, a, p);
    }
  }

  lemma Undone(regions: Regions, id: nat, x: nat, l: Region, u: Region, r: Region)
    requires id in regions && x !in regions
    ensures (regions[id := l][x := u] - {x})[id := r] == regions[id := r]
  {
  }

  lemma FoundRegion(order: seq<nat>, regions: Regions, chains: Chains, id: nat, va: nat)
    requires SpaceOk(order, regions, chains) && id in order && id in SpansOf(regions) && In(SpansOf(regions)[id], va)
    ensures id in regions && regions[id].start <= va < regions[id].end
  {
  }

  lemma SplitFacts(r: Region, va: nat, l: Region, u: Region)
    requires SplitInto(r, va, l, u)
    ensures r.start < va < r.end && RegionOk(r) && u.committed <= r.committed && u.resident <= r.resident
    ensures l.start == r.start && l.end == u.start && u.end == r.end
    ensures r.committed == l.committed + u.committed && r.resident == l.resident + u.resident
    ensures l == Lower(r, va, u.committed, u.resident, l.pages) && u == Upper(r, va, u.committed, u.resident, u.pages)
  {
  }

  lemma JoinedPages(l: Region, u: Region, back: PageMap)
    ensures Joined(l, u, back).pages == back
  {
  }

  lemma EraseLength(order: seq<nat>, k: nat)
    requires k < |order|
    ensures |order[..k] + order[k + 1..]| == |order| - 1
  {
  }

  lemma PageFits(hi: nat)
    requires hi > 0 && IsPageAligned(hi)
    ensures hi >= PAGE_SIZE > 0
  {
  }

  lemma SameViewTrans(a: Regions, b: Regions, c: Regions)
    requires SameView(a, b) && SameView(b, c)
    ensures SameView(a, c)
  {
    forall x: nat, p: Piece {:trigger Shows(c, x, p)} ensures Shows(c, x, p) <==> Shows(a, x, p) {
      assert Shows(b, x, p) <==> Shows(a, x, p);
    }
  }

  lemma EmptyOk()
    ensures Ok(NO_PAGES) && NO_PAGES.count == 0 && |NO_PAGES.slots| == 0
  {
  }

  lemma IsDivided(pm: PageMap, lo: PageMap, up: PageMap, va: nat)
    requires Entries(lo) == (set s | s in Entries(pm) && s.va < va)
    requires Entries(up) == (set s | s in Entries(pm) && s.va >= va)
    ensures Divided(Entries(pm), Entries(lo), Entries(up), va)
  {
  }

  lemma PartOfTotal(r: Region, va: nat)
    requires RegionOk(r) && IsPageAligned(va) && r.start < va < r.end
    ensures 0 < PageCount(va, r.end) <= PageCount(r.start, r.end)
  {
  }

  lemma SameViewRefl(regions: Regions)
    ensures SameView(regions, regions)
  {
  }

  lemma Listed(order: seq<nat>, regions: Regions, chains: Chains, id: nat)
    requires SpaceOk(order, regions, chains) && id in regions
    ensures id in order && Ordered(order, SpansOf(regions)) && id in SpansOf(regions)
    ensures SpansOf(regions)[id] == Span(regions[id].start, regions[id].end)
  {
  }

  lemma HalvesPages(r: Region, va: nat, c: nat, n: nat, lo: PageMap, up: PageMap)
    requires r.start <= va && c <= r.committed && n <= r.resident
    ensures Lower(r, va, c, n, lo).pages == lo && Upper(r, va, c, n, up).pages == up
  {
  }

  lemma PlacedBound(order: seq<nat>, spans: Spans, start: nat, excluded: Option<nat>, k: nat)
    requires Placed(order, spans, start, excluded, k, k)
    ensures k <= |order|
  {
  }

  lemma SizeIs(t: Tree)
    ensures Size(t) == |InOrder(t)|
  {
  }

  lemma InsertLength(order: seq<nat>, k: nat, x: nat)
    requires k <= |order|
    ensures |order[..k] + [x] + order[k..]| == |order| + 1
  {
  }

  /**
    Two pages mapped at 0x40_3000, then two at 0x40_2000: the second mapping is granted and covers part of
    the first.
   */
  method FixedOverFixed(attrs: Attrs) returns (s: Space)
    requires Grantable(0, attrs.prot) && attrs.backing == Anonymous
    ensures 7 in s.regions && s.regions[7].start == 0x40_3000 && s.regions[7].end == 0x40_5000
    ensures 8 in s.regions && s.regions[8].start == 0x40_2000 && s.regions[8].end == 0x40_4000
    ensures !Ordered(InOrder(s.tree), SpansOf(s.regions))
  {
    var rmap := new ReverseMap(1);
    s := new Space(rmap, 2, 0, 0);
    EmptyRegions(rmap, 7);
    EmptyRegions(rmap, 8);
    hide Ordered, SpansOf, SpaceOk, Exact, InOrder, Total;
    var v := s.MapFixed(0x40_3000, 0x2000, attrs, 0, 7, true);
    assert !BeginsInside(map[], 0x40_3000, 0x2000) && !Held(map[], 0x40_3000);
    ghost var first := s.regions;
    var v' := s.MapFixed(0x40_2000, 0x2000, attrs, 0, 8, true);
    assert 7 in first && 0x40_2000 < first[7].start < 0x40_2000 + 0x2000;
    assert BeginsInside(first, 0x40_2000, 0x2000);
  }

  lemma EmptyRegions(rmap: ReverseMap, x: nat)
    requires rmap.Valid() && forall f: nat, r: Ref :: !Linked(rmap.chains, f, r)
    ensures Exact(rmap.chains, x, NO_PAGES)
  {
  }
}
