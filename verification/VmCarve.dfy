/** Cutting a range out of the regions it meets: what two splits leave, and what undoing the first one restores. */
module VmCarve {
  import opened Wrappers
  import opened Layout
  import opened VmTree
  import opened VmPages
  import opened Rmap
  import opened VmMove
  import opened VmContract
  import opened VmRegion
  import opened VmState

  /** The same regions with the same pages, up to the arrangement of their slots. */
  ghost predicate SameRegions(before: Regions, regions: Regions) {
    && before.Keys == regions.Keys
    && forall id | id in regions ::
         regions[id] == before[id].(pages := regions[id].pages)
             && Entries(regions[id].pages) == Entries(before[id].pages)
  }

  /** No region reaches across an address. */
  ghost predicate CutAt(regions: Regions, va: nat) {
    forall id | id in regions :: regions[id].end <= va || va <= regions[id].start
  }

  predicate Touches(r: Region, lo: nat, hi: nat) {
    r.start < hi && lo < r.end
  }

  /** Every region that meets [lo, hi) was part of an earlier one. */
  ghost predicate AllParts(before: Regions, regions: Regions, lo: nat, hi: nat) {
    forall id | id in regions && Touches(regions[id], lo, hi) ::
      exists o :: o in before && PartOf(regions[id], before[o], lo, hi)
  }

  lemma PartOfSelf(r: Region, lo: nat, hi: nat)
    requires lo <= r.start < r.end <= hi
    ensures PartOf(r, r, lo, hi)
  {
  }

  /** After the split at the lower end: regions from lo on are parts with respect to lo. */
  lemma LowCut(order: seq<nat>, regions: Regions, chains: Chains, id: nat, x: nat, lo: nat, l: Region, u: Region)
    requires SpaceOk(order, regions, chains) && id in regions && x !in regions && SplitInto(regions[id], lo, l, u)
    ensures CutAt(regions[id := l][x := u], lo) && AllParts(regions, regions[id := l][x := u], lo, VM_USER_END)
  {
    var regions' := regions[id := l][x := u];
    forall y | y in regions' ensures (regions'[y].end <= lo || lo <= regions'[y].start)
        && (Touches(regions'[y], lo, VM_USER_END) ==> exists o ::
            o in regions && PartOf(regions'[y], regions[o], lo, VM_USER_END)) {
      if y == x {
        assert PartOf(u, regions[id], lo, VM_USER_END);
      } else if y != id {
        OtherSide(order, regions, chains, id, y, lo);
        assert RegionOk(regions[y]);
        if lo <= regions[y].start {
          PartOfSelf(regions[y], lo, VM_USER_END);
        }
      }
    }
  }

  lemma OtherSide(order: seq<nat>, regions: Regions, chains: Chains, id: nat, y: nat, va: nat)
    requires SpaceOk(order, regions, chains) && id in regions && y in regions && y != id
    requires regions[id].start < va < regions[id].end
    ensures regions[y].end <= va || va <= regions[y].start
  {
    if regions[y].start <= va < regions[y].end {
      OneRegion(order, regions, chains, va, id, y);
    }
  }

  lemma NoLowCut(order: seq<nat>, regions: Regions, chains: Chains, lo: nat)
    requires SpaceOk(order, regions, chains)
    requires forall id | id in regions :: !(regions[id].start < lo < regions[id].end)
    ensures CutAt(regions, lo) && AllParts(regions, regions, lo, VM_USER_END)
  {
    forall y | y in regions && Touches(regions[y], lo, VM_USER_END)
      ensures exists o :: o in regions && PartOf(regions[y], regions[o], lo, VM_USER_END) {
      assert RegionOk(regions[y]);
      PartOfSelf(regions[y], lo, VM_USER_END);
    }
  }

  lemma PartOfPart(q: Region, p: Region, r: Region, lo: nat, hi: nat)
    requires PartOf(p, r, lo, VM_USER_END) && q.start == p.start && q.attrs == p.attrs && q.phys == p.phys
    requires q.end == (if hi < p.end then hi else p.end) && q.start < q.end && r.end <= VM_USER_END
    ensures PartOf(q, r, lo, hi)
  {
  }

  /** After the split at the upper end as well. */
  lemma HighCut(before: Regions, order: seq<nat>, regions: Regions, chains: Chains, id: nat, y: nat, lo: nat, hi: nat,
                l: Region, u: Region)
    requires SpaceOk(order, regions, chains) && id in regions && y !in regions && SplitInto(regions[id], hi, l, u)
    requires lo < hi
    requires CutAt(regions, lo) && AllParts(before, regions, lo, VM_USER_END)
    requires forall o | o in before :: before[o].end <= VM_USER_END
    ensures var regions' := regions[id := l][y := u];
            CutAt(regions', lo) && CutAt(regions', hi) && AllParts(before, regions', lo, hi)
  {
    var regions' := regions[id := l][y := u];
    forall z | z in regions' ensures regions'[z].end <= hi || hi <= regions'[z].start {
      if z != id && z != y {
        OtherSide(order, regions, chains, id, z, hi);
      }
    }
    forall z | z in regions' && Touches(regions'[z], lo, hi)
      ensures exists o :: o in before && PartOf(regions'[z], before[o], lo, hi) {
      assert z != y;
      assert RegionOk(regions[z]);
      var o :| o in before && PartOf(regions[z], before[o], lo, VM_USER_END);
      PartOfPart(regions'[z], regions[z], before[o], lo, hi);
    }
  }

  lemma NoHighCut(before: Regions, order: seq<nat>, regions: Regions, chains: Chains, lo: nat, hi: nat)
    requires SpaceOk(order, regions, chains) && lo < hi
    requires forall id | id in regions :: !(regions[id].start < hi < regions[id].end)
    requires AllParts(before, regions, lo, VM_USER_END) && forall o | o in before :: before[o].end <= VM_USER_END
    ensures CutAt(regions, hi) && AllParts(before, regions, lo, hi)
  {
    forall z | z in regions && Touches(regions[z], lo, hi)
      ensures exists o :: o in before && PartOf(regions[z], before[o], lo, hi) {
      assert RegionOk(regions[z]);
      var o :| o in before && PartOf(regions[z], before[o], lo, VM_USER_END);
      PartOfPart(regions[z], regions[z], before[o], lo, hi);
    }
  }

  /** Only the region that holds hi - PAGE_SIZE can reach across hi. */
  lemma HighRegion(order: seq<nat>, regions: Regions, chains: Chains, hi: nat)
    requires SpaceOk(order, regions, chains) && IsPageAligned(hi) && hi >= PAGE_SIZE
    ensures forall id | id in regions && regions[id].start < hi < regions[id].end ::
              regions[id].start <= hi - PAGE_SIZE < regions[id].end
  {
    forall id | id in regions && regions[id].start < hi < regions[id].end
      ensures regions[id].start <= hi - PAGE_SIZE < regions[id].end {
      assert RegionOk(regions[id]);
    }
  }

  lemma UserBound(order: seq<nat>, regions: Regions, chains: Chains)
    requires SpaceOk(order, regions, chains)
    ensures forall o | o in regions :: regions[o].end <= VM_USER_END
  {
    forall o | o in regions ensures regions[o].end <= VM_USER_END {
      assert RegionOk(regions[o]);
    }
  }

  lemma FoundOnly(order: seq<nat>, regions: Regions, chains: Chains, id: nat, va: nat)
    requires SpaceOk(order, regions, chains) && id in regions && regions[id].start <= va < regions[id].end
    ensures forall y | y in regions && y != id :: !(regions[y].start <= va < regions[y].end)
  {
    forall y | y in regions && y != id ensures !(regions[y].start <= va < regions[y].end) {
      if regions[y].start <= va < regions[y].end {
        OneRegion(order, regions, chains, va, id, y);
      }
    }
  }

  lemma NoneFound(order: seq<nat>, regions: Regions, chains: Chains, va: nat)
    requires SpaceOk(order, regions, chains)
    requires forall i | 0 <= i < |order| :: order[i] in SpansOf(regions) && !In(SpansOf(regions)[order[i]], va)
    ensures forall y | y in regions :: !(regions[y].start <= va < regions[y].end)
  {
    forall y | y in regions ensures !(regions[y].start <= va < regions[y].end) {
      var i :| 0 <= i < |order| && order[i] == y;
    }
  }

  lemma StrictlyBelow(order: seq<nat>, regions: Regions, i: nat, k: nat)
    requires Ordered(order, SpansOf(regions)) && i + 1 < k < |order|
    ensures order[i] in regions && order[k] in regions && regions[order[i]].end < regions[order[k]].start
  {
    OrderedHas(order, regions);
    assert regions[order[i]].end <= regions[order[i + 1]].start < regions[order[i + 1]].end;
  }

  lemma Adjacent(order: seq<nat>, regions: Regions, chains: Chains, id: nat, x: nat, k: nat)
    requires SpaceOk(order, regions, chains) && id in regions && x in regions && regions[id].end == regions[x].start
    requires k < |order| && order[k] == x
    ensures 0 < k && order[k - 1] == id && id != x
  {
    OrderedHas(order, regions);
    var i: nat :| i < |order| && order[i] == id;
    if i + 1 < k {
      StrictlyBelow(order, regions, i, k);
    }
  }

  lemma ResharePages(chains: Chains, r: Region, va: nat, id: nat, l: Region, x: nat, u: Region)
    requires SplitInto(r, va, l, u) && id != x && Exact(chains, id, l.pages) && Exact(chains, x, u.pages)
    ensures Sharing(chains, id, l.pages, x, u.pages, Entries(r.pages))
    ensures |Entries(r.pages)| <= |l.pages.slots| < MAX_U32
  {
    EntriesCard(r.pages);
    UniquePages(r.pages);
    hide Entries, Exact, Ok;
  }

  lemma BackOk(r: Region, back: PageMap)
    requires RegionOk(r) && Ok(back) && Entries(back) == Entries(r.pages) && |back.slots| < MAX_U32
    ensures RegionOk(r.(pages := back))
  {
  }

  lemma SameRegionsView(before: Regions, id: nat, back: PageMap)
    requires id in before && Entries(back) == Entries(before[id].pages)
    ensures SameRegions(before, before[id := before[id].(pages := back)])
    ensures SameView(before, before[id := before[id].(pages := back)])
  {
    SamePiecesView(before, id, back);
  }

  lemma SameRegionsRefl(regions: Regions)
    ensures SameRegions(regions, regions) && SameView(regions, regions)
  {
  }

  // ---- taking a region down --------------------------------------------------------------------

  lemma ClearLink(chains: Chains, chains': Chains, id: nat, pm: PageMap, i: nat)
    requires Exact(chains, id, pm) && i < pm.count <= |pm.slots|
    requires var s := pm.slots[i];
             if s.state != Empty && s.state != Portal
                 && s.phys != 0 then LinkedLess(chains, chains', s.phys, Ref(id, i))
             else chains' == chains
    ensures Exact(chains', id, pm.(slots := pm.slots[i := BLANK])) && OthersSame(chains, chains', id, id)
  {
    var pm' := pm.(slots := pm.slots[i := BLANK]);
    forall f: nat, k: nat {:trigger Linked(chains', f, Ref(id, k))}
      ensures Linked(chains', f, Ref(id, k)) <==> Wants(pm', k, f)
    {
      assert Linked(chains, f, Ref(id, k)) <==> Wants(pm, k, f);
      assert Ref(id, k) == Ref(id, i) <==> k == i;
    }
  }

  /** teardown_region_slots: afterwards the reverse map knows nothing of the region. */
  method Teardown(rmap: ReverseMap, id: nat, pm: PageMap)
    requires rmap.Valid() && Ok(pm) && Exact(rmap.chains, id, pm)
    modifies rmap
    ensures rmap.Valid() && Exact(rmap.chains, id, NO_PAGES) && OthersSame(old(rmap.chains), rmap.chains, id, id)
  {
    hide *;
    OthersRefl(rmap.chains, id, id);
    OkCount(pm);
    var cur := pm;
    var i := 0;
    while i < pm.count
      invariant i <= pm.count == cur.count <= |cur.slots| && rmap.Valid() && Exact(rmap.chains, id, cur)
      invariant OthersSame(old(rmap.chains), rmap.chains, id, id)
      invariant forall k | 0 <= k < i :: cur.slots[k].state == Empty
    {
      var s := cur.slots[i];
      ghost var before := rmap.chains;
      if s.state != Empty && s.state != Portal && s.phys != 0 {
        WantedFrame(rmap, id, cur, i);
        rmap.Remove(Ref(id, i), s.phys);
      }
      ClearLink(before, rmap.chains, id, cur, i);
      OthersTrans(old(rmap.chains), before, rmap.chains, id, id);
      BlankIsEmpty();
      cur := cur.(slots := cur.slots[i := BLANK]);
      i := i + 1;
    }
    NothingWanted(rmap.chains, id, cur);
  }

  lemma OkCount(pm: PageMap)
    requires Ok(pm)
    ensures pm.count <= |pm.slots|
  {
  }

  lemma WantedFrame(rmap: ReverseMap, id: nat, pm: PageMap, i: nat)
    requires rmap.Valid() && Exact(rmap.chains, id, pm) && i < pm.count <= |pm.slots|
    requires var s := pm.slots[i]; s.state != Empty && s.state != Portal && s.phys != 0
    ensures 0 < pm.slots[i].phys < rmap.limit
  {
    assert Wants(pm, i, pm.slots[i].phys);
    assert Linked(rmap.chains, pm.slots[i].phys, Ref(id, i));
  }

  lemma NothingWanted(chains: Chains, id: nat, pm: PageMap)
    requires Exact(chains, id, pm) && pm.count <= |pm.slots|
    requires forall k | 0 <= k < pm.count :: pm.slots[k].state == Empty
    ensures Exact(chains, id, NO_PAGES)
  {
    forall f: nat, k: nat {:trigger Linked(chains, f, Ref(id, k))}
      ensures Linked(chains, f, Ref(id, k)) <==> Wants(NO_PAGES, k, f)
    {
      assert !Wants(pm, k, f);
    }
  }

  // ---- passes over the regions of a range --------------------------------------------------------

  /** The first pass: every region that meets the range is authorized for its part in it. */
  ghost predicate AllGranted(spaceKey: nat, regions: Regions, lo: nat, hi: nat, wish: Option<Prot>) {
    forall id | id in regions && Touches(regions[id], lo, hi) ::
      Authorize(ClipRequest(spaceKey, regions[id], WishedFor(regions[id], wish), lo, hi)).Granted?
  }

  /** The protection a request is made for: the wished one, or what the region has. */
  function WishedFor(r: Region, wish: Option<Prot>): Prot {
    if wish.Some? then wish.value else r.attrs.prot
  }

  /** The second pass can refuse nothing that the first has granted. */
  lemma SecondPass(spaceKey: nat, before: Regions, regions: Regions, lo: nat, hi: nat, wish: Option<Prot>, id: nat)
    requires AllGranted(spaceKey, before, lo, hi, wish) && AllParts(before, regions, lo, hi) && lo < hi
    requires id in regions && Touches(regions[id], lo, hi) && regions[id].start <= regions[id].end
    ensures Authorize(WholeRequest(spaceKey, regions[id], WishedFor(regions[id], wish))).Granted?
  {
    var o :| o in before && PartOf(regions[id], before[o], lo, hi);
    assert Touches(before[o], lo, hi);
    SecondPassGrants(spaceKey, before[o], regions[id], WishedFor(regions[id], wish), lo, hi);
  }

  /** Regions in address order from f on: those that begin below hi are the ones that meet [lo, hi). */
  ghost predicate Front(order: seq<nat>, regions: Regions, lo: nat, hi: nat, f: nat) {
    && f <= |order| && Knows(order, regions)
    && (forall i | 0 <= i < f :: !Touches(regions[order[i]], lo, hi))
    && (forall i | f <= i < |order| :: lo < regions[order[i]].end)
  }

  lemma FrontAt(order: seq<nat>, regions: Regions, chains: Chains, lo: nat, hi: nat, f: nat)
    requires SpaceOk(order, regions, chains) && f <= |order| && lo < hi
    requires forall i | 0 <= i < |order| :: order[i] in SpansOf(regions)
    requires f < |order| ==> Meets(SpansOf(regions)[order[f]], lo, hi)
    requires forall i | 0 <= i < f :: !Meets(SpansOf(regions)[order[i]], lo, hi)
    requires f == |order| ==> forall i | 0 <= i < |order| :: !Meets(SpansOf(regions)[order[i]], lo, hi)
    ensures Front(order, regions, lo, hi, f)
  {
    OrderedHas(order, regions);
  }

  lemma FrontDone(order: seq<nat>, regions: Regions, chains: Chains, lo: nat, hi: nat, f: nat)
    requires SpaceOk(order, regions, chains) && Front(order, regions, lo, hi, f)
    requires f < |order| ==> regions[order[f]].start >= hi
    ensures forall id | id in regions :: !Touches(regions[id], lo, hi)
  {
    OrderedHas(order, regions);
    forall id | id in regions ensures !Touches(regions[id], lo, hi) {
      var i :| 0 <= i < |order| && order[i] == id;
    }
  }

  lemma FrontErase(order: seq<nat>, regions: Regions, chains: Chains, lo: nat, hi: nat, f: nat)
    requires SpaceOk(order, regions, chains) && Front(order, regions, lo, hi, f) && f < |order|
    ensures Front(order[..f] + order[f + 1..], regions - {order[f]}, lo, hi, f)
  {
    hide SpaceOk, Ordered, Touches;
    KnowsOrder(order, regions, chains);
    var order', regions' := order[..f] + order[f + 1..], regions - {order[f]};
    forall i | 0 <= i < |order'|
      ensures order'[i] in regions'
      ensures if i < f then !Touches(regions'[order'[i]], lo, hi) else lo < regions'[order'[i]].end
    {
      var j := if i < f then i else i + 1;
      assert order'[i] == order[j] && order[j] in regions && order[j] != order[f];
    }
  }

  lemma FrontStep(order: seq<nat>, regions: Regions, chains: Chains, lo: nat, hi: nat, f: nat)
    requires SpaceOk(order, regions, chains) && Front(order, regions, lo, hi, f) && f < |order|
    requires regions[order[f]].start < hi
    ensures order[f] in regions && Touches(regions[order[f]], lo, hi) && regions[order[f]].start < regions[order[f]].end
  {
    OrderedHas(order, regions);
  }
}
