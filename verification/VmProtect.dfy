/** Changing the protection of a range. */
module VmProtect {
  import opened Wrappers
  import opened Layout
  import opened VmTree
  import opened VmPages
  import opened Rmap
  import opened VmMove
  import opened VmContract
  import opened VmRegion
  import opened VmState
  import opened VmCarve
  import opened VmSpace

  function Paint(r: Region, prot: Prot): Region {
    r.(attrs := r.attrs.(prot := prot))
  }

  function Tint(p: Piece, prot: Prot): Piece {
    p.(attrs := p.attrs.(prot := prot))
  }

  /** Addresses in [lo, hi) show what they did, with the new protection; all others show what they did. */
  ghost predicate Repainted(before: Regions, regions: Regions, lo: nat, hi: nat, prot: Prot) {
    forall a: nat, p: Piece {:trigger Shows(regions, a, p)} :: Shows(regions, a, p) <==>
      if lo <= a < hi then exists q :: Shows(before, a, q) && p == Tint(q, prot) else Shows(before, a, p)
  }

  /** Regions from f up to i, in address order, have the new protection; nothing else has changed. */
  ghost predicate Painted(before: Regions, regions: Regions, order: seq<nat>, f: nat, i: nat, prot: Prot) {
    && before.Keys == regions.Keys && f <= i <= |order| && Knows(order, regions)
    && (forall x, y | 0 <= x < y < |order| :: order[x] != order[y])
    && (forall id :: id in order <==> id in regions)
    && forall k | 0 <= k < |order| :: regions[order[k]] == if f <= k < i then Paint(before[order[k]], prot)
        else before[order[k]]
  }

  lemma PaintStart(order: seq<nat>, regions: Regions, chains: Chains, f: nat, prot: Prot)
    requires SpaceOk(order, regions, chains) && f <= |order|
    ensures Painted(regions, regions, order, f, f, prot)
  {
    KnowsOrder(order, regions, chains);
  }

  lemma PaintStep(before: Regions, regions: Regions, order: seq<nat>, f: nat, i: nat, prot: Prot)
    requires Painted(before, regions, order, f, i, prot) && i < |order|
    ensures order[i] in regions && order[i] in before && regions[order[i]] == before[order[i]]
    ensures Painted(before, regions[order[i] := Paint(regions[order[i]], prot)], order, f, i + 1, prot)
  {
  }

  lemma PaintPiece(r: Region, prot: Prot, a: nat)
    requires r.start <= a < r.end
    ensures PieceAt(Paint(r, prot), a) == Tint(PieceAt(r, a), prot)
  {
  }

  /** Which regions end up painted: those that meet the range, which by then lie in it. */
  lemma PaintedWhere(before: Regions, regions: Regions, chains: Chains, order: seq<nat>, f: nat, i: nat, prot: Prot,
                     lo: nat, hi: nat, id: nat)
    requires Painted(before, regions, order, f, i, prot) && SpaceOk(order, before, chains)
    requires Front(order, before, lo, hi, f)
    requires (i < |order| ==> before[order[i]].start >= hi) && (forall k | f <= k < i :: before[order[k]].start < hi)
    requires CutAt(before, lo) && CutAt(before, hi) && id in regions
    ensures id in before && before[id].start == regions[id].start && before[id].end == regions[id].end
    ensures regions[id] == if Touches(before[id], lo, hi) then Paint(before[id], prot) else before[id]
    ensures Touches(before[id], lo, hi) ==> lo <= before[id].start && before[id].end <= hi
  {
    OrderedHas(order, before);
    var k :| 0 <= k < |order| && order[k] == id;
  }

  lemma PaintView(before: Regions, regions: Regions, chains: Chains, order: seq<nat>, f: nat, i: nat, prot: Prot,
                  lo: nat, hi: nat)
    requires Painted(before, regions, order, f, i, prot) && SpaceOk(order, before, chains)
    requires Front(order, before, lo, hi, f)
    requires (i < |order| ==> before[order[i]].start >= hi) && (forall k | f <= k < i :: before[order[k]].start < hi)
    requires CutAt(before, lo) && CutAt(before, hi) && lo < hi
    ensures Repainted(before, regions, lo, hi, prot)
  {
    forall id | id in regions
      ensures id in before && before[id].start == regions[id].start && before[id].end == regions[id].end
        && (regions[id] == if Touches(before[id], lo, hi) then Paint(before[id], prot) else before[id])
        && (Touches(before[id], lo, hi) ==> lo <= before[id].start && before[id].end <= hi) {
      PaintedWhere(before, regions, chains, order, f, i, prot, lo, hi, id);
    }
    hide Painted, SpaceOk, Front, PieceAt;
    PaintKeys(before, regions, order, f, i, prot);
    forall a: nat, p: Piece {:trigger Shows(regions, a, p)} ensures Shows(regions, a, p) <==>
        if lo <= a < hi then exists q :: Shows(before, a, q) && p == Tint(q, prot) else Shows(before, a, p) {
      ShowsPainted(before, regions, lo, hi, prot, a, p);
    }
  }

  lemma PaintKeys(before: Regions, regions: Regions, order: seq<nat>, f: nat, i: nat, prot: Prot)
    requires Painted(before, regions, order, f, i, prot)
    ensures before.Keys == regions.Keys
  {
  }

  lemma ShowsPainted(before: Regions, regions: Regions, lo: nat, hi: nat, prot: Prot, a: nat, p: Piece)
    requires before.Keys == regions.Keys && lo < hi
    requires forall id | id in regions ::
              id in before && before[id].start == regions[id].start && before[id].end == regions[id].end
               && (regions[id] == if Touches(before[id], lo, hi) then Paint(before[id], prot) else before[id])
               && (Touches(before[id], lo, hi) ==> lo <= before[id].start && before[id].end <= hi)
    ensures Shows(regions, a, p) <==>
              if lo <= a < hi then exists q :: Shows(before, a, q) && p == Tint(q, prot) else Shows(before, a, p)
  {
    if Shows(regions, a, p) {
      var id :| id in regions && regions[id].start <= a < regions[id].end && PieceAt(regions[id], a) == p;
      assert id in before && before[id].start <= a < before[id].end;
      if lo <= a < hi {
        PaintPiece(before[id], prot, a);
        assert Shows(before, a, PieceAt(before[id], a));
      }
    }
    if lo <= a < hi {
      if q :| Shows(before, a, q) && p == Tint(q, prot) {
        var id :| id in before && before[id].start <= a < before[id].end && PieceAt(before[id], a) == q;
        PaintPiece(before[id], prot, a);
        assert id in regions && regions[id].start <= a < regions[id].end && PieceAt(regions[id], a) == p;
      }
    } else if Shows(before, a, p) {
      var id :| id in before && before[id].start <= a < before[id].end && PieceAt(before[id], a) == p;
      assert id in regions && regions[id].start <= a < regions[id].end && PieceAt(regions[id], a) == p;
    }
  }

  lemma PaintOk(order: seq<nat>, regions: Regions, chains: Chains, id: nat, prot: Prot)
    requires SpaceOk(order, regions, chains) && id in regions
    ensures RegionOk(Paint(regions[id], prot)) && Paint(regions[id], prot).pages == regions[id].pages
    ensures Paint(regions[id], prot).start == regions[id].start && Paint(regions[id], prot).end == regions[id].end
    ensures Of(Paint(regions[id], prot)) == Of(regions[id]) && Exact(chains, id, regions[id].pages)
  {
    assert RegionOk(regions[id]);
  }

  lemma PlusSame(x: Totals, y: Totals, z: Totals)
    requires Plus(x, z) == Plus(y, z)
    ensures x == y
  {
  }

  /** One region of the commit loop of vm_protect. */
  method PaintOne(s: Space, id: nat, prot: Prot)
    requires s.Valid() && id in s.regions
    modifies s`regions
    ensures s.Valid() && s.regions == old(s.regions)[id := Paint(old(s.regions)[id], prot)]
  {
    hide *;
    s.Parts();
    ghost var order := InOrder(s.tree);
    PaintOk(order, s.regions, s.rmap.chains, id, prot);
    OthersRefl(s.rmap.chains, id, id);
    UpdateKeeps(order, s.regions, s.rmap.chains, s.rmap.chains, id, Paint(s.regions[id], prot));
    PlusSame(Total(order, s.regions[id := Paint(s.regions[id], prot)]), Total(order, s.regions), Of(s.regions[id]));
    s.regions := s.regions[id := Paint(s.regions[id], prot)];
    s.Whole();
  }

  /** The commit loop of vm_protect; the fatal check of the authorization cannot fire. */
  method PaintRange(s: Space, lo: nat, hi: nat, prot: Prot, ghost before: Regions)
    requires s.Valid() && lo < hi && CutAt(s.regions, lo) && CutAt(s.regions, hi)
    requires AllGranted(s.key, before, lo, hi, Some(prot)) && AllParts(before, s.regions, lo, hi)
    modifies s`regions
    ensures s.Valid() && Repainted(old(s.regions), s.regions, lo, hi, prot)
  {
    hide *;
    s.Parts();
    var order := InOrder(s.tree);
    ghost var carved, chains := s.regions, s.rmap.chains;
    KnowsOrder(order, carved, chains);
    var f := FirstOverlap(s.tree, SpansOf(s.regions), lo, hi);
    SpansKnow(order, carved);
    FrontAt(order, carved, chains, lo, hi, f);
    FrontBound(order, carved, lo, hi, f);
    PaintStart(order, carved, chains, f, prot);
    var i := f;
    while i < |order| && s.regions[order[i]].start < hi
      invariant f <= i <= |order| && s.Valid() && Painted(carved, s.regions, order, f, i, prot)
      invariant i < |order| ==> order[i] in s.regions && order[i] in carved && s.regions[order[i]] == carved[order[i]]
      invariant forall k | f <= k < i :: order[k] in carved && carved[order[k]].start < hi
    {
      ghost var r := carved[order[i]];
      FrontFrom(order, carved, chains, lo, hi, f, i);
      SecondPass(s.key, before, carved, lo, hi, Some(prot), order[i]);
      WishSome(r, prot);
      // the authorization was granted before
      assert Authorize(WholeRequest(s.key, r, prot)).Granted?;
      PaintStep(carved, s.regions, order, f, i, prot);
      PaintOne(s, order[i], prot);
      i := i + 1;
      if i < |order| {
        PaintStep(carved, s.regions, order, f, i, prot);
      }
    }
    PaintView(carved, s.regions, chains, order, f, i, prot, lo, hi);
  }

  lemma FrontFrom(order: seq<nat>, regions: Regions, chains: Chains, lo: nat, hi: nat, f: nat, i: nat)
    requires SpaceOk(order, regions, chains) && Front(order, regions, lo, hi, f) && f <= i < |order|
    requires order[i] in regions && regions[order[i]].start < hi
    ensures Touches(regions[order[i]], lo, hi) && regions[order[i]].start <= regions[order[i]].end
  {
    OrderedHas(order, regions);
  }

  lemma WishSome(r: Region, prot: Prot)
    ensures WishedFor(r, Some(prot)) == prot
  {
  }

  lemma RepaintedFromSame(before: Regions, carved: Regions, regions: Regions, lo: nat, hi: nat, prot: Prot)
    requires SameView(before, carved) && Repainted(carved, regions, lo, hi, prot)
    ensures Repainted(before, regions, lo, hi, prot)
  {
    forall a: nat, p: Piece {:trigger Shows(regions, a, p)} ensures Shows(regions, a, p) <==>
        if lo <= a < hi then exists q :: Shows(before, a, q) && p == Tint(q, prot) else Shows(before, a, p) {
      assert Shows(carved, a, p) <==> Shows(before, a, p);
      if q :| Shows(carved, a, q) && p == Tint(q, prot) {
        assert Shows(before, a, q);
      }
      if q :| Shows(before, a, q) && p == Tint(q, prot) {
        assert Shows(carved, a, q);
      }
    }
  }

  /** Authorization, splits and new protection, for a range that meets some region. */
  method ProtectFrom(s: Space, lo: nat, hi: nat, prot: Prot, f: nat, resolved: bool, x: nat, y: nat,
                     resources: bool, memory: bool, resources': bool, memory': bool) returns (v: Verdict)
    requires s.Valid() && lo < hi && IsPageAligned(lo) && IsPageAligned(hi)
    requires Front(InOrder(s.tree), s.regions, lo, hi, f)
    requires x != y && x !in s.regions && y !in s.regions && Exact(s.rmap.chains, x, NO_PAGES)
    requires Exact(s.rmap.chains, y, NO_PAGES)
    modifies s`tree, s`regions, s`regionCount, s.rmap
    ensures s.Valid()
    ensures v.Granted? ==> resolved && AllGranted(s.key, old(s.regions), lo, hi, Some(prot))
    ensures resolved && AllGranted(s.key, old(s.regions), lo, hi, Some(prot)) && v.Refused? ==>
              && v == Refused(OutOfMemory)
              && !(old(s.regionCount) + 2 <= s.maxRegions && resources && memory && resources' && memory'
                  && SmallMaps(old(s.regions)))
    ensures v.Granted? ==> Repainted(old(s.regions), s.regions, lo, hi, prot)
    ensures v.Refused? ==>
              SameRegions(old(s.regions), s.regions) && SameView(old(s.regions), s.regions)
                  && s.regionCount == old(s.regionCount)
  {
    hide *;
    SameRegionsRefl(s.regions);
    v := s.FirstPass(lo, hi, f, Some(prot));
    if v.Refused? {
      return;
    }
    if !resolved {
      return Refused(CapabilityInvalid);
    }
    ghost var before := s.regions;
    v := s.Carve(lo, hi, x, y, resources, memory, resources', memory');
    if v.Refused? {
      return;
    }
    ghost var carved := s.regions;
    PaintRange(s, lo, hi, prot, before);
    RepaintedFromSame(before, carved, s.regions, lo, hi, prot);
  }

  /** Where the loop of vm_protect starts; past the end if the range meets no region. */
  method FindFront(s: Space, lo: nat, hi: nat) returns (f: nat)
    requires s.Valid() && lo < hi
    ensures Front(InOrder(s.tree), s.regions, lo, hi, f) && (f == Size(s.tree) <==> !AnyMeets(s.regions, lo, hi))
  {
    hide *;
    s.Parts();
    KnowsOrder(InOrder(s.tree), s.regions, s.rmap.chains);
    f := FirstOverlap(s.tree, SpansOf(s.regions), lo, hi);
    SizeIs(s.tree);
    SpansKnow(InOrder(s.tree), s.regions);
    FrontAt(InOrder(s.tree), s.regions, s.rmap.chains, lo, hi, f);
    FirstMeets(InOrder(s.tree), s.regions, s.rmap.chains, lo, hi, f);
  }

  /** vm_protect; resolved tells whether the mapping objects of the regions are there. */
  method Protect(s: Space, va: nat, size: nat, prot: Prot, resolved: bool, x: nat, y: nat,
                 resources: bool, memory: bool, resources': bool, memory': bool) returns (v: Verdict)
    requires s.Valid() && va < TWO64 && size < TWO64
    requires x != y && x !in s.regions && y !in s.regions && Exact(s.rmap.chains, x, NO_PAGES)
    requires Exact(s.rmap.chains, y, NO_PAGES)
    modifies s`tree, s`regions, s`regionCount, s.rmap
    ensures s.Valid()
    ensures v.Granted? ==> ProtectOk(va, size, prot) && resolved && AnyMeets(old(s.regions), va, va + size)
    ensures v.Granted? ==> AllGranted(s.key, old(s.regions), va, va + size, Some(prot))
    ensures ProtectOk(va, size, prot) && !AnyMeets(old(s.regions), va, va + size) ==> v == Refused(NotFound)
    ensures ProtectOk(va, size, prot) && resolved && AnyMeets(old(s.regions), va, va + size)
              && AllGranted(s.key, old(s.regions), va, va + size, Some(prot)) && v.Refused? ==>
              && v == Refused(OutOfMemory)
              && !(old(s.regionCount) + 2 <= s.maxRegions && resources && memory && resources' && memory'
                  && SmallMaps(old(s.regions)))
    ensures v.Granted? ==> Repainted(old(s.regions), s.regions, va, va + size, prot)
    ensures v.Refused? ==>
              SameRegions(old(s.regions), s.regions) && SameView(old(s.regions), s.regions)
                  && s.regionCount == old(s.regionCount)
  {
    ProtectOkIs(va, size, prot);
    hide *;
    SameRegionsRefl(s.regions);
    if size == 0 || !IsPageAligned(size) {
      return Refused(InvalidArg);
    }
    if !IsPageAligned(va) {
      return Refused(AlignmentError);
    }
    v := ValidateRange(va, WrappedEnd(va, size));
    if v.Refused? {
      return;
    }
    if va < VM_USER_START || va + size > VM_USER_END {
      return Refused(InvalidAddress);
    }
    if prot.write && prot.exec {
      return Refused(CapabilityInvalid);
    }
    var hi := va + size;
    AlignedSum(va, size);
    var f := FindFront(s, va, hi);
    if f == Size(s.tree) {
      return Refused(NotFound);
    }
    v := ProtectFrom(s, va, hi, prot, f, resolved, x, y, resources, memory, resources', memory');
  }

  /** What vm_protect asks of its arguments. */
  predicate ProtectOk(va: nat, size: nat, prot: Prot) {
    size > 0 && IsPageAligned(size) && IsPageAligned(va) && VM_USER_START <= va && va + size <= VM_USER_END
        && !(prot.write && prot.exec)
  }

  lemma ProtectOkIs(va: nat, size: nat, prot: Prot)
    requires va < TWO64 && size < TWO64
    ensures ProtectOk(va, size, prot) <==>
              && size > 0 && IsPageAligned(size) && IsPageAligned(va) && VM_USER_START <= va && va + size <= VM_USER_END
              && !(prot.write && prot.exec)
    ensures ProtectOk(va, size, prot) ==> ValidateRange(va, WrappedEnd(va, size)).Granted?
  {
    if ProtectOk(va, size, prot) {
      AlignedSum(va, size);
    }
  }

  /** Some region meets the range. */
  ghost predicate AnyMeets(regions: Regions, lo: nat, hi: nat) {
    exists id :: id in regions && Touches(regions[id], lo, hi)
  }

  lemma FirstMeets(order: seq<nat>, regions: Regions, chains: Chains, lo: nat, hi: nat, f: nat)
    requires SpaceOk(order, regions, chains) && Front(order, regions, lo, hi, f)
    requires f < |order| ==> order[f] in SpansOf(regions) && Meets(SpansOf(regions)[order[f]], lo, hi)
    ensures f < |order| <==> AnyMeets(regions, lo, hi)
  {
    if f < |order| {
      assert order[f] in regions && Touches(regions[order[f]], lo, hi);
    } else {
      FrontDone(order, regions, chains, lo, hi, f);
    }
  }

  /** The end of the range as 64-bit arithmetic has it. */
  function WrappedEnd(va: nat, size: nat): nat {
    (va + size) % TWO64
  }
}
