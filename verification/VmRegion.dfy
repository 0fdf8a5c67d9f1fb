/** Regions of an address space, what an address shows, and the two halves of a split. */
module VmRegion {
  import opened Wrappers
  import opened Layout
  import opened VmTree
  import opened VmPages
  import opened VmMove
  import opened VmContract

  /** What the two halves of a split region have in common; the remaining fields travel as rest. */
  datatype Attrs = Attrs(prot: Prot, flags: Flags, backing: Backing, key: nat, rest: nat)

  datatype Region = Region(start: nat, end: nat, attrs: Attrs, phys: nat, fileOffset: nat,
                           committed: nat, resident: nat, pages: PageMap)

  type Regions = map<nat, Region>

  function PageOf(a: nat): nat {
    a - a % PAGE_SIZE
  }

  /** What an address shows: attributes, physical address or page of the file where it has one, page slot. */
  datatype Piece = Piece(attrs: Attrs, phys: Option<nat>, filePage: Option<nat>, page: set<Slot>)

  ghost function PieceAt(r: Region, a: nat): Piece
    requires r.start <= a < r.end
  {
    Piece(r.attrs, if r.attrs.backing == Physical then Some(r.phys + (a - r.start)) else None,
          if r.attrs.backing == File then Some(r.fileOffset + (a - r.start) / PAGE_SIZE) else None,
          set s | s in Entries(r.pages) && s.va == PageOf(a))
  }

  /** A region on page boundaries in user space; its pages lie in it and are counted. */
  ghost predicate RegionOk(r: Region) {
    && IsPageAligned(r.start) && IsPageAligned(r.end) && VM_USER_START <= r.start < r.end <= VM_USER_END
    && Ok(r.pages) && |r.pages.slots| < MAX_U32
    && (forall s | s in Entries(r.pages) :: IsPageAligned(s.va) && r.start <= s.va < r.end)
    && |Committed(Entries(r.pages))| <= r.committed && |Entries(r.pages)| <= r.resident
  }

  /** Entries of the two page maps of a split. */
  ghost predicate Divided(es: set<Slot>, lo: set<Slot>, up: set<Slot>, va: nat) {
    lo == (set s | s in es && s.va < va) && up == (set s | s in es && s.va >= va)
  }

  /** The lower and upper half of a region split at va. */
  function Lower(r: Region, va: nat, committed: nat, resident: nat, pages: PageMap): Region
    requires committed <= r.committed && resident <= r.resident
  {
    r.(end := va, committed := r.committed - committed, resident := r.resident - resident, pages := pages)
  }

  function Upper(r: Region, va: nat, committed: nat, resident: nat, pages: PageMap): Region
    requires r.start <= va
  {
    r.(start := va, phys := if r.attrs.backing == Physical then r.phys + (va - r.start) else 0,
       fileOffset := r.fileOffset + (va - r.start) / PAGE_SIZE, committed := committed, resident := resident,
           pages := pages)
  }

  lemma PagesBetween(x: nat, y: nat, z: nat)
    requires IsPageAligned(x) && IsPageAligned(y) && x <= y <= z
    ensures (y - x) / PAGE_SIZE + (z - y) / PAGE_SIZE == (z - x) / PAGE_SIZE
  {
  }

  /** Every address of a region shows the same after a split. */
  lemma SplitShows(r: Region, va: nat, c: nat, n: nat, lo: PageMap, up: PageMap)
    requires IsPageAligned(r.start) && IsPageAligned(va) && r.start < va < r.end
    requires c <= r.committed && n <= r.resident
    requires Divided(Entries(r.pages), Entries(lo), Entries(up), va)
    ensures forall a | r.start <= a < va :: PieceAt(Lower(r, va, c, n, lo), a) == PieceAt(r, a)
    ensures forall a | va <= a < r.end :: PieceAt(Upper(r, va, c, n, up), a) == PieceAt(r, a)
  {
    hide Entries;
    forall a | r.start <= a < va ensures PieceAt(Lower(r, va, c, n, lo), a) == PieceAt(r, a) {
      assert PageOf(a) < va;
    }
    forall a | va <= a < r.end ensures PieceAt(Upper(r, va, c, n, up), a) == PieceAt(r, a) {
      PagesBetween(r.start, va, a);
      PageBelow(a, va);
    }
  }

  lemma PageBelow(a: nat, va: nat)
    requires IsPageAligned(va) && va <= a
    ensures va <= PageOf(a)
  {
  }

  lemma SplitOk(r: Region, va: nat, c: nat, n: nat, lo: PageMap, up: PageMap)
    requires RegionOk(r) && IsPageAligned(va) && r.start < va < r.end
    requires c <= r.committed && n <= r.resident && Ok(lo) && Ok(up) && |lo.slots| < MAX_U32 && |up.slots| < MAX_U32
    requires Divided(Entries(r.pages), Entries(lo), Entries(up), va)
    requires |Committed(Entries(up))| <= c && |Entries(up)| <= n
    requires |Committed(Entries(r.pages))| - |Committed(Entries(up))| <= r.committed - c
    requires |Entries(r.pages)| - |Entries(up)| <= r.resident - n
    ensures RegionOk(Lower(r, va, c, n, lo)) && RegionOk(Upper(r, va, c, n, up))
  {
    hide Ok, Entries;
    DividedCards(Entries(r.pages), Entries(lo), Entries(up), va);
  }

  lemma DividedCards(es: set<Slot>, lo: set<Slot>, up: set<Slot>, va: nat)
    requires Divided(es, lo, up, va)
    ensures |es| == |lo| + |up| && |Committed(es)| == |Committed(lo)| + |Committed(up)|
  {
    assert es == lo + up && lo !! up;
    assert Committed(es) == Committed(lo) + Committed(up) && Committed(lo) !! Committed(up);
  }

  /** The lower region after vm_join_split. */
  function Joined(l: Region, u: Region, pages: PageMap): Region {
    l.(end := u.end, committed := l.committed + u.committed, resident := l.resident + u.resident, pages := pages)
  }

  /** vm_join_split puts the counters and bounds back exactly. */
  lemma JoinInverts(r: Region, va: nat, c: nat, n: nat, lo: PageMap, up: PageMap, back: PageMap)
    requires r.start < va < r.end && c <= r.committed && n <= r.resident && Entries(back) == Entries(r.pages)
    ensures Joined(Lower(r, va, c, n, lo), Upper(r, va, c, n, up), back) == r.(pages := back)
  {
  }

  function PageCount(start: nat, end: nat): nat
    requires start <= end
  {
    (end - start) / PAGE_SIZE
  }

  /** The share of a counter that goes to the upper half of a region without page slots; never more than all of it. */
  function Share(whole: nat, part: nat, total: nat): (r: nat)
    requires 0 < part <= total
    ensures r <= whole
  {
    ShareFits(whole, part, total);
    (whole * part) / total
  }

  lemma ShareFits(whole: nat, part: nat, total: nat)
    requires 0 < part <= total
    ensures (whole * part) / total <= whole
  {
    assert whole * part <= whole * total;
    var q := (whole * part) / total;
    if q > whole {
      assert false;
    }
  }

  // ---- authorization -------------------------------------------------------------------------

  /** The request for the part of a region in [lo, hi), as the first pass of vm_unmap and vm_protect builds it. */
  function ClipRequest(spaceKey: nat, r: Region, prot: Prot, lo: nat, hi: nat): Request {
    var s, e := if r.start < lo then lo else r.start, if hi < r.end then hi else r.end;
    BuildRequest(spaceKey, s, if e < s then 0 else e - s, prot, r.attrs.flags, r.attrs.backing,
                 if r.attrs.backing == Physical then r.phys + (s - r.start) else r.phys, r.attrs.key)
  }

  function WholeRequest(spaceKey: nat, r: Region, prot: Prot): Request
    requires r.start <= r.end
  {
    BuildRequest(spaceKey, r.start, r.end - r.start, prot, r.attrs.flags, r.attrs.backing, r.phys, r.attrs.key)
  }

  /** p is the part of r in [lo, hi), cut out by splits. */
  ghost predicate PartOf(p: Region, r: Region, lo: nat, hi: nat) {
    && p.start == (if r.start < lo then lo else r.start) && p.end == (if hi < r.end then hi else r.end)
    && p.start < p.end
    && p.attrs == r.attrs
    && p.phys == (if r.attrs.backing == Physical then r.phys + (p.start - r.start)
        else if p.start == r.start then r.phys else 0)
  }

  /** What the first pass granted for a part, the second pass grants for the region cut out of it. */
  lemma SecondPassGrants(spaceKey: nat, r: Region, p: Region, prot: Prot, lo: nat, hi: nat)
    requires PartOf(p, r, lo, hi) && Authorize(ClipRequest(spaceKey, r, prot, lo, hi)).Granted?
    ensures Authorize(WholeRequest(spaceKey, p, prot)).Granted?
  {
  }
}
