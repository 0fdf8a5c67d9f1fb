/**
  Unmapping a range: unmap_range steps by the size of the leaf it finds, counted from where it stands and not from
  where the leaf begins.
 */
module DatUnmap {
  import opened Arith
  import opened DatWord
  import opened DatTree
  import opened DatGraft
  import opened DatLink
  import opened DatPhases
  import opened DatSpace
  import opened DatRange

  // ---- views ------------------------------------------------------------------------------

  /** What every page translates to. */
  type View = nat -> Hit

  /** q lies in the aligned block of level l that p lies in. */
  predicate SameBlock(l: Level, p: nat, q: nat) {
    p - p % Span(l) <= q < p - p % Span(l) + Span(l)
  }

  /** A leaf translates all pages of its block. */
  ghost predicate Blocky(v: View) {
    forall p, q {:trigger v(p), v(q)} | v(p).Hit? && SameBlock(v(p).level, p, q) :: v(q) == v(p)
  }

  /** p is in a leaf, but is not the first page of it. */
  ghost predicate Inside(v: View, p: nat) {
    v(p).Hit? && p % Span(v(p).level) != 0
  }

  /** q is in the leaf that p is in. */
  ghost predicate InLeaf(v: View, q: nat, p: nat) {
    v(p).Hit? && SameBlock(v(p).level, p, q)
  }

  /** First page after the leaf at p. */
  ghost function LeafEnd(v: View, p: nat): nat
    requires v(p).Hit?
  {
    p - p % Span(v(p).level) + Span(v(p).level)
  }

  /** q does not translate, or will be gone with the leaf at p. */
  ghost predicate Past(v: View, q: nat, p: nat, end: nat) {
    v(q) == Miss || (p < end && InLeaf(v, q, p))
  }

  /**
    What makes unmap_range work from va on: if it starts inside a leaf, it skips as many pages behind the leaf.  None
    of these may translate, but for the leaf at which it goes on, and it must go well from there.
   */
  ghost predicate Clears(v: View, va: nat, end: nat)
    decreases end - va
  {
    va < end && Inside(v, va) ==>
      var next := va + Span(v(va).level);
      && (forall q | LeafEnd(v, va) <= q < next && q < end :: Past(v, q, next, end))
      && Clears(v, next, end)
  }

  /** Part of the way: what has been passed is gone, or goes with the leaf at va. */
  ghost predicate Passed(v: View, virt: nat, va: nat, end: nat) {
    && (forall q | virt <= q < va && q < end :: Past(v, q, va, end))
    && Clears(v, va, end)
  }

  /** Within the range, exactly the pages of one leaf have gone. */
  ghost predicate Removed(v: View, v': View, l: Level, va: nat, virt: nat, end: nat) {
    forall q | virt <= q < end :: v'(q) == if SameBlock(l, va, q) then Miss else v(q)
  }

  lemma BlockIs(l: Level, p: nat, q: nat)
    requires SameBlock(l, p, q)
    ensures q - q % Span(l) == p - p % Span(l)
  {
    var b := p - p % Span(l);
    DivUnique(q, Span(l), p / Span(l), q - b);
  }

  /** Behind a page that does not translate no leaf goes on. */
  lemma LeafStarts(v: View, p: nat, next: nat)
    requires Blocky(v) && v(p) == Miss && next == p + 1
    ensures !Inside(v, next) && forall q: nat | q < next :: !InLeaf(v, q, next)
  {
    assert v(next).Hit? ==> !SameBlock(v(next).level, next, p);
  }

  ghost predicate AllMiss(v: View, lo: nat, hi: nat) {
    forall q | lo <= q < hi :: v(q) == Miss
  }

  /** Where no leaf goes on, what has been passed is gone. */
  lemma PassedIsMiss(v: View, virt: nat, va: nat, end: nat)
    requires va < end ==> !Inside(v, va)
    ensures Passed(v, virt, va, end) <==> AllMiss(v, virt, if va < end then va else end)
  {
    forall q | virt <= q < va && q < end ensures Past(v, q, va, end) <==> v(q) == Miss {
    }
    if Passed(v, virt, va, end) {
      forall q | virt <= q < (if va < end then va else end) ensures v(q) == Miss {
        assert Past(v, q, va, end);
      }
    }
  }

  lemma PassedMiss(v: View, virt: nat, va: nat, end: nat)
    requires Blocky(v) && virt <= va < end && v(va) == Miss
    ensures Passed(v, virt, va, end) <==> Passed(v, virt, va + 1, end)
  {
    LeafStarts(v, va, va + 1);
    hide Passed, Blocky;
    PassedIsMiss(v, virt, va, end);
    PassedIsMiss(v, virt, va + 1, end);
  }

  lemma {:induction false} ClearsSame(v: View, v': View, va: nat, end: nat)
    requires forall q | va <= q < end :: v'(q) == v(q)
    ensures Clears(v, va, end) <==> Clears(v', va, end)
    decreases end - va
  {
    if va < end && Inside(v, va) {
      var next := va + Span(v(va).level);
      ClearsSame(v, v', next, end);
      forall q | LeafEnd(v, va) <= q < next && q < end ensures Past(v, q, next, end) <==> Past(v', q, next, end) {
      }
      hide Past;
    }
  }

  lemma PassedAligned(v: View, v': View, virt: nat, va: nat, end: nat)
    requires Blocky(v) && Blocky(v') && virt <= va < end && v(va).Hit? && !Inside(v, va)
    requires Removed(v, v', v(va).level, va, virt, end)
    ensures Passed(v, virt, va, end) <==> Passed(v', virt, va + Span(v(va).level), end)
  {
    var next := va + Span(v(va).level);
    var stop := if next < end then next else end;
    hide *;
    AlignedGone(v, v', virt, va, stop, end);
    PassedIsMiss(v, virt, va, end);
    PassedIsMiss(v', virt, next, end);
  }

  lemma AlignedGone(v: View, v': View, virt: nat, va: nat, stop: nat, end: nat)
    requires Blocky(v) && Blocky(v') && virt <= va < end && v(va).Hit? && !Inside(v, va)
    requires Removed(v, v', v(va).level, va, virt, end)
    requires stop == if va + Span(v(va).level) < end then va + Span(v(va).level) else end
    ensures stop < end ==> !Inside(v', stop)
    ensures AllMiss(v, virt, va) <==> AllMiss(v', virt, stop)
  {
    assert forall q | virt <= q < stop :: v'(q) == if q < va then v(q) else Miss;
    if stop < end {
      LeafStarts(v', stop - 1, stop);
    }
    hide Span, Blocky, Removed;
  }

  lemma PassedAt(v: View, v': View, virt: nat, va: nat, end: nat, q: nat)
    requires Blocky(v) && Blocky(v') && virt <= va < end && Inside(v, va)
    requires Removed(v, v', v(va).level, va, virt, end) && virt <= q < va + Span(v(va).level) && q < end
    ensures var next := va + Span(v(va).level);
            Past(v', q, next, end)
            <==> if q < va then Past(v, q, va, end) else q < LeafEnd(v, va) || Past(v, q, next, end)
  {
    var e, next := LeafEnd(v, va), va + Span(v(va).level);
    assert next < end ==> v'(e - 1) == Miss;
    assert next < end && q < e && InLeaf(v', q, next) ==> SameBlock(v'(next).level, next, e - 1);
  }

  lemma PassedInside(v: View, v': View, virt: nat, va: nat, end: nat)
    requires Blocky(v) && Blocky(v') && virt <= va < end && Inside(v, va)
    requires Removed(v, v', v(va).level, va, virt, end)
    ensures Passed(v, virt, va, end) <==> Passed(v', virt, va + Span(v(va).level), end)
  {
    hide Blocky, Removed, Past, SameBlock, InLeaf, Span;
    var next, e := va + Span(v(va).level), LeafEnd(v, va);
    RestSame(v, v', virt, va, end);
    forall q | virt <= q < next && q < end
      ensures Past(v', q, next, end) <==> if q < va then Past(v, q, va, end) else q < e || Past(v, q, next, end)
    {
      PassedAt(v, v', virt, va, end, q);
    }
    if Passed(v', virt, next, end) {
      forall q | virt <= q < va && q < end ensures Past(v, q, va, end) {
        assert Past(v', q, next, end);
      }
      forall q | e <= q < next && q < end ensures Past(v, q, next, end) {
        assert Past(v', q, next, end);
      }
    }
  }

  lemma RestSame(v: View, v': View, virt: nat, va: nat, end: nat)
    requires virt <= va < end && Inside(v, va) && Removed(v, v', v(va).level, va, virt, end)
    ensures var next := va + Span(v(va).level);
            LeafEnd(v, va) > va && (Clears(v, next, end) <==> Clears(v', next, end))
  {
    ClearsSame(v, v', va + Span(v(va).level), end);
  }

  /** A range that begins where a leaf begins, or where nothing is mapped, is cleared. */
  lemma ClearsFromStart(v: View, virt: nat, end: nat)
    requires !Inside(v, virt)
    ensures Clears(v, virt, end)
  {
  }

  /**
    A start is good for ranges of every length exactly if it is not inside a leaf, or if as many pages behind the leaf
    do not translate as there are pages of the leaf before the start.
   */
  lemma GoodStart(v: View, virt: nat)
    requires Blocky(v)
    ensures AlwaysClears(v, virt) <==> (Inside(v, virt) ==> SkippedFree(v, virt))
  {
    hide Clears, SkippedFree, Blocky;
    if Inside(v, virt) {
      if AlwaysClears(v, virt) {
        ClearsOnlyIf(v, virt);
      }
      if SkippedFree(v, virt) {
        forall end: nat ensures Clears(v, virt, end) {
          ClearsBehind(v, virt, end);
        }
      }
    } else {
      forall end: nat ensures Clears(v, virt, end) {
        ClearsFromStart(v, virt, end);
      }
    }
  }

  ghost predicate AlwaysClears(v: View, virt: nat) {
    forall end: nat :: Clears(v, virt, end)
  }

  /** The pages that would be skipped do not translate. */
  ghost predicate SkippedFree(v: View, virt: nat)
    requires v(virt).Hit?
  {
    AllMiss(v, LeafEnd(v, virt), virt + Span(v(virt).level))
  }

  lemma ClearsOnlyIf(v: View, virt: nat)
    requires Inside(v, virt) && Clears(v, virt, virt + Span(v(virt).level))
    ensures SkippedFree(v, virt)
  {
    var next := virt + Span(v(virt).level);
    forall q | LeafEnd(v, virt) <= q < next ensures v(q) == Miss {
      assert Past(v, q, next, next);
    }
  }

  lemma ClearsBehind(v: View, virt: nat, end: nat)
    requires Blocky(v) && Inside(v, virt) && SkippedFree(v, virt)
    ensures Clears(v, virt, end)
  {
    var next := virt + Span(v(virt).level);
    LeafStarts(v, next - 1, next);
    ClearsFromStart(v, next, end);
  }

  // ---- views of a tree ----------------------------------------------------------------------

  ghost function ViewOf(t: Tables, root: nat, top: Level): View {
    (p: nat) => Lookup(t, root, top, WayOf(p))
  }

  lemma {:induction false} LeafIsUniform(t: Tables, f: nat, l: Level, u: Way, v: Way)
    requires Lookup(t, f, l, u).Hit? && SameEntry(l, Lookup(t, f, l, u).level, u, v)
    ensures Lookup(t, f, l, v) == Lookup(t, f, l, u)
    decreases PAGE - l
  {
    var k := Lookup(t, f, l, u).level;
    SameEntryAbove(l, k, u, v);
    assert u[l] == v[l] && f in t && |t[f]| == Entries(l);
    if l < k {
      assert u[l + 1..k + 1] == u[l..k + 1][1..] && v[l + 1..k + 1] == v[l..k + 1][1..];
      LeafIsUniform(t, t[f][u[l]].origin, l + 1, u, v);
    }
  }

  lemma BlockEntry(top: Level, l: Level, p: nat, q: nat)
    requires top <= l && SameBlock(l, p, q)
    ensures SameEntry(top, l, WayOf(p), WayOf(q))
  {
    var b := p - p % Span(l);
    RoundDown(Span(l), p);
    var s := Leaf(l, b, LeafWord(PAGE, 0, NO_PROT));
    BlockCovered(top, s, p);
    BlockCovered(top, s, q);
  }

  lemma ViewIsBlocky(t: Tables, root: nat, top: Level)
    ensures Blocky(ViewOf(t, root, top))
  {
    var v := ViewOf(t, root, top);
    forall p, q {:trigger v(p), v(q)} | v(p).Hit? && SameBlock(v(p).level, p, q) ensures v(q) == v(p) {
      BlockEntry(top, v(p).level, p, q);
      LeafIsUniform(t, root, top, WayOf(p), WayOf(q));
    }
  }

  /** Number of pages that a tree of this height tells apart. */
  function Reach(top: Level): (n: nat)
    ensures n > 0
  {
    Span(top) * Entries(top)
  }

  ghost predicate InReach(top: Level, virt: nat, end: nat) {
    forall p, q | virt <= p < end && virt <= q < end :: p / Reach(top) == q / Reach(top)
  }

  lemma EntryBlock(top: Level, l: Level, p: nat, q: nat)
    requires top <= l && p / Reach(top) == q / Reach(top) && SameEntry(top, l, WayOf(p), WayOf(q))
    ensures p / Span(l) == q / Span(l)
    decreases l
  {
    SameEntryAbove(top, l, WayOf(p), WayOf(q));
    var n := Entries(l);
    DivDiv(p, Span(l), n);
    DivDiv(q, Span(l), n);
    if l > top {
      assert SameEntry(top, l - 1, WayOf(p), WayOf(q));
      EntryBlock(top, l - 1, p, q);
      assert Span(l) * n == Span(l - 1);
    }
    assert (p / Span(l)) % n == (q / Span(l)) % n && (p / Span(l)) / n == (q / Span(l)) / n;
  }

  lemma UnmapRemoves(t: Tables, t': Tables, root: nat, top: Level, l: Level, va: nat, virt: nat, end: nat)
    requires top <= l && Updated(t, t', root, top, l, WayOf(va), Miss) && InReach(top, virt, end) && virt <= va < end
    ensures Removed(ViewOf(t, root, top), ViewOf(t', root, top), l, va, virt, end)
  {
    forall q | virt <= q < end
      ensures ViewOf(t', root, top)(q) == if SameBlock(l, va, q) then Miss else ViewOf(t, root, top)(q)
    {
      if SameBlock(l, va, q) {
        BlockIs(l, va, q);
        assert SameBlock(l, q, va);
        BlockEntry(top, l, q, va);
      } else if SameEntry(top, l, WayOf(q), WayOf(va)) {
        EntryBlock(top, l, q, va);
      }
    }
  }

  // ---- unmap_range --------------------------------------------------------------------------

  /** Translations only go, and whatever goes is the leaf of a page of the range. */
  ghost predicate OnlyLeaves(t0: Tables, t: Tables, root: nat, top: Level, virt: nat, end: nat) {
    forall v: Way {:trigger Lookup(t, root, top, v)} | Lookup(t, root, top, v) != Lookup(t0, root, top, v) ::
      Lookup(t, root, top, v) == Miss && exists q: nat :: virt <= q < end && LeafHas(t0, root, top, q, v)
  }

  /** The way leads into the leaf that translates page q. */
  ghost predicate LeafHas(t: Tables, root: nat, top: Level, q: nat, v: Way) {
    var h := Lookup(t, root, top, WayOf(q));
    h.Hit? && SameEntry(top, h.level, v, WayOf(q))
  }

  lemma OnlyLeavesStep(t0: Tables, t: Tables, t': Tables, root: nat, top: Level, virt: nat, end: nat, va: nat, l: Level)
    requires OnlyLeaves(t0, t, root, top, virt, end) && virt <= va < end && top <= l
    requires Lookup(t, root, top, WayOf(va)).Hit? && Lookup(t, root, top, WayOf(va)).level == l
    requires Updated(t, t', root, top, l, WayOf(va), Miss)
    ensures OnlyLeaves(t0, t', root, top, virt, end)
  {
    forall v: Way {:trigger Lookup(t', root, top, v)} | Lookup(t', root, top, v) != Lookup(t0, root, top, v)
      ensures Lookup(t', root, top, v) == Miss && exists q: nat :: virt <= q < end && LeafHas(t0, root, top, q, v)
    {
      assert Lookup(t, root, top, WayOf(va)) == Lookup(t0, root, top, WayOf(va));
      if SameEntry(top, l, v, WayOf(va)) {
        assert LeafHas(t0, root, top, va, v);
      } else {
        assert Lookup(t', root, top, v) == Lookup(t, root, top, v);
      }
    }
  }

  /** One step of the loop: the leaf at va goes, whatever part of it lies in the range. */
  lemma RangeStep(t: Tables, t': Tables, root: nat, top: Level, virt: nat, va: nat, end: nat, l: Level)
    requires InReach(top, virt, end) && virt <= va < end && top <= l
    requires ViewOf(t, root, top)(va).Hit? && ViewOf(t, root, top)(va).level == l
    requires Updated(t, t', root, top, l, WayOf(va), Miss)
    ensures Passed(ViewOf(t, root, top), virt, va, end) <==> Passed(ViewOf(t', root, top), virt, va + Span(l), end)
  {
    hide *;
    ViewIsBlocky(t, root, top);
    ViewIsBlocky(t', root, top);
    UnmapRemoves(t, t', root, top, l, va, virt, end);
    PassedHit(ViewOf(t, root, top), ViewOf(t', root, top), virt, va, end);
  }

  lemma PassedHit(v: View, v': View, virt: nat, va: nat, end: nat)
    requires Blocky(v) && Blocky(v') && virt <= va < end && v(va).Hit? && Removed(v, v', v(va).level, va, virt, end)
    ensures Passed(v, virt, va, end) <==> Passed(v', virt, va + Span(v(va).level), end)
  {
    hide Passed, Blocky, Removed;
    if Inside(v, va) {
      PassedInside(v, v', virt, va, end);
    } else {
      PassedAligned(v, v', virt, va, end);
    }
  }

  lemma RangeSkip(t: Tables, root: nat, top: Level, virt: nat, va: nat, end: nat)
    requires virt <= va < end && ViewOf(t, root, top)(va) == Miss
    ensures Passed(ViewOf(t, root, top), virt, va, end) <==> Passed(ViewOf(t, root, top), virt, va + 1, end)
  {
    ViewIsBlocky(t, root, top);
    PassedMiss(ViewOf(t, root, top), virt, va, end);
  }

  lemma RangeStart(v: View, virt: nat, end: nat)
    ensures Passed(v, virt, virt, end) <==> Clears(v, virt, end)
  {
  }

  lemma RangeEnd(v: View, virt: nat, va: nat, end: nat)
    requires va >= end
    ensures Passed(v, virt, va, end) <==> AllMiss(v, virt, end)
  {
    PassedIsMiss(v, virt, va, end);
  }

  /**
    unmap_range, in pages.  No page of the range translates afterwards exactly if Clears holds before, which it does
    for every range that does not start inside a leaf.
   */
  method UnmapRange(s: Space, virt: nat, len: nat) returns (unmapped: nat)
    requires s.Valid()
    modifies s`tables, s`at
    ensures s.Valid() && (old(s.Tight()) ==> s.Tight())
    ensures OnlyLeaves(old(s.tables), s.tables, s.root, s.top, virt, virt + len)
    ensures unmapped == 0 ==> s.tables == old(s.tables)
    ensures InReach(s.top, virt, virt + len) ==>
              (AllMiss(ViewOf(s.tables, s.root, s.top), virt, virt + len)
               <==> Clears(ViewOf(old(s.tables), s.root, s.top), virt, virt + len))
  {
    hide Wf, NoBlankBut, Extends, Updated, Uniform, Passed, Clears, InReach, OnlyLeaves, Span;
    ghost var t0, end := s.tables, virt + len;
    RangeStart(ViewOf(t0, s.root, s.top), virt, end);
    OnlyLeavesStart(t0, s.root, s.top, virt, end);
    unmapped := 0;
    var va := virt;
    while va < virt + len
      invariant virt <= va && s.Valid() && (old(s.Tight()) ==> s.Tight())
      invariant OnlyLeaves(t0, s.tables, s.root, s.top, virt, end) && (unmapped == 0 ==> s.tables == t0)
      invariant InReach(s.top, virt, end) ==>
                  (Passed(ViewOf(s.tables, s.root, s.top), virt, va, end) <==>
                      Clears(ViewOf(t0, s.root, s.top), virt, end))
    {
      ghost var t, h := s.tables, s.Translate(WayOf(va));
      var r := s.Unmap(va);
      if r.Ok? {
        OnlyLeavesStep(t0, t, s.tables, s.root, s.top, virt, end, va, h.level);
        if InReach(s.top, virt, end) {
          RangeStep(t, s.tables, s.root, s.top, virt, va, end, h.level);
        }
        unmapped := unmapped + r.value;
        va := va + r.value;
      } else {
        RangeSkip(t, s.root, s.top, virt, va, end);
        va := va + 1;
      }
    }
    RangeEnd(ViewOf(s.tables, s.root, s.top), virt, va, end);
  }

  lemma OnlyLeavesStart(t: Tables, root: nat, top: Level, virt: nat, end: nat)
    ensures OnlyLeaves(t, t, root, top, virt, end)
  {
  }

  /** A leaf of 1 MiB at pages 0 to 255, and a leaf at page 256: a range from page 1 to page 256 is not cleared. */
  lemma NotCleared(v: View)
    requires v(1).Hit? && v(1).level == SEGMENT && v(256).Hit?
    ensures !Clears(v, 1, 257)
  {
    assert LeafEnd(v, 1) == 256;
    assert !Past(v, 256, 257, 257);
  }

  lemma LowPages(top: Level)
    requires top <= REGION_3
    ensures InReach(top, 1, 257)
  {
    forall p: nat | p < 257 ensures p / Reach(top) == 0 {
      DivUnique(p, Reach(top), 0, p);
    }
  }

  /** So after unmapping that range some page of it still translates. */
  method SkipsPage(s: Space) returns (made: bool)
    requires s.Valid() && s.top <= REGION_3 && forall way: Way :: s.Translate(way) == Miss
    modifies s`tables, s`at, s`refused
    ensures made ==> exists q :: 1 <= q < 257 && ViewOf(s.tables, s.root, s.top)(q).Hit?
  {
    made := MapBoth(s);
    if made {
      NotCleared(ViewOf(s.tables, s.root, s.top));
      LowPages(s.top);
      var u := UnmapRange(s, 1, 256);
    }
  }

  method MapBoth(s: Space) returns (made: bool)
    requires s.Valid() && s.top <= REGION_3 && forall way: Way :: s.Translate(way) == Miss
    modifies s`tables, s`at, s`refused
    ensures s.Valid()
    ensures made ==> var v := ViewOf(s.tables, s.root, s.top); v(1).Hit? && v(1).level == SEGMENT && v(256).Hit?
  {
    made := false;
    hide Wf, NoBlankBut, Extends, LeafWord;
    BlockEntry(s.top, SEGMENT, 1, 0);
    SameEntryRefl(s.top, PAGE, WayOf(256));
    var m := s.MapLeaf(SEGMENT, 0, 0x1_0000, NO_PROT);
    if m.Err? {
      return;
    }
    var n := s.MapLeaf(PAGE, 256, 7, NO_PROT);
    if n.Err? {
      return;
    }
    made := true;
    NotThere(s.top);
  }

  lemma NotThere(top: Level)
    requires top <= PAGE
    ensures !SameEntry(top, PAGE, WayOf(1), WayOf(256))
  {
    assert WayOf(1)[top..5][4 - top] == WayOf(1)[4] == 1 && WayOf(256)[top..5][4 - top] == WayOf(256)[4] == 0;
  }
}
