/** The top-down search for room for a new mapping. */
module VmGap {
  import opened Layout
  import opened VmTree
  import opened Arith

  datatype GapResult = Gap(va: nat) | InvalidArg | OutOfMemory

  /** 64-bit subtraction. */
  function Sub64(a: nat, b: nat): nat {
    (a - b) % TWO64
  }

  /** x & ~(align - 1), for a power of two; an alignment of 0 means none. */
  function AlignDown(x: nat, align: nat): nat {
    if align == 0 then x else x - x % align
  }

  predicate IsAligned(x: nat, align: nat) {
    align == 0 || x % align == 0
  }

  lemma AlignDownIsHighest(x: nat, align: nat)
    ensures AlignDown(x, align) <= x && IsAligned(AlignDown(x, align), align)
    ensures forall a: nat | a <= x && IsAligned(a, align) :: a <= AlignDown(x, align)
  {
    if align > 0 {
      RoundDown(align, x);
      var down := x - x % align;
      forall a: nat | a <= x && a % align == 0 ensures a <= down {
        if down < a {
          NextAligned(align, down, a);
        }
      }
    }
  }

  /** [a, a + size) is aligned, lies in the range searched, and meets no region. */
  ghost predicate Fits(order: seq<nat>, spans: Spans, base: nat, size: nat, align: nat, a: nat)
    requires Ordered(order, spans)
  {
    && IsAligned(a, align) && VM_USER_START <= a && a + size <= base
    && forall i | 0 <= i < |order| :: a + size <= spans[order[i]].start || spans[order[i]].end <= a
  }

  /** Gap i of k + 1: below region i, or below the base, and above region i - 1, or above the floor. */
  function GapEnd(order: seq<nat>, spans: Spans, base: nat, k: nat, i: nat): nat
    requires i <= k <= |order| && forall j | 0 <= j < |order| :: order[j] in spans
  {
    if i == k then base else spans[order[i]].start
  }

  function GapStart(order: seq<nat>, spans: Spans, i: nat): nat
    requires i <= |order| && forall j | 0 <= j < |order| :: order[j] in spans
  {
    if i == 0 then VM_USER_START else spans[order[i - 1]].end
  }

  /** Gap i is not empty, but ends at an address smaller than the size asked for. */
  ghost predicate Narrow(order: seq<nat>, spans: Spans, base: nat, k: nat, size: nat, i: nat)
    requires i <= k <= |order| && forall j | 0 <= j < |order| :: order[j] in spans
  {
    GapStart(order, spans, i) < GapEnd(order, spans, base, k, i) < size
  }

  /** Everything is a multiple of the page size, as callers see to it. */
  ghost predicate Paged(order: seq<nat>, spans: Spans, base: nat, size: nat, align: nat)
    requires Ordered(order, spans)
  {
    && align == PAGE_SIZE && base % PAGE_SIZE == 0 && size % PAGE_SIZE == 0
    && forall i | 0 <= i < |order| :: spans[order[i]].start % PAGE_SIZE == 0 && VM_USER_START <= spans[order[i]].start
  }

  /** Nothing fits above position k: any fit lies below the end of gap k. */
  ghost predicate Below(order: seq<nat>, spans: Spans, base: nat, size: nat, align: nat, end: nat)
    requires Ordered(order, spans)
  {
    forall a: nat | Fits(order, spans, base, size, align, a) :: a + size <= end
  }

  lemma StepDown(order: seq<nat>, spans: Spans, base: nat, k0: nat, size: nat, align: nat, k: nat, end: nat)
    requires Ordered(order, spans) && 0 < k <= k0 <= |order| && 0 < size
    requires end == GapEnd(order, spans, base, k0, k) && Below(order, spans, base, size, align, end)
    requires forall i | k0 <= i < |order| :: spans[order[i]].start >= base
    requires var s := spans[order[k - 1]];
             s.end < end && size <= end ==>
               var a := AlignDown(end - size, align); !(a >= s.end && a >= VM_USER_START)
    ensures Below(order, spans, base, size, align, spans[order[k - 1]].start)
  {
    var s := spans[order[k - 1]];
    forall a: nat | Fits(order, spans, base, size, align, a) ensures a + size <= s.start {
      if a >= s.end {
        AlignDownIsHighest(end - size, align);
      }
    }
  }

  lemma FitsHere(order: seq<nat>, spans: Spans, base: nat, k0: nat, size: nat, align: nat, k: nat, end: nat)
    requires Ordered(order, spans) && k <= k0 <= |order| && 0 < size <= end
    requires forall i | 0 <= i < |order| :: spans[order[i]].start < base <==> i < k0
    requires end == GapEnd(order, spans, base, k0, k) && Below(order, spans, base, size, align, end)
    requires var a := AlignDown(end - size, align); a >= VM_USER_START && a >= GapStart(order, spans, k)
    ensures var a := AlignDown(end - size, align);
            && Fits(order, spans, base, size, align, a)
            && forall b: nat | Fits(order, spans, base, size, align, b) :: b <= a
  {
    AlignDownIsHighest(end - size, align);
    var a := AlignDown(end - size, align);
    forall i | 0 <= i < |order| ensures a + size <= spans[order[i]].start || spans[order[i]].end <= a {
      assert i < k ==> spans[order[i]].end <= spans[order[k - 1]].end;
    }
  }

  lemma WrapIsTaken(end: nat, size: nat, floor: nat)
    requires end % PAGE_SIZE == 0 && size % PAGE_SIZE == 0 && floor < end < size < TWO64
    ensures var a := AlignDown(Sub64(end, size), PAGE_SIZE);
            a == TWO64 + end - size && a >= floor && (a + size) % TWO64 == end
  {
    assert (end - size) % TWO64 == end - size + TWO64;
    assert TWO64 % PAGE_SIZE == 0;
  }

  /**
    vm_find_gap.  If anything fits, the highest fit is returned.  If nothing does, the search fails,
    unless some gap ends below the size asked for: there the subtraction wraps.
   */
  method FindGap(t: Tree, spans: Spans, base: nat, size: nat, align: nat) returns (r: GapResult, ghost k0: nat)
    requires Ordered(InOrder(t), spans) && base < TWO64 && size < TWO64
    ensures k0 <= |InOrder(t)| && forall i | 0 <= i < |InOrder(t)| :: spans[InOrder(t)[i]].start < base <==> i < k0
    ensures r == InvalidArg <==> size == 0
    ensures r.Gap? ==> r.va < TWO64
    ensures size > 0 ==> forall a: nat | Fits(InOrder(t), spans, base, size, align, a) ::
              r.Gap? && a <= r.va && Fits(InOrder(t), spans, base, size, align, r.va)
    ensures size > 0 && (forall i | 0 <= i <= k0 :: !Narrow(InOrder(t), spans, base, k0, size, i)) ==>
              (r.Gap? <==> exists a: nat :: Fits(InOrder(t), spans, base, size, align, a))
    ensures r.Gap? && Paged(InOrder(t), spans, base, size, align) ==>
              Fits(InOrder(t), spans, base, size, align, r.va) || r.va + size >= TWO64
    ensures r.OutOfMemory? && Paged(InOrder(t), spans, base, size, align) ==>
              forall i | 0 <= i <= k0 :: !Narrow(InOrder(t), spans, base, k0, size, i)
  {
    hide *;
    var order := InOrder(t);
    var k := CountBelow(t, spans, base);
    k0 := k;
    if size == 0 {
      return InvalidArg, k0;
    }
    SearchStart(order, spans, base, k0, size, align);
    var gapEnd: nat := base;
    while k > 0
      invariant Searching(order, spans, base, k0, size, align, k, gapEnd)
    {
      GapAbove(order, spans, k);
      var s := spans[order[k - 1]];
      if gapEnd > s.end {
        var start := AlignDown(Sub64(gapEnd, size), align);
        if start >= s.end && start >= VM_USER_START {
          StartIsWord(gapEnd, size, align);
          SearchHit(order, spans, base, k0, size, align, k, gapEnd);
          return Gap(start), k0;
        }
      }
      SearchStep(order, spans, base, k0, size, align, k, gapEnd);
      gapEnd := s.start;
      k := k - 1;
    }
    if gapEnd > VM_USER_START {
      var start := AlignDown(Sub64(gapEnd, size), align);
      if start >= VM_USER_START && (start + size) % TWO64 <= gapEnd {
        StartIsWord(gapEnd, size, align);
        FloorGap(order, spans);
        SearchHit(order, spans, base, k0, size, align, k, gapEnd);
        return Gap(start), k0;
      }
    }
    SearchEnd(order, spans, base, k0, size, align, gapEnd);
    return OutOfMemory, k0;
  }

  lemma StartIsWord(end: nat, size: nat, align: nat)
    ensures AlignDown(Sub64(end, size), align) < TWO64
  {
    AlignDownIsHighest(Sub64(end, size), align);
  }

  lemma FloorGap(order: seq<nat>, spans: Spans)
    requires Ordered(order, spans)
    ensures GapStart(order, spans, 0) == VM_USER_START
  {
  }

  lemma GapAbove(order: seq<nat>, spans: Spans, k: nat)
    requires Ordered(order, spans) && 0 < k <= |order|
    ensures order[k - 1] in spans && GapStart(order, spans, k) == spans[order[k - 1]].end
  {
  }

  /** State of the search: gaps above k have been tried in vain. */
  ghost predicate Searching(order: seq<nat>, spans: Spans, base: nat, k0: nat, size: nat, align: nat, k: nat,
                            end: nat) {
    && Ordered(order, spans) && k <= k0 <= |order| && 0 < size < TWO64 && base < TWO64 && end <= base
    && (forall i | 0 <= i < |order| :: spans[order[i]].start < base <==> i < k0)
    && end == GapEnd(order, spans, base, k0, k) && Below(order, spans, base, size, align, end)
    && (Paged(order, spans, base, size, align) ==> forall i | k < i <= k0 :: !Narrow(order, spans, base, k0, size, i))
  }

  lemma SearchStart(order: seq<nat>, spans: Spans, base: nat, k0: nat, size: nat, align: nat)
    requires Ordered(order, spans) && k0 <= |order| && 0 < size < TWO64 && base < TWO64
    requires forall i | 0 <= i < |order| :: spans[order[i]].start < base <==> i < k0
    ensures Searching(order, spans, base, k0, size, align, k0, base)
  {
  }

  lemma SearchHit(order: seq<nat>, spans: Spans, base: nat, k0: nat, size: nat, align: nat, k: nat, end: nat)
    requires Searching(order, spans, base, k0, size, align, k, end) && GapStart(order, spans, k) < end
    requires var a := AlignDown(Sub64(end, size), align); a >= VM_USER_START && a >= GapStart(order, spans, k)
    ensures var a := AlignDown(Sub64(end, size), align);
            if size <= end then
              && Fits(order, spans, base, size, align, a)
              && forall b: nat | Fits(order, spans, base, size, align, b) :: b <= a
            else
              && Narrow(order, spans, base, k0, size, k)
              && (forall b: nat :: !Fits(order, spans, base, size, align, b))
              && (Paged(order, spans, base, size, align) ==> a + size >= TWO64)
  {
    if size > end && Paged(order, spans, base, size, align) {
      WrapIsTaken(end, size, GapStart(order, spans, k));
    }
    if size <= end {
      assert Sub64(end, size) == end - size;
      FitsHere(order, spans, base, k0, size, align, k, end);
    }
  }

  lemma SearchStep(order: seq<nat>, spans: Spans, base: nat, k0: nat, size: nat, align: nat, k: nat, end: nat)
    requires Searching(order, spans, base, k0, size, align, k, end) && k > 0
    requires var s := spans[order[k - 1]];
             s.end < end ==>
               var a := AlignDown(Sub64(end, size), align); !(a >= s.end && a >= VM_USER_START)
    ensures Searching(order, spans, base, k0, size, align, k - 1, spans[order[k - 1]].start)
  {
    var s := spans[order[k - 1]];
    if s.end < end && size <= end {
      assert Sub64(end, size) == end - size;
    }
    StepDown(order, spans, base, k0, size, align, k, end);
    if Paged(order, spans, base, size, align) && Narrow(order, spans, base, k0, size, k) {
      WrapIsTaken(end, size, s.end);
      assert false;
    }
  }

  lemma SearchEnd(order: seq<nat>, spans: Spans, base: nat, k0: nat, size: nat, align: nat, end: nat)
    requires Searching(order, spans, base, k0, size, align, 0, end)
    requires end > VM_USER_START ==>
               var a := AlignDown(Sub64(end, size), align); !(a >= VM_USER_START && (a + size) % TWO64 <= end)
    ensures forall a: nat :: !Fits(order, spans, base, size, align, a)
    ensures Paged(order, spans, base, size, align) ==>
              forall i | 0 <= i <= k0 :: !Narrow(order, spans, base, k0, size, i)
  {
    if end > VM_USER_START && size <= end {
      assert Sub64(end, size) == end - size;
      AlignDownIsHighest(end - size, align);
    }
    if Paged(order, spans, base, size, align) && Narrow(order, spans, base, k0, size, 0) {
      WrapIsTaken(end, size, VM_USER_START);
      assert false;
    }
  }

  /** Six megabytes asked for, one free below a region that fills the rest: the search returns a wrapped address. */
  lemma WrapExample()
    ensures var spans: Spans := map[7 := Span(0x50_0000, 0x40_0000_0000)];
            && Ordered([7], spans) && Paged([7], spans, 0x40_0000_0000, 0x60_0000, PAGE_SIZE)
            && Narrow([7], spans, 0x40_0000_0000, 1, 0x60_0000, 0)
            && forall a: nat :: !Fits([7], spans, 0x40_0000_0000, 0x60_0000, PAGE_SIZE, a)
  {
    var spans: Spans := map[7 := Span(0x50_0000, 0x40_0000_0000)];
    forall a: nat ensures !Fits([7], spans, 0x40_0000_0000, 0x60_0000, PAGE_SIZE, a) {
      assert spans[[7][0]] == Span(0x50_0000, 0x40_0000_0000);
    }
  }
}
