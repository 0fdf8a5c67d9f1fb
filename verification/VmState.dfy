/** The regions of a space as a whole: order, totals, links, and what addresses show. */
module VmState {
  import opened Wrappers
  import opened VmTree
  import opened VmPages
  import opened Rmap
  import opened VmMove
  import opened VmContract
  import opened VmRegion

  function SpansOf(regions: Regions): Spans {
    map id | id in regions :: Span(regions[id].start, regions[id].end)
  }

  /** The order lists exactly the regions, which lie apart; each is well formed and exactly linked. */
  ghost predicate SpaceOk(order: seq<nat>, regions: Regions, chains: Chains) {
    && (forall id :: id in order <==> id in regions)
    && Ordered(order, SpansOf(regions))
    && (forall id {:trigger RegionOk(regions[id])} | id in regions :: RegionOk(regions[id]))
    && (forall id {:trigger Exact(chains, id, regions[id].pages)} | id in regions ::
        Exact(chains, id, regions[id].pages))
  }

  lemma OrderedHas(order: seq<nat>, regions: Regions)
    requires Ordered(order, SpansOf(regions))
    ensures forall i | 0 <= i < |order| :: order[i] in regions && regions[order[i]].start < regions[order[i]].end
    ensures forall i, j | 0 <= i < j < |order| ::
              regions[order[i]].end <= regions[order[j]].start && order[i] != order[j]
  {
    forall i, j | 0 <= i < j < |order|
      ensures regions[order[i]].end <= regions[order[j]].start && order[i] != order[j]
    {
      var s := SpansOf(regions);
      assert s[order[i]].end <= s[order[j]].start && s[order[i]].start < s[order[i]].end
          && s[order[j]].start < s[order[j]].end;
    }
    forall i | 0 <= i < |order| ensures order[i] in regions && regions[order[i]].start < regions[order[i]].end {
      assert order[i] in SpansOf(regions);
    }
  }

  /** Two regions that share an address are the same. */
  lemma OneRegion(order: seq<nat>, regions: Regions, chains: Chains, a: nat, x: nat, y: nat)
    requires SpaceOk(order, regions, chains) && x in regions && y in regions
    requires regions[x].start <= a < regions[x].end && regions[y].start <= a < regions[y].end
    ensures x == y
  {
    OrderedHas(order, regions);
    var i :| 0 <= i < |order| && order[i] == x;
    var j :| 0 <= j < |order| && order[j] == y;
  }

  // ---- what addresses show ------------------------------------------------------------------

  ghost predicate Shows(regions: Regions, a: nat, p: Piece) {
    exists id :: id in regions && regions[id].start <= a < regions[id].end && PieceAt(regions[id], a) == p
  }

  ghost predicate SameView(before: Regions, regions: Regions) {
    forall a: nat, p: Piece {:trigger Shows(regions, a, p)} :: Shows(regions, a, p) <==> Shows(before, a, p)
  }

  /** Exactly the addresses in [lo, hi) are gone. */
  ghost predicate Removed(before: Regions, regions: Regions, lo: nat, hi: nat) {
    forall a: nat, p: Piece {:trigger Shows(regions, a, p)} :: Shows(regions, a, p) <==>
        Shows(before, a, p) && !(lo <= a < hi)
  }

  /** l and u are the halves of r split at va. */
  ghost predicate SplitInto(r: Region, va: nat, l: Region, u: Region) {
    && RegionOk(r) && RegionOk(l) && RegionOk(u) && IsPageAligned(va) && r.start < va < r.end
    && Divided(Entries(r.pages), Entries(l.pages), Entries(u.pages), va)
    && u.committed <= r.committed && u.resident <= r.resident && |l.pages.slots| == |r.pages.slots|
    && l == Lower(r, va, u.committed, u.resident, l.pages)
    && u == Upper(r, va, u.committed, u.resident, u.pages)
  }

  lemma SplitView(regions: Regions, id: nat, x: nat, va: nat, l: Region, u: Region)
    requires id in regions && x !in regions && SplitInto(regions[id], va, l, u)
    ensures SameView(regions, regions[id := l][x := u])
  {
    var r, regions' := regions[id], regions[id := l][x := u];
    SplitShows(r, va, u.committed, u.resident, l.pages, u.pages);
    hide PieceAt, Entries, RegionOk, Divided;
    forall a: nat, p: Piece {:trigger Shows(regions', a, p)} ensures Shows(regions', a, p) <==> Shows(regions, a, p) {
      if Shows(regions', a, p) {
        var y :| y in regions' && regions'[y].start <= a < regions'[y].end && PieceAt(regions'[y], a) == p;
        var z := if y == x then id else y;
        assert z in regions && regions[z].start <= a < regions[z].end && PieceAt(regions[z], a) == p;
      }
      if Shows(regions, a, p) {
        var y :| y in regions && regions[y].start <= a < regions[y].end && PieceAt(regions[y], a) == p;
        var z := if y == id && a >= va then x else y;
        assert z in regions' && regions'[z].start <= a < regions'[z].end && PieceAt(regions'[z], a) == p;
      }
    }
  }

  lemma SamePiece(r: Region, back: PageMap, a: nat)
    requires r.start <= a < r.end && Entries(back) == Entries(r.pages)
    ensures PieceAt(r.(pages := back), a) == PieceAt(r, a)
  {
  }

  lemma SamePiecesView(regions: Regions, id: nat, back: PageMap)
    requires id in regions && Entries(back) == Entries(regions[id].pages)
    ensures SameView(regions, regions[id := regions[id].(pages := back)])
  {
    var regions' := regions[id := regions[id].(pages := back)];
    forall a | regions[id].start <= a < regions[id].end ensures PieceAt(regions'[id], a) == PieceAt(regions[id], a) {
      SamePiece(regions[id], back, a);
    }
    hide PieceAt, Entries;
    forall a: nat, p: Piece {:trigger Shows(regions', a, p)} ensures Shows(regions', a, p) <==> Shows(regions, a, p) {
      if Shows(regions', a, p) {
        var y :| y in regions' && regions'[y].start <= a < regions'[y].end && PieceAt(regions'[y], a) == p;
        assert y in regions && regions[y].start <= a < regions[y].end && PieceAt(regions[y], a) == p;
      }
      if Shows(regions, a, p) {
        var y :| y in regions && regions[y].start <= a < regions[y].end && PieceAt(regions[y], a) == p;
        assert y in regions' && regions'[y].start <= a < regions'[y].end && PieceAt(regions'[y], a) == p;
      }
    }
  }

  /** Dropping regions that lie within [lo, hi), until none meets it, removes exactly [lo, hi). */
  lemma DropView(before: Regions, regions: Regions, lo: nat, hi: nat)
    requires forall id | id in regions :: id in before && regions[id] == before[id]
    requires forall id | id in before && id !in regions :: lo <= before[id].start && before[id].end <= hi
    requires forall id | id in regions :: regions[id].end <= lo || regions[id].start >= hi
    ensures Removed(before, regions, lo, hi)
  {
    forall a: nat, p: Piece {:trigger Shows(regions, a, p)}
      ensures Shows(regions, a, p) <==> Shows(before, a, p) && !(lo <= a < hi) {
      if Shows(regions, a, p) {
        var y :| y in regions && regions[y].start <= a < regions[y].end && PieceAt(regions[y], a) == p;
        assert y in before && before[y].start <= a < before[y].end && PieceAt(before[y], a) == p;
      }
      if Shows(before, a, p) && !(lo <= a < hi) {
        var y :| y in before && before[y].start <= a < before[y].end && PieceAt(before[y], a) == p;
        assert y in regions && regions[y].start <= a < regions[y].end && PieceAt(regions[y], a) == p;
      }
    }
  }

  // ---- totals ---------------------------------------------------------------------------------

  datatype Totals = Totals(mapped: nat, committed: nat, resident: nat)

  function Plus(x: Totals, y: Totals): Totals {
    Totals(x.mapped + y.mapped, x.committed + y.committed, x.resident + y.resident)
  }

  function Of(r: Region): Totals {
    Totals(if r.start <= r.end then r.end - r.start else 0, r.committed, r.resident)
  }

  ghost predicate Knows(order: seq<nat>, regions: Regions) {
    forall i | 0 <= i < |order| :: order[i] in regions
  }

  ghost function Total(order: seq<nat>, regions: Regions): Totals
    requires Knows(order, regions)
  {
    if order == [] then Totals(0, 0, 0)
    else Plus(Total(order[..|order| - 1], regions), Of(regions[order[|order| - 1]]))
  }

  lemma {:induction false} TotalConcat(a: seq<nat>, b: seq<nat>, regions: Regions)
    requires Knows(a, regions) && Knows(b, regions)
    ensures Knows(a + b, regions) && Total(a + b, regions) == Plus(Total(a, regions), Total(b, regions))
    decreases |b|
  {
    if b == [] {
      assert a + b == a;
    } else {
      var c, x := b[..|b| - 1], b[|b| - 1];
      TotalConcat(a, c, regions);
      assert (a + b)[..|a + b| - 1] == a + c && (a + b)[|a + b| - 1] == x;
    }
  }

  lemma {:induction false} TotalSame(order: seq<nat>, regions: Regions, regions': Regions)
    requires Knows(order, regions) && Knows(order, regions')
    requires forall i | 0 <= i < |order| :: Of(regions[order[i]]) == Of(regions'[order[i]])
    ensures Total(order, regions) == Total(order, regions')
    decreases |order|
  {
    if order != [] {
      TotalSame(order[..|order| - 1], regions, regions');
    }
  }

  lemma TotalOne(x: nat, regions: Regions)
    requires x in regions
    ensures Knows([x], regions) && Total([x], regions) == Of(regions[x])
  {
    assert [x][..0] == [];
    assert Total([x][..0], regions) == Totals(0, 0, 0);
  }

  /** The part that one place of the order contributes. */
  lemma TotalAt(order: seq<nat>, k: nat, regions: Regions)
    requires Knows(order, regions) && k < |order|
    ensures Knows(order[..k], regions) && Knows(order[k + 1..], regions) && Knows(order[..k] + order[k + 1..], regions)
    ensures Total(order, regions) == Plus(Total(order[..k] + order[k + 1..], regions), Of(regions[order[k]]))
  {
    var a, x, b := order[..k], order[k], order[k + 1..];
    assert order == a + ([x] + b);
    TotalOne(x, regions);
    TotalConcat([x], b, regions);
    TotalConcat(a, [x] + b, regions);
    TotalConcat(a, b, regions);
  }

  lemma TotalInsert(order: seq<nat>, k: nat, x: nat, regions: Regions, r: Region)
    requires Knows(order, regions) && k <= |order| && x !in order
    ensures var order', regions' := order[..k] + [x] + order[k..], regions[x := r];
            Knows(order', regions') && Total(order', regions') == Plus(Total(order, regions), Of(r))
  {
    var order', regions' := order[..k] + [x] + order[k..], regions[x := r];
    forall i | 0 <= i < |order'| ensures order'[i] in regions' {
      assert order'[i] == x || order'[i] in order;
    }
    TotalAt(order', k, regions');
    assert order'[..k] + order'[k + 1..] == order;
    TotalSame(order, regions, regions');
  }

  lemma TotalErase(order: seq<nat>, k: nat, regions: Regions)
    requires Knows(order, regions) && k < |order| && forall i | 0 <= i < |order| && i != k :: order[i] != order[k]
    ensures var order', regions' := order[..k] + order[k + 1..], regions - {order[k]};
            Knows(order', regions') && Plus(Total(order', regions'), Of(regions[order[k]])) == Total(order, regions)
  {
    var order', regions' := order[..k] + order[k + 1..], regions - {order[k]};
    TotalAt(order, k, regions);
    forall i | 0 <= i < |order'| ensures order'[i] in regions' && regions'[order'[i]] == regions[order'[i]] {
      assert order'[i] == order[if i < k then i else i + 1];
    }
    TotalSame(order', regions, regions');
  }

  lemma TotalUpdate(order: seq<nat>, k: nat, regions: Regions, r: Region)
    requires Knows(order, regions) && k < |order| && forall i | 0 <= i < |order| && i != k :: order[i] != order[k]
    ensures Knows(order, regions[order[k] := r])
    ensures Plus(Total(order, regions[order[k] := r]), Of(regions[order[k]])) == Plus(Total(order, regions), Of(r))
  {
    var regions' := regions[order[k] := r];
    TotalAt(order, k, regions);
    TotalAt(order, k, regions');
    var rest := order[..k] + order[k + 1..];
    forall i | 0 <= i < |rest| ensures regions'[rest[i]] == regions[rest[i]] {
      assert rest[i] == order[if i < k then i else i + 1];
    }
    TotalSame(rest, regions, regions');
  }

  // ---- steps of the space ----------------------------------------------------------------------

  lemma PositionOf(order: seq<nat>, regions: Regions, chains: Chains, id: nat, va: nat, k: nat)
    requires SpaceOk(order, regions, chains) && id in regions && regions[id].start < va < regions[id].end
    requires Placed(order, SpansOf(regions), va, Some(id), k, k)
    ensures 0 < k && order[k - 1] == id && Knows(order, regions)
    ensures forall i | 0 <= i < |order| && i != k - 1 :: order[i] != id
  {
    OrderedHas(order, regions);
    var i :| 0 <= i < |order| && order[i] == id;
    var s := SpansOf(regions);
    assert s[order[i]].start <= va && s[order[k - 1]].start <= va;
    if i < k - 1 {
      assert false;
    }
  }

  lemma NotBlockedInside(order: seq<nat>, regions: Regions, chains: Chains, id: nat, va: nat)
    requires SpaceOk(order, regions, chains) && id in regions && regions[id].start < va < regions[id].end
    ensures Ordered(order, SpansOf(regions)) && !Blocked(order, SpansOf(regions), va, Some(id))
  {
    forall i | 0 <= i < |order| && order[i] != id ensures !In(SpansOf(regions)[order[i]], va) {
      if In(SpansOf(regions)[order[i]], va) {
        OneRegion(order, regions, chains, va, id, order[i]);
      }
    }
  }

  lemma SplitOrdered(order: seq<nat>, regions: Regions, id: nat, x: nat, l: Region, u: Region, k: nat)
    requires Ordered(order, SpansOf(regions)) && id in regions && x !in regions
    requires l.start == regions[id].start < l.end == u.start < u.end == regions[id].end
    requires 0 < k <= |order| && order[k - 1] == id
    ensures Ordered(order[..k] + [x] + order[k..], SpansOf(regions[id := l][x := u]))
  {
    OrderedHas(order, regions);
    var order', regions' := order[..k] + [x] + order[k..], regions[id := l][x := u];
    hide Ordered;
    forall i | 0 <= i < |order'| ensures order'[i] in regions' && regions'[order'[i]].start < regions'[order'[i]].end {
      assert order'[i] == if i < k then order[i] else if i == k then x else order[i - 1];
    }
    forall i, j | 0 <= i < j < |order'| ensures regions'[order'[i]].end <= regions'[order'[j]].start {
      assert order'[i] == if i < k then order[i] else if i == k then x else order[i - 1];
      assert order'[j] == if j < k then order[j] else if j == k then x else order[j - 1];
    }
    OrderedFrom(order', regions');
  }

  lemma OrderedFrom(order: seq<nat>, regions: Regions)
    requires forall i | 0 <= i < |order| :: order[i] in regions && regions[order[i]].start < regions[order[i]].end
    requires forall i, j | 0 <= i < j < |order| :: regions[order[i]].end <= regions[order[j]].start
    ensures Ordered(order, SpansOf(regions))
  {
  }

  lemma SplitExact(regions: Regions, chains: Chains, chains': Chains, id: nat, x: nat, l: Region, u: Region)
    requires forall y {:trigger Exact(chains, y, regions[y].pages)} | y in regions :: Exact(chains, y, regions[y].pages)
    requires OthersSame(chains, chains', id, x) && Exact(chains', id, l.pages) && Exact(chains', x, u.pages)
    ensures var regions' := regions[id := l][x := u];
            forall y {:trigger Exact(chains', y, regions'[y].pages)} | y in regions' ::
                Exact(chains', y, regions'[y].pages)
  {
    var regions' := regions[id := l][x := u];
    forall y {:trigger Exact(chains', y, regions'[y].pages)} | y in regions'
      ensures Exact(chains', y, regions'[y].pages)
    {
      if y != id && y != x {
        OtherExact(chains, chains', y, regions[y].pages, id, x);
      }
    }
  }

  lemma OtherExact(chains: Chains, chains': Chains, y: nat, pm: PageMap, a: nat, b: nat)
    requires Exact(chains, y, pm) && OthersSame(chains, chains', a, b) && y != a && y != b
    ensures Exact(chains', y, pm)
  {
    forall f: nat, i: nat {:trigger Linked(chains', f, Ref(y, i))}
      ensures Linked(chains', f, Ref(y, i)) <==> Wants(pm, i, f)
    {
      assert Linked(chains', f, Ref(y, i)) <==> Linked(chains, f, Ref(y, i));
    }
  }

  /** vm_split keeps a space well formed, with the same totals and the same view. */
  lemma SplitKeeps(order: seq<nat>, regions: Regions, chains: Chains, chains': Chains, id: nat, x: nat, va: nat,
                   l: Region, u: Region, k: nat)
    requires SpaceOk(order, regions, chains) && id in regions && x !in regions && SplitInto(regions[id], va, l, u)
    requires 0 < k <= |order| && order[k - 1] == id && forall i | 0 <= i < |order| && i != k - 1 :: order[i] != id
    requires OthersSame(chains, chains', id, x) && Exact(chains', id, l.pages) && Exact(chains', x, u.pages)
    ensures var order', regions' := order[..k] + [x] + order[k..], regions[id := l][x := u];
            && SpaceOk(order', regions', chains') && SameView(regions, regions')
            && Knows(order, regions) && Knows(order', regions') && Total(order', regions') == Total(order, regions)
  {
    hide *;
    SplitView(regions, id, x, va, l, u);
    SplitSpace(order, regions, chains, chains', id, x, va, l, u, k);
    SplitTotals(order, regions, chains, id, x, va, l, u, k);
  }

  lemma SplitSpace(order: seq<nat>, regions: Regions, chains: Chains, chains': Chains, id: nat, x: nat, va: nat,
                   l: Region, u: Region, k: nat)
    requires SpaceOk(order, regions, chains) && id in regions && x !in regions && SplitInto(regions[id], va, l, u)
    requires 0 < k <= |order| && order[k - 1] == id
    requires OthersSame(chains, chains', id, x) && Exact(chains', id, l.pages) && Exact(chains', x, u.pages)
    ensures SpaceOk(order[..k] + [x] + order[k..], regions[id := l][x := u], chains')
  {
    hide Ordered, Exact, OthersSame, RegionOk, SplitInto, SpansOf;
    SplitEnds(regions[id], va, l, u);
    SplitOrdered(order, regions, id, x, l, u, k);
    SplitExact(regions, chains, chains', id, x, l, u);
    SplitListed(order, regions, id, x, l, u, k);
  }

  lemma SplitEnds(r: Region, va: nat, l: Region, u: Region)
    requires SplitInto(r, va, l, u)
    ensures RegionOk(l) && RegionOk(u) && l.start == r.start < l.end == u.start < u.end == r.end
  {
  }

  lemma SplitListed(order: seq<nat>, regions: Regions, id: nat, x: nat, l: Region, u: Region, k: nat)
    requires (forall y :: y in order <==> y in regions) && id in regions && k <= |order|
    ensures var order', regions' := order[..k] + [x] + order[k..], regions[id := l][x := u];
            forall y :: y in order' <==> y in regions'
  {
    assert order == order[..k] + order[k..];
  }

  lemma SplitTotals(order: seq<nat>, regions: Regions, chains: Chains, id: nat, x: nat, va: nat,
                    l: Region, u: Region, k: nat)
    requires SpaceOk(order, regions, chains) && id in regions && x !in regions && SplitInto(regions[id], va, l, u)
    requires 0 < k <= |order| && order[k - 1] == id && forall i | 0 <= i < |order| && i != k - 1 :: order[i] != id
    ensures var order', regions' := order[..k] + [x] + order[k..], regions[id := l][x := u];
            Knows(order, regions) && Knows(order', regions') && Total(order', regions') == Total(order, regions)
  {
    assert Knows(order, regions) && x !in order;
    SplitSums(regions[id], va, l, u);
    hide *;
    TotalUpdate(order, k - 1, regions, l);
    TotalInsert(order, k, x, regions[id := l], u);
    SumsCancel(Total(order, regions[id := l]), Of(regions[id]), Total(order, regions), Of(l), Of(u));
  }

  lemma SplitSums(r: Region, va: nat, l: Region, u: Region)
    requires SplitInto(r, va, l, u)
    ensures Plus(Of(l), Of(u)) == Of(r)
  {
  }

  lemma SumsCancel(t': Totals, r: Totals, t: Totals, l: Totals, u: Totals)
    requires Plus(t', r) == Plus(t, l) && Plus(l, u) == r
    ensures Plus(t', u) == t
  {
  }

  lemma KnowsOrder(order: seq<nat>, regions: Regions, chains: Chains)
    requires SpaceOk(order, regions, chains)
    ensures Knows(order, regions) && Ordered(order, SpansOf(regions))
    ensures forall i, j | 0 <= i < j < |order| :: order[i] != order[j]
  {
    OrderedHas(order, regions);
  }

  /** A region keeps its range; its counters, pages and links may change. */
  lemma UpdateKeeps(order: seq<nat>, regions: Regions, chains: Chains, chains': Chains, id: nat, r: Region)
    requires SpaceOk(order, regions, chains) && id in regions && RegionOk(r)
    requires r.start == regions[id].start && r.end == regions[id].end
    requires OthersSame(chains, chains', id, id) && Exact(chains', id, r.pages)
    ensures SpaceOk(order, regions[id := r], chains')
    ensures Knows(order, regions) && Knows(order, regions[id := r])
    ensures Plus(Total(order, regions[id := r]), Of(regions[id])) == Plus(Total(order, regions), Of(r))
  {
    KnowsOrder(order, regions, chains);
    var regions' := regions[id := r];
    assert SpansOf(regions') == SpansOf(regions);
    var k :| 0 <= k < |order| && order[k] == id;
    TotalUpdate(order, k, regions, r);
    forall y {:trigger Exact(chains', y, regions'[y].pages)} | y in regions'
      ensures Exact(chains', y, regions'[y].pages)
    {
      if y != id {
        OtherExact(chains, chains', y, regions[y].pages, id, id);
      }
    }
    hide Ordered, Exact, OthersSame, Total;
  }

  /** A region without links goes. */
  lemma EraseKeeps(order: seq<nat>, regions: Regions, chains: Chains, chains': Chains, k: nat)
    requires SpaceOk(order, regions, chains) && k < |order| && OthersSame(chains, chains', order[k], order[k])
    ensures var order', regions' := order[..k] + order[k + 1..], regions - {order[k]};
            && SpaceOk(order', regions', chains') && Knows(order, regions) && Knows(order', regions')
            && Plus(Total(order', regions'), Of(regions[order[k]])) == Total(order, regions)
  {
    hide Ordered, Exact, OthersSame, Total, RegionOk, SpansOf;
    var id := order[k];
    var order', regions' := order[..k] + order[k + 1..], regions - {id};
    KnowsOrder(order, regions, chains);
    EraseOrdered(order, regions, k);
    TotalErase(order, k, regions);
    EraseListed(order, regions, k);
    forall y {:trigger Exact(chains', y, regions'[y].pages)} | y in regions'
      ensures Exact(chains', y, regions'[y].pages)
    {
      OtherExact(chains, chains', y, regions[y].pages, id, id);
    }
  }

  lemma EraseOrdered(order: seq<nat>, regions: Regions, k: nat)
    requires Ordered(order, SpansOf(regions)) && k < |order|
    ensures Ordered(order[..k] + order[k + 1..], SpansOf(regions - {order[k]}))
  {
    OrderedHas(order, regions);
    var order', regions' := order[..k] + order[k + 1..], regions - {order[k]};
    hide Ordered;
    assert forall i | 0 <= i < |order'| :: order'[i] == order[if i < k then i else i + 1];
    OrderedFrom(order', regions');
  }

  lemma EraseListed(order: seq<nat>, regions: Regions, k: nat)
    requires (forall y :: y in order <==> y in regions) && k < |order|
    requires forall i, j | 0 <= i < j < |order| :: order[i] != order[j]
    ensures var order', regions' := order[..k] + order[k + 1..], regions - {order[k]};
            forall y :: y in order' <==> y in regions'
  {
    var order' := order[..k] + order[k + 1..];
    assert order == order[..k] + [order[k]] + order[k + 1..];
    forall y | y in order' ensures y != order[k] {
      var i :| 0 <= i < |order'| && order'[i] == y;
      assert y == order[if i < k then i else i + 1];
    }
  }

  /** A new region without pages, in a place where none begins inside it. */
  lemma InsertKeeps(order: seq<nat>, regions: Regions, chains: Chains, k: nat, x: nat, r: Region)
    requires SpaceOk(order, regions, chains) && x !in regions && RegionOk(r) && Exact(chains, x, r.pages)
    requires k <= |order| && Placed(order, SpansOf(regions), r.start, None, k, k)
    requires forall id | id in regions :: !(r.start < regions[id].start < r.end)
    ensures var order', regions' := order[..k] + [x] + order[k..], regions[x := r];
            && SpaceOk(order', regions', chains) && Knows(order, regions) && Knows(order', regions')
            && Total(order', regions') == Plus(Total(order, regions), Of(r))
  {
    var order', regions' := order[..k] + [x] + order[k..], regions[x := r];
    KnowsOrder(order, regions, chains);
    InsertOrdered(order, regions, k, x, r);
    hide Ordered, Exact, Total, RegionOk, SpansOf, Placed;
    assert x !in order;
    TotalInsert(order, k, x, regions, r);
    InsertListed(order, regions, k, x, r);
    forall y {:trigger Exact(chains, y, regions'[y].pages)} | y in regions'
      ensures Exact(chains, y, regions'[y].pages)
    {
      if y != x {
        assert Exact(chains, y, regions[y].pages);
      }
    }
  }

  lemma InsertListed(order: seq<nat>, regions: Regions, k: nat, x: nat, r: Region)
    requires (forall y :: y in order <==> y in regions) && k <= |order|
    ensures var order', regions' := order[..k] + [x] + order[k..], regions[x := r];
            forall y :: y in order' <==> y in regions'
  {
    assert order == order[..k] + order[k..];
  }

  lemma InsertOrdered(order: seq<nat>, regions: Regions, k: nat, x: nat, r: Region)
    requires Ordered(order, SpansOf(regions)) && x !in regions && r.start < r.end && k <= |order|
    requires Placed(order, SpansOf(regions), r.start, None, k, k)
    requires forall id | id in regions :: !(r.start < regions[id].start < r.end)
    ensures Ordered(order[..k] + [x] + order[k..], SpansOf(regions[x := r]))
  {
    InsertIsApartExactly(order, SpansOf(regions), k, x, Span(r.start, r.end));
    assert SpansOf(regions[x := r]) == SpansOf(regions)[x := Span(r.start, r.end)];
    OrderedHas(order, regions);
  }

  /** Joining two adjacent regions, the upper one losing all its pages to the lower. */
  lemma JoinKeeps(order: seq<nat>, regions: Regions, chains: Chains, chains': Chains, id: nat, x: nat, k: nat,
                  r: Region)
    requires SpaceOk(order, regions, chains) && id in regions && x in regions && id != x && RegionOk(r)
    requires 0 < k < |order| && order[k - 1] == id && order[k] == x
    requires r.start == regions[id].start && regions[id].end == regions[x].start && r.end == regions[x].end
    requires r.committed == regions[id].committed + regions[x].committed
    requires r.resident == regions[id].resident + regions[x].resident
    requires OthersSame(chains, chains', id, x) && Exact(chains', id, r.pages)
    ensures var order', regions' := order[..k] + order[k + 1..], (regions - {x})[id := r];
            && SpaceOk(order', regions', chains') && Knows(order, regions) && Knows(order', regions')
            && Total(order', regions') == Total(order, regions)
  {
    hide Ordered, Exact, OthersSame, Total, RegionOk, SpansOf;
    var order', regions1 := order[..k] + order[k + 1..], regions - {x};
    var regions' := regions1[id := r];
    KnowsOrder(order, regions, chains);
    JoinBounds(order, regions, k);
    TotalErase(order, k, regions);
    EraseListed(order, regions, k);
    assert order'[k - 1] == id;
    EraseDistinct(order, k);
    TotalUpdate(order', k - 1, regions1, r);
    JoinOrdered(order, regions, id, x, k, r);
    forall y {:trigger Exact(chains', y, regions'[y].pages)} | y in regions'
      ensures Exact(chains', y, regions'[y].pages)
    {
      if y != id {
        OtherExact(chains, chains', y, regions[y].pages, id, x);
      }
    }
  }

  lemma JoinBounds(order: seq<nat>, regions: Regions, k: nat)
    requires Ordered(order, SpansOf(regions)) && 0 < k < |order|
    ensures order[k - 1] in regions && order[k] in regions
    ensures regions[order[k - 1]].start < regions[order[k - 1]].end && regions[order[k]].start < regions[order[k]].end
  {
    OrderedHas(order, regions);
  }

  lemma EraseDistinct(order: seq<nat>, k: nat)
    requires 0 < k < |order| && forall i, j | 0 <= i < j < |order| :: order[i] != order[j]
    ensures var order' := order[..k] + order[k + 1..];
            forall i | 0 <= i < |order'| && i != k - 1 :: order'[i] != order'[k - 1]
  {
    var order' := order[..k] + order[k + 1..];
    assert forall i | 0 <= i < |order'| :: order'[i] == order[if i < k then i else i + 1];
  }

  lemma JoinOrdered(order: seq<nat>, regions: Regions, id: nat, x: nat, k: nat, r: Region)
    requires Ordered(order, SpansOf(regions)) && id in regions && x in regions && id != x
    requires 0 < k < |order| && order[k - 1] == id && order[k] == x
    requires r.start == regions[id].start && r.end == regions[x].end
    ensures Ordered(order[..k] + order[k + 1..], SpansOf((regions - {x})[id := r]))
  {
    OrderedHas(order, regions);
    var order', regions' := order[..k] + order[k + 1..], (regions - {x})[id := r];
    hide Ordered;
    assert forall i | 0 <= i < |order'| :: order'[i] == order[if i < k then i else i + 1];
    OrderedFrom(order', regions');
  }

  /** The number of regions that start below one of them is its place. */
  lemma PlaceOf(order: seq<nat>, regions: Regions, chains: Chains, id: nat, k: nat)
    requires SpaceOk(order, regions, chains) && id in regions && k <= |order|
    requires forall i | 0 <= i < |order| :: SpansOf(regions)[order[i]].start < regions[id].start <==> i < k
    ensures k < |order| && order[k] == id
  {
    OrderedHas(order, regions);
    var i :| 0 <= i < |order| && order[i] == id;
  }
}
