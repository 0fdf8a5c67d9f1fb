/** Search trees of address ranges: descents that find, place and remove a region by its start. */
module VmTree {
  import opened Wrappers

  /** Binary tree of region ids; any shape, as rebalancing may leave it. */
  datatype Tree = Leaf | Node(left: Tree, id: nat, right: Tree)

  datatype Span = Span(start: nat, end: nat)
  type Spans = map<nat, Span>

  function InOrder(t: Tree): seq<nat> {
    match t
    case Leaf => []
    case Node(l, id, r) => InOrder(l) + [id] + InOrder(r)
  }

  function Size(t: Tree): (n: nat)
    ensures n == |InOrder(t)|
  {
    match t
    case Leaf => 0
    case Node(l, _, r) => Size(l) + 1 + Size(r)
  }

  predicate In(s: Span, va: nat) {
    s.start <= va < s.end
  }

  predicate Meets(s: Span, lo: nat, hi: nat) {
    s.start < hi && lo < s.end
  }

  /** Regions are nonempty and lie apart, in address order. */
  ghost predicate Ordered(order: seq<nat>, spans: Spans) {
    && (forall i | 0 <= i < |order| :: order[i] in spans && spans[order[i]].start < spans[order[i]].end)
    && (forall i, j | 0 <= i < j < |order| :: spans[order[i]].end <= spans[order[j]].start)
  }

  /** Where a descent is: the subtree at node, and how many regions come before it. */
  ghost predicate At(order: seq<nat>, node: Tree, k: nat) {
    k + |InOrder(node)| <= |order| && order[k..k + |InOrder(node)|] == InOrder(node)
  }

  lemma AtRoot(t: Tree)
    ensures At(InOrder(t), t, 0)
  {
  }

  lemma InOrderParts(t: Tree)
    requires t.Node?
    ensures |InOrder(t)| == Size(t.left) + 1 + |InOrder(t.right)|
    ensures InOrder(t)[..Size(t.left)] == InOrder(t.left) && InOrder(t)[Size(t.left)] == t.id
    ensures InOrder(t)[Size(t.left) + 1..] == InOrder(t.right)
  {
  }

  lemma AtChildren(order: seq<nat>, node: Tree, k: nat)
    requires At(order, node, k) && node.Node?
    ensures At(order, node.left, k) && At(order, node.right, k + Size(node.left) + 1)
    ensures k + Size(node.left) < |order| && order[k + Size(node.left)] == node.id
  {
    var n, m := |InOrder(node)|, Size(node.left);
    var part := order[k..k + n];
    InOrderParts(node);
    hide InOrder;
    assert order[k..k + m] == part[..m];
    assert order[k + m] == part[m];
    assert order[k + m + 1..k + n] == part[m + 1..];
  }

  lemma SizeOf(t: Tree)
    requires t.Node?
    ensures |InOrder(t)| == |InOrder(t.left)| + 1 + |InOrder(t.right)|
  {
  }

  lemma LeafEnd(t: Tree)
    requires t.Leaf?
    ensures InOrder(t) == []
  {
  }

  /** The first lo regions start below the bound, those from hi on do not. */
  ghost predicate Below(order: seq<nat>, spans: Spans, bound: nat, lo: nat, hi: nat) {
    && lo <= hi <= |order| && Ordered(order, spans)
    && (forall i | 0 <= i < lo :: spans[order[i]].start < bound)
    && (forall i | hi <= i < |order| :: spans[order[i]].start >= bound)
  }

  lemma BelowStart(order: seq<nat>, spans: Spans, bound: nat)
    requires Ordered(order, spans)
    ensures Below(order, spans, bound, 0, |order|)
  {
  }

  lemma BelowStep(order: seq<nat>, spans: Spans, bound: nat, lo: nat, hi: nat, m: nat)
    requires Below(order, spans, bound, lo, hi) && lo <= m < hi
    ensures order[m] in spans
    ensures if spans[order[m]].start < bound then Below(order, spans, bound, m + 1, hi)
        else Below(order, spans, bound, lo, m)
  {
  }

  lemma BelowEnd(order: seq<nat>, spans: Spans, bound: nat, k: nat)
    requires Below(order, spans, bound, k, k)
    ensures Ordered(order, spans) && k <= |order|
    ensures forall i | 0 <= i < |order| :: order[i] in spans && (spans[order[i]].start < bound <==> i < k)
  {
  }

  /** The number of regions that start below a bound; the last of them is the candidate of vm_find_gap. */
  method CountBelow(t: Tree, spans: Spans, bound: nat) returns (k: nat)
    requires Ordered(InOrder(t), spans)
    ensures k <= |InOrder(t)|
    ensures forall i | 0 <= i < |InOrder(t)| :: spans[InOrder(t)[i]].start < bound <==> i < k
  {
    hide *;
    ghost var order := InOrder(t);
    AtRoot(t);
    BelowStart(order, spans, bound);
    k := 0;
    var node := t;
    while node.Node?
      invariant At(order, node, k) && Below(order, spans, bound, k, k + |InOrder(node)|)
      decreases node
    {
      AtChildren(order, node, k);
      SizeOf(node);
      BelowStep(order, spans, bound, k, k + |InOrder(node)|, k + Size(node.left));
      if spans[node.id].start < bound {
        k := k + Size(node.left) + 1;
        node := node.right;
      } else {
        node := node.left;
      }
    }
    LeafEnd(node);
    BelowEnd(order, spans, bound, k);
  }

  /** f is where the first region that meets [a, b) is known to be, unless one lies at lo <= i < hi. */
  ghost predicate Seeking(order: seq<nat>, spans: Spans, a: nat, b: nat, lo: nat, hi: nat, f: nat) {
    && lo <= hi <= f <= |order| && Ordered(order, spans) && a < b && (f < |order| ==> Meets(spans[order[f]], a, b))
    && (forall i | 0 <= i < f && (i < lo || i >= hi) :: !Meets(spans[order[i]], a, b))
  }

  lemma SeekStart(order: seq<nat>, spans: Spans, a: nat, b: nat)
    requires Ordered(order, spans) && a < b
    ensures Seeking(order, spans, a, b, 0, |order|, |order|)
  {
  }

  lemma SeekStep(order: seq<nat>, spans: Spans, a: nat, b: nat, lo: nat, hi: nat, f: nat, m: nat)
    requires Seeking(order, spans, a, b, lo, hi, f) && lo <= m < hi
    ensures order[m] in spans
    ensures var s := spans[order[m]];
            if b <= s.start then Seeking(order, spans, a, b, lo, m, f)
            else if a >= s.end then Seeking(order, spans, a, b, m + 1, hi, f)
            else Seeking(order, spans, a, b, lo, m, m)
  {
  }

  lemma SeekEnd(order: seq<nat>, spans: Spans, a: nat, b: nat, k: nat, f: nat)
    requires Seeking(order, spans, a, b, k, k, f)
    ensures f <= |order| && (f < |order| ==> order[f] in spans && Meets(spans[order[f]], a, b))
    ensures forall i | 0 <= i < f :: order[i] in spans && !Meets(spans[order[i]], a, b)
  {
  }

  /** rb_find_rcu: the region that holds an address. */
  method Find(t: Tree, spans: Spans, va: nat) returns (r: Option<nat>)
    requires Ordered(InOrder(t), spans)
    ensures r.Some? ==> r.value in InOrder(t) && In(spans[r.value], va)
    ensures r.None? ==> forall i | 0 <= i < |InOrder(t)| :: !In(spans[InOrder(t)[i]], va)
  {
    hide Ordered, InOrder, Size, At, Seeking, Meets;
    ghost var order := InOrder(t);
    ghost var k: nat := 0;
    AtRoot(t);
    SeekStart(order, spans, va, va + 1);
    var node := t;
    while node.Node?
      invariant At(order, node, k) && Seeking(order, spans, va, va + 1, k, k + |InOrder(node)|, |order|)
      decreases node
    {
      AtChildren(order, node, k);
      SizeOf(node);
      SeekStep(order, spans, va, va + 1, k, k + |InOrder(node)|, |order|, k + Size(node.left));
      if va < spans[node.id].start {
        node := node.left;
      } else if va >= spans[node.id].end {
        k := k + Size(node.left) + 1;
        node := node.right;
      } else {
        return Some(node.id);
      }
    }
    LeafEnd(node);
    SeekEnd(order, spans, va, va + 1, k, |order|);
    NoneHolds(order, spans, va);
    return None;
  }

  lemma NoneHolds(order: seq<nat>, spans: Spans, va: nat)
    requires forall i | 0 <= i < |order| :: order[i] in spans && !Meets(spans[order[i]], va, va + 1)
    ensures forall i | 0 <= i < |order| :: !In(spans[order[i]], va)
  {
  }

  /** The leftmost region that meets [lo, hi), as its place in address order; past the end if none does. */
  method FirstOverlap(t: Tree, spans: Spans, lo: nat, hi: nat) returns (f: nat)
    requires Ordered(InOrder(t), spans) && lo < hi
    ensures f <= |InOrder(t)| && (f < |InOrder(t)| ==> Meets(spans[InOrder(t)[f]], lo, hi))
    ensures forall i | 0 <= i < f :: !Meets(spans[InOrder(t)[i]], lo, hi)
  {
    hide *;
    ghost var order := InOrder(t);
    var k: nat := 0;
    f := Size(t);
    AtRoot(t);
    SeekStart(order, spans, lo, hi);
    var node := t;
    while node.Node?
      invariant At(order, node, k) && Seeking(order, spans, lo, hi, k, k + |InOrder(node)|, f)
      decreases node
    {
      AtChildren(order, node, k);
      SizeOf(node);
      SeekStep(order, spans, lo, hi, k, k + |InOrder(node)|, f, k + Size(node.left));
      var s := spans[node.id];
      if hi <= s.start {
        node := node.left;
      } else if lo >= s.end {
        k := k + Size(node.left) + 1;
        node := node.right;
      } else {
        f := k + Size(node.left);
        node := node.left;
      }
    }
    LeafEnd(node);
    SeekEnd(order, spans, lo, hi, k, f);
  }

  /** The first lo regions lie at or below start, apart from the excluded one; those from hi on lie above it. */
  ghost predicate Placed(order: seq<nat>, spans: Spans, start: nat, excluded: Option<nat>, lo: nat, hi: nat) {
    && lo <= hi <= |order| && Ordered(order, spans)
    && (forall i | 0 <= i < lo ::
          && spans[order[i]].start <= start
          && (Some(order[i]) == excluded || spans[order[i]].end <= start))
    && (forall i | hi <= i < |order| :: spans[order[i]].start > start)
  }

  lemma PlaceRight(order: seq<nat>, spans: Spans, start: nat, excluded: Option<nat>, lo: nat, hi: nat, m: nat)
    requires Placed(order, spans, start, excluded, lo, hi) && lo <= m < hi
    requires spans[order[m]].start <= start && (Some(order[m]) == excluded || spans[order[m]].end <= start)
    ensures Placed(order, spans, start, excluded, m + 1, hi)
  {
  }

  lemma PlaceLeft(order: seq<nat>, spans: Spans, start: nat, excluded: Option<nat>, lo: nat, hi: nat, m: nat)
    requires Placed(order, spans, start, excluded, lo, hi) && lo <= m < hi && start < spans[order[m]].start
    ensures Placed(order, spans, start, excluded, lo, m)
  {
  }

  ghost predicate Blocked(order: seq<nat>, spans: Spans, start: nat, excluded: Option<nat>)
    requires Ordered(order, spans)
  {
    exists i :: 0 <= i < |order| && Some(order[i]) != excluded && In(spans[order[i]], start)
  }

  /** rb_plan_insert: the place of a new region, found by its start alone. */
  method PlanInsert(t: Tree, spans: Spans, start: nat, excluded: Option<nat>) returns (r: Option<nat>)
    requires Ordered(InOrder(t), spans)
    requires excluded.Some? ==> excluded.value in InOrder(t) && spans[excluded.value].start < start
    ensures r.None? <==> Blocked(InOrder(t), spans, start, excluded)
    ensures r.Some? ==> Placed(InOrder(t), spans, start, excluded, r.value, r.value)
  {
    hide *;
    ghost var order := InOrder(t);
    var k: nat := 0;
    AtRoot(t);
    PlaceStart(t, spans, start, excluded);
    var node := t;
    while node.Node?
      invariant At(order, node, k) && Placed(order, spans, start, excluded, k, k + |InOrder(node)|)
      decreases node
    {
      AtChildren(order, node, k);
      SizeOf(node);
      ghost var m := k + Size(node.left);
      ghost var hi := k + |InOrder(node)|;
      PlacedHas(order, spans, start, excluded, k, hi, m);
      var s := spans[node.id];
      if Some(node.id) == excluded {
        PlaceRight(order, spans, start, excluded, k, hi, m);
        k := k + Size(node.left) + 1;
        node := node.right;
      } else if start < s.start {
        PlaceLeft(order, spans, start, excluded, k, hi, m);
        node := node.left;
      } else if start >= s.end {
        PlaceRight(order, spans, start, excluded, k, hi, m);
        k := k + Size(node.left) + 1;
        node := node.right;
      } else {
        IsBlocked(order, spans, start, excluded, m);
        return None;
      }
    }
    PlaceEnd(order, spans, start, excluded, k, node);
    return Some(k);
  }

  lemma PlaceStart(t: Tree, spans: Spans, start: nat, excluded: Option<nat>)
    requires Ordered(InOrder(t), spans)
    ensures Placed(InOrder(t), spans, start, excluded, 0, |InOrder(t)|)
  {
  }

  lemma PlacedHas(order: seq<nat>, spans: Spans, start: nat, excluded: Option<nat>, lo: nat, hi: nat, m: nat)
    requires Placed(order, spans, start, excluded, lo, hi) && lo <= m < hi
    ensures order[m] in spans
  {
  }

  lemma IsBlocked(order: seq<nat>, spans: Spans, start: nat, excluded: Option<nat>, m: nat)
    requires Ordered(order, spans) && m < |order| && order[m] in spans
    requires Some(order[m]) != excluded && spans[order[m]].start <= start < spans[order[m]].end
    ensures Blocked(order, spans, start, excluded)
  {
    assert In(spans[order[m]], start);
  }

  lemma PlaceEnd(order: seq<nat>, spans: Spans, start: nat, excluded: Option<nat>, k: nat, node: Tree)
    requires node.Leaf? && Placed(order, spans, start, excluded, k, k + |InOrder(node)|) && Ordered(order, spans)
    ensures Placed(order, spans, start, excluded, k, k) && !Blocked(order, spans, start, excluded)
  {
  }

  /** The region linked at a place in address order. */
  function Insert(t: Tree, k: nat, id: nat): Tree
    requires k <= Size(t)
  {
    match t
    case Leaf => Node(Leaf, id, Leaf)
    case Node(l, x, r) =>
      if k <= Size(l) then Node(Insert(l, k, id), x, r) else Node(l, x, Insert(r, k - Size(l) - 1, id))
  }

  lemma {:induction false} InsertOrder(t: Tree, k: nat, id: nat)
    requires k <= Size(t)
    ensures InOrder(Insert(t, k, id)) == InOrder(t)[..k] + [id] + InOrder(t)[k..]
  {
    match t
    case Leaf =>
    case Node(l, x, r) =>
      if k <= Size(l) {
        InsertOrder(l, k, id);
        InsertLeft(InOrder(l), x, InOrder(r), k, id);
      } else {
        InsertOrder(r, k - Size(l) - 1, id);
        InsertRight(InOrder(l), x, InOrder(r), k, id);
      }
  }

  lemma InsertLeft(a: seq<nat>, x: nat, b: seq<nat>, k: nat, id: nat)
    requires k <= |a|
    ensures (a[..k] + [id] + a[k..]) + [x] + b == (a + [x] + b)[..k] + [id] + (a + [x] + b)[k..]
  {
  }

  lemma InsertRight(a: seq<nat>, x: nat, b: seq<nat>, k: nat, id: nat)
    requires |a| < k <= |a| + 1 + |b|
    ensures a + [x] + (b[..k - |a| - 1] + [id] + b[k - |a| - 1..]) == (a + [x] + b)[..k] + [id] + (a + [x] + b)[k..]
  {
    var n := k - |a| - 1;
    assert b == b[..n] + b[n..];
  }

  function Join(l: Tree, r: Tree): (t: Tree)
    ensures InOrder(t) == InOrder(l) + InOrder(r)
  {
    match l
    case Leaf => r
    case Node(a, x, b) => Node(a, x, Join(b, r))
  }

  lemma CutLeft(a: seq<nat>, x: nat, b: seq<nat>, k: nat)
    requires k < |a|
    ensures (a + [x] + b)[..k] + (a + [x] + b)[k + 1..] == a[..k] + a[k + 1..] + [x] + b
  {
  }

  lemma CutRight(a: seq<nat>, x: nat, b: seq<nat>, k: nat)
    requires |a| < k <= |a| + |b|
    ensures var m := k - |a| - 1;
            (a + [x] + b)[..k] + (a + [x] + b)[k + 1..] == a + [x] + (b[..m] + b[m + 1..])
  {
  }

  lemma CutMiddle(a: seq<nat>, x: nat, b: seq<nat>)
    ensures (a + [x] + b)[..|a|] + (a + [x] + b)[|a| + 1..] == a + b
  {
  }

  /** The region at a place in address order unlinked. */
  function Erase(t: Tree, k: nat): (r: Tree)
    requires k < |InOrder(t)|
    ensures InOrder(r) == InOrder(t)[..k] + InOrder(t)[k + 1..]
  {
    match t
    case Node(l, x, r) =>
      if k < |InOrder(l)| then
        CutLeft(InOrder(l), x, InOrder(r), k);
        Node(Erase(l, k), x, r)
      else if k == |InOrder(l)| then
        CutMiddle(InOrder(l), x, InOrder(r));
        Join(l, r)
      else
        CutRight(InOrder(l), x, InOrder(r), k);
        Node(l, x, Erase(r, k - |InOrder(l)| - 1))
  }

  // ---- keeping regions apart ----------------------------------------------------------------

  /**
    rb_insert_region tests the start of the new region only.  The result keeps regions apart exactly
    when none of them begins inside the new one.
   */
  lemma InsertIsApartExactly(order: seq<nat>, spans: Spans, k: nat, id: nat, s: Span)
    requires Ordered(order, spans) && id !in spans && s.start < s.end && k <= |order|
    requires Placed(order, spans, s.start, None, k, k)
    ensures Ordered(order[..k] + [id] + order[k..], spans[id := s])
       <==> forall i | 0 <= i < |order| :: !(s.start < spans[order[i]].start < s.end)
  {
    if forall i | 0 <= i < |order| :: !(s.start < spans[order[i]].start < s.end) {
      InsertIsApart(order, spans, k, id, s);
    } else {
      InsertOverlaps(order, spans, k, id, s);
    }
  }

  lemma InsertIsApart(order: seq<nat>, spans: Spans, k: nat, id: nat, s: Span)
    requires Ordered(order, spans) && id !in spans && s.start < s.end && k <= |order|
    requires Placed(order, spans, s.start, None, k, k)
    requires forall i | 0 <= i < |order| :: !(s.start < spans[order[i]].start < s.end)
    ensures Ordered(order[..k] + [id] + order[k..], spans[id := s])
  {
    var order', spans' := order[..k] + [id] + order[k..], spans[id := s];
    forall i | 0 <= i < |order'| ensures order'[i] == if i < k then order[i] else if i == k then id else order[i - 1] {
    }
    forall i, j | 0 <= i < j < |order'| ensures spans'[order'[i]].end <= spans'[order'[j]].start {
      if j < k || i > k {
        assert spans'[order'[i]] == spans[order[if i < k then i else i - 1]];
        assert spans'[order'[j]] == spans[order[if j < k then j else j - 1]];
      } else if i < k {
        assert spans'[order'[i]] == spans[order[i]];
        assert j > k ==> spans'[order'[j]] == spans[order[j - 1]];
      } else {
        assert spans'[order'[j]] == spans[order[j - 1]];
      }
    }
  }

  lemma InsertOverlaps(order: seq<nat>, spans: Spans, k: nat, id: nat, s: Span)
    requires Ordered(order, spans) && id !in spans && s.start < s.end && k <= |order|
    requires Placed(order, spans, s.start, None, k, k)
    requires exists i :: 0 <= i < |order| && s.start < spans[order[i]].start < s.end
    ensures !Ordered(order[..k] + [id] + order[k..], spans[id := s])
  {
    var order', spans' := order[..k] + [id] + order[k..], spans[id := s];
    var i :| 0 <= i < |order| && s.start < spans[order[i]].start < s.end;
    assert i >= k && order[i] in spans;
    hide Ordered, Placed;
    assert order'[i + 1] == order[i] && order'[k] == id;
    if Ordered(order', spans') {
      OrderedPair(order', spans', k, i + 1);
    }
  }

  lemma OrderedPair(order: seq<nat>, spans: Spans, i: nat, j: nat)
    requires Ordered(order, spans) && i < j < |order|
    ensures order[i] in spans && order[j] in spans && spans[order[i]].end <= spans[order[j]].start
  {
  }
}
