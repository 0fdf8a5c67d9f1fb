/** Reserved page ranges gathered at boot: sorted and merged in place, then queried. */
module Reservations {
  import opened Layout

  /** Pages from start up to, not including, end. */
  datatype Range = Range(start: nat, end: nat)

  predicate In(r: Range, page: nat) {
    r.start <= page < r.end
  }

  ghost predicate InSome(rs: seq<Range>, page: nat) {
    exists i :: 0 <= i < |rs| && In(rs[i], page)
  }

  ghost predicate SameReserved(a: seq<Range>, b: seq<Range>) {
    forall page :: InSome(a, page) <==> InSome(b, page)
  }

  ghost predicate Ordered(rs: seq<Range>) {
    forall i, j | 0 <= i < j < |rs| :: rs[i].start <= rs[j].start
  }

  /** No two ranges overlap or touch. */
  ghost predicate Separated(rs: seq<Range>) {
    forall i, j | 0 <= i < j < |rs| :: rs[i].end < rs[j].start
  }

  // ---- rounding -------------------------------------------------------------------------

  /** align_resv on byte addresses, as page numbers; the addition wraps at 64 bits. */
  function AlignResv(start: nat, end: nat): Range {
    Range(start / PAGE_SIZE, ((end + PAGE_SIZE - 1) % TWO64) / PAGE_SIZE)
  }

  /** A page that holds a byte of the interval is reserved, and only such pages are; unless the rounding wraps. */
  lemma AlignResvExact(start: nat, end: nat)
    requires start < end < TWO64
    ensures (forall page: nat :: In(AlignResv(start, end), page)
              <==> exists a :: start <= a < end && a / PAGE_SIZE == page)
            <==> end + PAGE_SIZE - 1 < TWO64
  {
    if end + PAGE_SIZE - 1 < TWO64 {
      forall page: nat
        ensures In(AlignResv(start, end), page) <==> exists a :: start <= a < end && a / PAGE_SIZE == page
      {
        if In(AlignResv(start, end), page) {
          var a := if page * PAGE_SIZE < start then start else page * PAGE_SIZE;
          assert start <= a < end && a / PAGE_SIZE == page;
        }
      }
    } else {
      var page := start / PAGE_SIZE;
      assert start / PAGE_SIZE == page;
      assert (end + PAGE_SIZE - 1) % TWO64 == end + PAGE_SIZE - 1 - TWO64;
      assert !In(AlignResv(start, end), page);
    }
  }

  /** A reservation that ends in the last page of the address space, one byte short of its end, reserves nothing. */
  lemma AlignWraps()
    ensures AlignResv(TWO64 - 8192, TWO64 - 1).end == 0 < AlignResv(TWO64 - 8192, TWO64 - 1).start
  {
  }

  // ---- sort_merge_reservations ------------------------------------------------------------

  /** Shifts larger starts up and puts element i where it belongs in the sorted prefix. */
  method Insert(a: array<Range>, i: nat)
    requires i < a.Length && Ordered(a[..i])
    modifies a
    ensures Ordered(a[..i + 1]) && forall k | i < k < a.Length :: a[k] == old(a[k])
    ensures SameReserved(a[..i + 1], old(a[..i + 1]))
  {
    hide Ordered, SameReserved, InSome;
    ghost var s := a[..];
    var key := a[i];
    var j := i - 1;
    while j >= 0 && a[j].start > key.start
      invariant -1 <= j < i && Shifted(s, a[..], i, j)
    {
      a[j + 1] := a[j];
      j := j - 1;
    }
    ghost var t := a[..];
    a[j + 1] := key;
    assert a[..] == t[j + 1 := key];
    assert j >= 0 ==> t[j] == s[j];
    Inserted(s, t, i, j);
  }

  /** Elements above j have moved up by one, over position i. */
  ghost predicate Shifted(s: seq<Range>, t: seq<Range>, i: nat, j: int) {
    && |s| == |t| && -1 <= j < i < |s|
    && (forall k {:trigger t[k]} | 0 <= k <= j || i < k < |s| :: t[k] == s[k])
    && (forall k {:trigger t[k]} | j + 2 <= k <= i :: t[k] == s[k - 1] && s[k - 1].start > s[i].start)
  }

  lemma Inserted(s: seq<Range>, t: seq<Range>, i: nat, j: int)
    requires Shifted(s, t, i, j) && Ordered(s[..i])
    requires j >= 0 ==> s[j].start <= s[i].start
    ensures var t' := t[j + 1 := s[i]];
            && Ordered(t'[..i + 1]) && SameReserved(t'[..i + 1], s[..i + 1])
            && forall k | i < k < |s| :: t'[k] == s[k]
  {
    hide Ordered, SameReserved;
    var u, p, t' := s[..i], j + 1, t[j + 1 := s[i]];
    assert forall k | p <= k < i :: u[k] == t[k + 1] && u[k].start > s[i].start;
    assert t'[..i + 1] == u[..p] + [s[i]] + u[p..];
    assert s[..i + 1] == u + [s[i]];
    InsertedOrder(u, s[i], t'[..i + 1], p);
  }

  lemma InsertedOrder(u: seq<Range>, key: Range, t: seq<Range>, p: nat)
    requires p <= |u| && t == u[..p] + [key] + u[p..] && Ordered(u)
    requires forall k | p <= k < |u| :: u[k].start > key.start
    requires p > 0 ==> u[p - 1].start <= key.start
    ensures Ordered(t) && SameReserved(t, u + [key])
  {
    InsertPages(u, p, key);
    hide SameReserved;
    forall x, y | 0 <= x < y < |t| ensures t[x].start <= t[y].start {
      if x < p {
        assert t[x] == u[x] && u[x].start <= key.start;
        assert y < p ==> t[y] == u[y];
      } else if x > p {
        assert t[x] == u[x - 1] && t[y] == u[y - 1];
      }
    }
  }

  lemma InsertPages(s: seq<Range>, p: nat, key: Range)
    requires p <= |s|
    ensures SameReserved(s[..p] + [key] + s[p..], s + [key])
  {
    var a, b := s[..p] + [key] + s[p..], s + [key];
    forall page ensures InSome(a, page) <==> InSome(b, page) {
      if i :| 0 <= i < |a| && In(a[i], page) {
        var j := if i < p then i else if i == p then |s| else i - 1;
        assert b[j] == a[i];
      }
      if i :| 0 <= i < |b| && In(b[i], page) {
        var j := if i < p then i else if i == |s| then p else i + 1;
        assert a[j] == b[i];
      }
    }
  }

  lemma PrefixPages(a: seq<Range>, b: seq<Range>, rest: seq<Range>)
    requires SameReserved(a, b)
    ensures SameReserved(a + rest, b + rest)
  {
    forall page ensures InSome(a + rest, page) <==> InSome(b + rest, page) {
      ConcatPages(a, rest, page);
      ConcatPages(b, rest, page);
    }
  }

  lemma ConcatPages(a: seq<Range>, b: seq<Range>, page: nat)
    ensures InSome(a + b, page) <==> InSome(a, page) || InSome(b, page)
  {
    if i :| 0 <= i < |a| && In(a[i], page) {
      assert (a + b)[i] == a[i];
    }
    if i :| 0 <= i < |b| && In(b[i], page) {
      assert (a + b)[|a| + i] == b[i];
    }
  }

  method Sort(a: array<Range>, count: nat)
    requires count <= a.Length
    modifies a
    ensures Ordered(a[..count]) && SameReserved(a[..count], old(a[..count])) && a[count..] == old(a[count..])
  {
    if count == 0 {
      return;
    }
    var i := 1;
    while i < count
      invariant 1 <= i <= count && Ordered(a[..i])
      invariant SameReserved(a[..count], old(a[..count])) && a[count..] == old(a[count..])
    {
      ghost var before := a[..];
      Insert(a, i);
      SortStep(before, a[..], i + 1, count);
      i := i + 1;
    }
  }

  lemma SortStep(s: seq<Range>, t: seq<Range>, n: nat, count: nat)
    requires |s| == |t| && n <= count <= |s| && SameReserved(t[..n], s[..n])
    requires forall k | n <= k < |s| :: s[k] == t[k]
    ensures SameReserved(t[..count], s[..count]) && s[count..] == t[count..]
  {
    var rest := s[n..count];
    assert t[n..count] == rest;
    assert t[..count] == t[..n] + rest && s[..count] == s[..n] + rest;
    PrefixPages(t[..n], s[..n], rest);
  }

  /** State of the merging pass: done stands for the first i of the sorted ranges. */
  ghost predicate Merged(done: seq<Range>, s: seq<Range>, i: nat) {
    && i <= |s| && |done| <= i && (i > 0 ==> |done| > 0)
    && Ordered(s) && Ordered(done) && Separated(done) && SameReserved(done, s[..i])
    && (|done| > 0 ==> done[|done| - 1].start <= s[i - 1].start)
  }

  lemma MergeStep(done: seq<Range>, s: seq<Range>, i: nat)
    requires Merged(done, s, i) && i < |s|
    ensures var r := s[i];
            if |done| > 0 && r.start <= done[|done| - 1].end then
              var d := done[|done| - 1];
              Merged(done[|done| - 1 := Range(d.start, if d.end < r.end then r.end else d.end)], s, i + 1)
            else Merged(done + [r], s, i + 1)
  {
    var r := s[i];
    assert s[..i + 1] == s[..i] + [r];
    if |done| > 0 && r.start <= done[|done| - 1].end {
      var d := done[|done| - 1];
      var m := Range(d.start, if d.end < r.end then r.end else d.end);
      assert done[|done| - 1 := m] == done[..|done| - 1] + [m];
      MergeLast(done, s[..i], r);
    } else {
      PrefixPages(done, s[..i], [r]);
    }
  }

  /** The merging pass over sorted ranges. */
  method Merge(a: array<Range>, count: nat) returns (out: nat)
    requires count <= a.Length && Ordered(a[..count])
    modifies a
    ensures out <= count && Ordered(a[..out]) && Separated(a[..out])
    ensures SameReserved(a[..out], old(a[..count])) && forall k | count <= k < a.Length :: a[k] == old(a[k])
  {
    hide *;
    ghost var s := a[..count];
    assert a[..0] == [];
    MergeStart(s);
    out := 0;
    var i := 0;
    while i < count
      invariant out <= i <= count && Merged(a[..out], s, i)
      invariant forall k | i <= k < a.Length :: a[k] == old(a[k])
    {
      ghost var done := a[..out];
      MergeStep(done, s, i);
      assert a[i] == s[i];
      if out > 0 && a[i].start <= a[out - 1].end {
        a[out - 1] := Range(a[out - 1].start, if a[out - 1].end < a[i].end then a[i].end else a[out - 1].end);
        assert a[..out] == done[out - 1 := a[out - 1]];
      } else {
        a[out] := a[i];
        out := out + 1;
        assert a[..out] == done + [s[i]];
      }
      i := i + 1;
    }
    MergeEnd(a[..out], s);
  }

  lemma MergeStart(s: seq<Range>)
    requires Ordered(s)
    ensures Merged([], s, 0)
  {
  }

  lemma MergeEnd(done: seq<Range>, s: seq<Range>)
    requires Merged(done, s, |s|)
    ensures Ordered(done) && Separated(done) && SameReserved(done, s)
  {
    assert s[..|s|] == s;
  }

  lemma MergeLast(done: seq<Range>, s: seq<Range>, r: Range)
    requires |done| > 0 && SameReserved(done, s)
    requires done[|done| - 1].start <= r.start <= done[|done| - 1].end
    ensures var d := done[|done| - 1];
            SameReserved(done[..|done| - 1] + [Range(d.start, if d.end < r.end then r.end else d.end)], s + [r])
  {
    var d := done[|done| - 1];
    var m := Range(d.start, if d.end < r.end then r.end else d.end);
    assert done == done[..|done| - 1] + [d];
    forall page ensures InSome(done[..|done| - 1] + [m], page) <==> InSome(s + [r], page) {
      ConcatPages(done[..|done| - 1], [m], page);
      ConcatPages(done[..|done| - 1], [d], page);
      ConcatPages(s, [r], page);
      OnePage(m, page);
      OnePage(d, page);
      OnePage(r, page);
    }
  }

  lemma OnePage(r: Range, page: nat)
    ensures InSome([r], page) <==> In(r, page)
  {
    if In(r, page) {
      assert In([r][0], page);
    }
  }

  /**
    sort_merge_reservations: any ranges, also empty and inverted ones, end up sorted and apart, with the same
    pages.
   */
  method SortMerge(a: array<Range>, count: nat) returns (n: nat)
    requires count <= a.Length
    modifies a
    ensures n <= count && Ordered(a[..n]) && Separated(a[..n])
    ensures SameReserved(a[..n], old(a[..count])) && a[count..] == old(a[count..])
  {
    hide Ordered, Separated, InSome;
    Sort(a, count);
    n := Merge(a, count);
  }

  // ---- queries ------------------------------------------------------------------------------

  /** resv_skip_end: end of the reservation a page lies in, 0 if it lies in none. */
  method SkipEnd(page: nat, resv: seq<Range>) returns (e: nat)
    requires Ordered(resv)
    ensures e == 0 <==> !InSome(resv, page)
    ensures e != 0 ==> exists i :: 0 <= i < |resv| && In(resv[i], page) && resv[i].end == e
  {
    var i := 0;
    while i < |resv|
      invariant 0 <= i <= |resv|
      invariant forall k | 0 <= k < i :: !In(resv[k], page)
    {
      if page < resv[i].start {
        return 0;
      }
      if page < resv[i].end {
        assert In(resv[i], page);
        return resv[i].end;
      }
      i := i + 1;
    }
    return 0;
  }

  /** next_resv_start: the nearest start above a page, capped by limit. */
  method NextStart(page: nat, limit: nat, resv: seq<Range>) returns (n: nat)
    ensures n <= limit && (page < limit ==> page < n)
    ensures forall i | 0 <= i < |resv| && resv[i].start > page :: n <= resv[i].start
    ensures n == limit || exists i :: 0 <= i < |resv| && resv[i].start == n
  {
    n := limit;
    var i := 0;
    while i < |resv|
      invariant 0 <= i <= |resv| && n <= limit && (page < limit ==> page < n)
      invariant forall k | 0 <= k < i && resv[k].start > page :: n <= resv[k].start
      invariant n == limit || exists k :: 0 <= k < |resv| && resv[k].start == n
    {
      if resv[i].start > page && resv[i].start < n {
        n := resv[i].start;
      }
      i := i + 1;
    }
  }
}
