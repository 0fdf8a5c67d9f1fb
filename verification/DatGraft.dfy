/**
  The elementary changes to a tree of DAT tables, and what they do to its translations: storing
  one entry that is not a link, hanging a blank table below an invalid entry, and cutting a blank
  table off.  A tree without blank tables is determined by its translations.
 */
module DatGraft {
  import opened DatWord
  import opened DatTree

  ghost predicate Extends(at0: Places, at1: Places) {
    forall f {:trigger at0[f]} {:trigger at1[f]} | f in at0 :: f in at1 && at1[f] == at0[f]
  }

  function Without<V>(m: map<nat, V>, f: nat): map<nat, V> {
    map g | g in m && g != f :: m[g]
  }

  // ---- one entry stored -------------------------------------------------------------------

  /** Replacing a word that is not a link by another that is not a link keeps the tree well formed. */
  lemma StoreWf(t: Tables, at: Places, root: nat, top: Level, c: nat, i: nat, w: Word)
    requires Wf(t, at, root, top) && c in at && LevelOf(at, top, c) <= PAGE && i < |t[c]|
    requires var l := LevelOf(at, top, c);
             !IsLink(l, t[c][i]) && !IsLink(l, w) && (IsInvalid(l, w) ==> w == EmptyWord(l))
    ensures Wf(Store(t, c, i, w), at, root, top)
  {
    var t1 := Store(t, c, i, w);
    forall f | f in at ensures TableOk(t1, at, root, top, f) {
      assert TableOk(t, at, root, top, f);
      forall j | 0 <= j < |t1[f]| ensures EntryOk(t1, at, top, f, j) {
        assert EntryOk(t, at, top, f, j);
      }
    }
  }

  lemma {:induction false} LookupAvoids(t: Tables, at: Places, root: nat, top: Level, c: nat, i: nat, w: Word,
                                        f: nat, way: Way)
    requires Wf(t, at, root, top) && c in at && i < |t[c]|
    requires f in at && OnWay(at, top, f, way)
    requires OnWay(at, top, c, way) ==> way[LevelOf(at, top, c)] != i
    ensures Lookup(Store(t, c, i, w), f, LevelOf(at, top, f), way) == Lookup(t, f, LevelOf(at, top, f), way)
    decreases PAGE - LevelOf(at, top, f)
  {
    var l := LevelOf(at, top, f);
    assert TableOk(t, at, root, top, f);
    assert Store(t, c, i, w)[f][way[l]] == t[f][way[l]];
    if IsLink(l, t[f][way[l]]) {
      StepOnWay(t, at, root, top, f, way);
      LookupAvoids(t, at, root, top, c, i, w, t[f][way[l]].origin, way);
    }
  }

  function HitOf(l: Level, w: Word): Hit {
    if IsLeaf(l, w) then Hit(l, w) else Miss
  }

  /** The ways through an entry that is not a link translate to what that entry says. */
  lemma LookupAtEntry(t: Tables, at: Places, root: nat, top: Level, c: nat, way: Way, v: Way)
    requires Wf(t, at, root, top) && c in at && OnWay(at, top, c, way)
    requires SameEntry(top, LevelOf(at, top, c), v, way)
    requires way[LevelOf(at, top, c)] < |t[c]| && !IsLink(LevelOf(at, top, c), t[c][way[LevelOf(at, top, c)]])
    ensures Lookup(t, root, top, v) == HitOf(LevelOf(at, top, c), t[c][way[LevelOf(at, top, c)]])
  {
    var l := LevelOf(at, top, c);
    SameEntryAbove(top, l, v, way);
    assert TableOk(t, at, root, top, c);
    WalkVia(t, at, root, top, c, v);
  }

  lemma SameEntryAbove(top: Level, k: Level, u: Way, v: Way)
    requires top <= k && SameEntry(top, k, u, v)
    ensures u[k] == v[k] && u[top..k] == v[top..k]
    ensures forall m: Level | top <= m <= k :: SameEntry(top, m, u, v)
  {
    assert u[k] == u[top..k + 1][k - top] && v[k] == v[top..k + 1][k - top];
    assert u[top..k] == u[top..k + 1][..k - top] && v[top..k] == v[top..k + 1][..k - top];
    forall m: Level | top <= m <= k ensures SameEntry(top, m, u, v) {
      assert u[top..m + 1] == u[top..k + 1][..m + 1 - top] && v[top..m + 1] == v[top..k + 1][..m + 1 - top];
    }
  }

  /** Ways that do not use the stored entry translate as before. */
  lemma LookupElsewhere(t: Tables, at: Places, root: nat, top: Level, c: nat, way: Way, w: Word, v: Way)
    requires Wf(t, at, root, top) && c in at && OnWay(at, top, c, way)
    requires way[LevelOf(at, top, c)] < |t[c]|
    requires !SameEntry(top, LevelOf(at, top, c), v, way)
    ensures Lookup(Store(t, c, way[LevelOf(at, top, c)], w), root, top, v) == Lookup(t, root, top, v)
  {
    var l := LevelOf(at, top, c);
    assert v[top..l + 1] == v[top..l] + [v[l]] && way[top..l + 1] == way[top..l] + [way[l]];
    LookupAvoids(t, at, root, top, c, way[l], w, root, v);
  }

  // ---- one blank table hung or cut off ----------------------------------------------------

  function HangTables(t: Tables, l: Level, c: nat, i: nat, f: nat): Tables
    requires c in t && i < |t[c]| && l < PAGE
  {
    Store(t, c, i, LinkWord(l, f))[f := EmptyTable(l + 1)]
  }

  function HangPlaces(at: Places, c: nat, i: nat, f: nat): Places
    requires c in at
  {
    at[f := Pos(at[c].prefix + [i], c)]
  }

  ghost predicate CanHang(t: Tables, at: Places, root: nat, top: Level, c: nat, i: nat, f: nat) {
    && Wf(t, at, root, top)
    && c in at && LevelOf(at, top, c) < PAGE
    && i < |t[c]| && t[c][i] == EmptyWord(LevelOf(at, top, c))
    && f !in at && f != 0
  }

  lemma HangKeepsEntry(t: Tables, at: Places, root: nat, top: Level, c: nat, i: nat, f: nat, g: nat, j: nat)
    requires CanHang(t, at, root, top, c, i, f) && g in at
    requires LevelOf(at, top, g) <= PAGE && j < |t[g]|
    ensures EntryOk(HangTables(t, LevelOf(at, top, c), c, i, f), HangPlaces(at, c, i, f), top, g, j)
  {
    assert TableOk(t, at, root, top, g);
    assert EntryOk(t, at, top, g, j);
  }

  lemma HangKeepsTable(t: Tables, at: Places, root: nat, top: Level, c: nat, i: nat, f: nat, g: nat)
    requires CanHang(t, at, root, top, c, i, f) && g in at
    ensures TableOk(HangTables(t, LevelOf(at, top, c), c, i, f), HangPlaces(at, c, i, f), root, top, g)
  {
    assert TableOk(t, at, root, top, g);
    var t1, at1 := HangTables(t, LevelOf(at, top, c), c, i, f), HangPlaces(at, c, i, f);
    forall j | 0 <= j < |t1[g]| ensures EntryOk(t1, at1, top, g, j) {
      HangKeepsEntry(t, at, root, top, c, i, f, g, j);
    }
  }

  lemma HangNewTable(t: Tables, at: Places, root: nat, top: Level, c: nat, i: nat, f: nat)
    requires CanHang(t, at, root, top, c, i, f)
    ensures TableOk(HangTables(t, LevelOf(at, top, c), c, i, f), HangPlaces(at, c, i, f), root, top, f)
  {
    var t1, at1 := HangTables(t, LevelOf(at, top, c), c, i, f), HangPlaces(at, c, i, f);
    assert at1[f].prefix[..|at[c].prefix|] == at[c].prefix;
    forall j | 0 <= j < |t1[f]| ensures EntryOk(t1, at1, top, f, j) {
    }
  }

  lemma HangWf(t: Tables, at: Places, root: nat, top: Level, c: nat, i: nat, f: nat)
    requires CanHang(t, at, root, top, c, i, f)
    ensures Wf(HangTables(t, LevelOf(at, top, c), c, i, f), HangPlaces(at, c, i, f), root, top)
  {
    var l := LevelOf(at, top, c);
    var t1, at1 := HangTables(t, l, c, i, f), HangPlaces(at, c, i, f);
    forall g | g in at ensures TableOk(t1, at1, root, top, g) {
      HangKeepsTable(t, at, root, top, c, i, f, g);
    }
    HangNewTable(t, at, root, top, c, i, f);
    assert at1.Keys == t1.Keys;
  }

  lemma {:induction false} HangLookup(t: Tables, at: Places, root: nat, top: Level, c: nat, i: nat, f: nat,
                                      g: nat, way: Way)
    requires CanHang(t, at, root, top, c, i, f)
    requires g in at && OnWay(at, top, g, way)
    ensures Lookup(HangTables(t, LevelOf(at, top, c), c, i, f), g, LevelOf(at, top, g), way)
            == Lookup(t, g, LevelOf(at, top, g), way)
    decreases PAGE - LevelOf(at, top, g)
  {
    var l := LevelOf(at, top, g);
    var t1 := HangTables(t, LevelOf(at, top, c), c, i, f);
    assert TableOk(t, at, root, top, g);
    if g == c && way[l] == i {
      assert Lookup(t1, f, l + 1, way) == Miss;
    } else {
      assert t1[g][way[l]] == t[g][way[l]];
      if IsLink(l, t[g][way[l]]) {
        StepOnWay(t, at, root, top, g, way);
        HangLookup(t, at, root, top, c, i, f, t[g][way[l]].origin, way);
      }
    }
  }

  function CutTables(t: Tables, at: Places, top: Level, c: nat): Tables
    requires c in at && LinkedFrom(t, at, top, c) && at[c].parent != c
  {
    var n := |at[c].prefix| - 1;
    Store(Without(t, c), at[c].parent, at[c].prefix[n], EmptyWord(top + n))
  }

  lemma BlankIsEmpty(t: Tables, at: Places, root: nat, top: Level, c: nat)
    requires Wf(t, at, root, top) && c in at && LevelOf(at, top, c) <= PAGE && Blank(LevelOf(at, top, c), t[c])
    ensures t[c] == EmptyTable(LevelOf(at, top, c))
  {
    assert TableOk(t, at, root, top, c);
    forall j | 0 <= j < |t[c]| ensures t[c][j] == EmptyTable(LevelOf(at, top, c))[j] {
      assert EntryOk(t, at, top, c, j);
    }
  }

  lemma CutKeepsTable(t: Tables, at: Places, root: nat, top: Level, c: nat, g: nat)
    requires Wf(t, at, root, top) && c in at && LinkedFrom(t, at, top, c) && at[c].parent != c
    requires LevelOf(at, top, c) <= PAGE && Blank(LevelOf(at, top, c), t[c])
    requires g in at && g != c
    ensures TableOk(CutTables(t, at, top, c), Without(at, c), root, top, g)
  {
    var t1, at1 := CutTables(t, at, top, c), Without(at, c);
    var p, n := at[c].parent, |at[c].prefix| - 1;
    assert TableOk(t, at, root, top, c);
    assert TableOk(t, at, root, top, g);
    forall j | 0 <= j < |t1[g]| ensures EntryOk(t1, at1, top, g, j) {
      assert EntryOk(t, at, top, g, j);
    }
    if g != root && at[g].parent == p {
      assert at[g].prefix[|at[g].prefix| - 1] != at[c].prefix[n];
    }
  }

  /** Cutting a blank table off keeps the tree well formed and is the inverse of hanging it. */
  lemma CutWf(t: Tables, at: Places, root: nat, top: Level, c: nat)
    requires Wf(t, at, root, top) && c in at && c != root
    requires LevelOf(at, top, c) <= PAGE && Blank(LevelOf(at, top, c), t[c])
    ensures LinkedFrom(t, at, top, c) && at[c].parent != c
    ensures var p, n := at[c].parent, |at[c].prefix| - 1;
            && CanHang(CutTables(t, at, top, c), Without(at, c), root, top, p, at[c].prefix[n], c)
            && HangTables(CutTables(t, at, top, c), top + n, p, at[c].prefix[n], c) == t
  {
    assert TableOk(t, at, root, top, c);
    var t1, at1 := CutTables(t, at, top, c), Without(at, c);
    forall g | g in at1 ensures TableOk(t1, at1, root, top, g) {
      CutKeepsTable(t, at, root, top, c, g);
    }
    assert at1.Keys == t1.Keys;
    BlankIsEmpty(t, at, root, top, c);
    CutThenHang(t, at, top, c);
  }

  lemma CutThenHang(t: Tables, at: Places, top: Level, c: nat)
    requires c in at && c in t && LinkedFrom(t, at, top, c) && at[c].parent != c
    requires t[c] == EmptyTable(LevelOf(at, top, c))
    ensures var p, n := at[c].parent, |at[c].prefix| - 1;
            HangTables(CutTables(t, at, top, c), top + n, p, at[c].prefix[n], c) == t
  {
    var p, n := at[c].parent, |at[c].prefix| - 1;
    var t2 := HangTables(CutTables(t, at, top, c), top + n, p, at[c].prefix[n], c);
    assert t2[p] == t[p];
    assert t2 == t;
  }

  // ---- a tree without blank tables is determined by its translations ----------------------

  ghost predicate SameTranslations(t0: Tables, t1: Tables, root: nat, top: Level) {
    forall way: Way :: Lookup(t0, root, top, way) == Lookup(t1, root, top, way)
  }

  lemma TablesIncluded(t0: Tables, at0: Places, t1: Tables, at1: Places, t2: Tables, at2: Places,
                       root: nat, top: Level, f: nat)
    requires Wf(t0, at0, root, top) && Wf(t1, at1, root, top) && Wf(t2, at2, root, top)
    requires Extends(at0, at2) && Extends(at1, at2)
    requires NoBlank(t0, at0, root, top) && SameTranslations(t0, t1, root, top)
    requires f in at0
    ensures f in at1
  {
    if f != root {
      var way := LeafBelow(t0, at0, root, top, f);
      WalkVia(t0, at0, root, top, f, way);
      assert Lookup(t0, root, top, way) == Lookup(t1, root, top, way);
      var g := HitPassesThrough(t1, at1, root, top, root, way, LevelOf(at0, top, f));
      PlacesAreUnique(t2, at2, root, top, f, g);
    }
  }

  lemma PlacesIncluded(t0: Tables, at0: Places, t1: Tables, at1: Places, t2: Tables, at2: Places,
                       root: nat, top: Level)
    requires Wf(t0, at0, root, top) && Wf(t1, at1, root, top) && Wf(t2, at2, root, top)
    requires Extends(at0, at2) && Extends(at1, at2)
    requires NoBlank(t0, at0, root, top) && SameTranslations(t0, t1, root, top)
    ensures at0.Keys <= at1.Keys
  {
    forall f | f in at0 ensures f in at1 {
      TablesIncluded(t0, at0, t1, at1, t2, at2, root, top, f);
    }
  }

  lemma EntriesAgree(t0: Tables, at0: Places, t1: Tables, at1: Places, root: nat, top: Level, f: nat, i: nat)
    requires Wf(t0, at0, root, top) && Wf(t1, at1, root, top) && at0 == at1
    requires SameTranslations(t0, t1, root, top)
    requires f in at0 && LevelOf(at0, top, f) <= PAGE && i < |t0[f]| && i < |t1[f]|
    requires !IsInvalid(LevelOf(at0, top, f), t0[f][i])
    ensures t0[f][i] == t1[f][i]
  {
    var l := LevelOf(at0, top, f);
    assert TableOk(t0, at0, root, top, f);
    assert TableOk(t1, at1, root, top, f);
    if IsLeaf(l, t0[f][i]) {
      var way := WayThrough(t0, at0, root, top, f, i);
      WalkVia(t0, at0, root, top, f, way);
      WalkVia(t1, at1, root, top, f, way);
      assert Lookup(t0, root, top, way) == Lookup(t1, root, top, way);
    } else {
      assert EntryOk(t0, at0, top, f, i);
      assert TableOk(t1, at1, root, top, t0[f][i].origin);
    }
  }

  lemma TableAgrees(t0: Tables, at0: Places, t1: Tables, at1: Places, root: nat, top: Level, f: nat)
    requires Wf(t0, at0, root, top) && Wf(t1, at1, root, top) && at0 == at1
    requires SameTranslations(t0, t1, root, top) && SameTranslations(t1, t0, root, top)
    requires f in at0
    ensures t0[f] == t1[f]
  {
    assert TableOk(t0, at0, root, top, f);
    assert TableOk(t1, at1, root, top, f);
    forall i | 0 <= i < |t0[f]| ensures t0[f][i] == t1[f][i] {
      assert EntryOk(t0, at0, top, f, i) && EntryOk(t1, at1, top, f, i);
      if !IsInvalid(LevelOf(at0, top, f), t0[f][i]) {
        EntriesAgree(t0, at0, t1, at1, root, top, f, i);
      } else if !IsInvalid(LevelOf(at0, top, f), t1[f][i]) {
        EntriesAgree(t1, at1, t0, at0, root, top, f, i);
      }
    }
  }

  /** Two trees that grew out of a common one, translate alike and hold no blank table are equal. */
  lemma TreeIsDetermined(t0: Tables, at0: Places, t1: Tables, at1: Places, t2: Tables, at2: Places,
                         root: nat, top: Level)
    requires Wf(t0, at0, root, top) && Wf(t1, at1, root, top) && Wf(t2, at2, root, top)
    requires Extends(at0, at2) && Extends(at1, at2)
    requires NoBlank(t0, at0, root, top) && NoBlank(t1, at1, root, top)
    requires SameTranslations(t0, t1, root, top)
    ensures t0 == t1 && at0 == at1
  {
    assert SameTranslations(t1, t0, root, top) by {
      forall way: Way ensures Lookup(t1, root, top, way) == Lookup(t0, root, top, way) {
        assert Lookup(t0, root, top, way) == Lookup(t1, root, top, way);
      }
    }
    PlacesIncluded(t0, at0, t1, at1, t2, at2, root, top);
    PlacesIncluded(t1, at1, t0, at0, t2, at2, root, top);
    assert at0 == at1;
    forall f | f in t0 ensures t0[f] == t1[f] {
      TableAgrees(t0, at0, t1, at1, root, top, f);
    }
    assert t0 == t1;
  }
}
