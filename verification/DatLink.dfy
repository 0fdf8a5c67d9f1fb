/**
  What the mapping, unmapping and pruning loops keep, as facts about plain trees.
 */
module DatLink {
  import opened DatWord
  import opened DatTree
  import opened DatGraft

  /** t1 translates like t0 except that the ways through one entry of level k now give h. */
  ghost predicate Updated(t0: Tables, t1: Tables, root: nat, top: Level, k: Level, way: Way, h: Hit)
    requires top <= k
  {
    forall v: Way {:trigger Lookup(t1, root, top, v)} {:trigger Lookup(t0, root, top, v)} ::
      Lookup(t1, root, top, v) == if SameEntry(top, k, v, way) then h else Lookup(t0, root, top, v)
  }

  /** Every way through that entry gives h. */
  ghost predicate Uniform(t: Tables, root: nat, top: Level, k: Level, way: Way, h: Hit)
    requires top <= k
  {
    forall v: Way {:trigger Lookup(t, root, top, v)} | SameEntry(top, k, v, way) :: Lookup(t, root, top, v) == h
  }

  // ---- linking the chain ------------------------------------------------------------------

  /** The tree t grew out of t0 by blank tables along the way, the last of which is tip. */
  ghost predicate Linked(t0: Tables, at0: Places, t: Tables, at: Places, root: nat, top: Level,
                         way: Way, tip: nat, l: int) {
    && l <= PAGE
    && Wf(t, at, root, top) && Extends(at0, at)
    && tip in at && LevelOf(at, top, tip) == l && OnWay(at, top, tip, way)
    && |t[tip]| == Entries(l) && IsInvalid(l, t[tip][way[l]])
    && SameTranslations(t0, t, root, top)
    && (NoBlank(t0, at0, root, top) ==> NoBlankBut(t, at, root, top, tip))
  }

  lemma LinkStart(t: Tables, at: Places, root: nat, top: Level, way: Way, c: nat)
    requires Wf(t, at, root, top) && c in at && OnWay(at, top, c, way)
    requires way[LevelOf(at, top, c)] < |t[c]| && IsInvalid(LevelOf(at, top, c), t[c][way[LevelOf(at, top, c)]])
    ensures Linked(t, at, t, at, root, top, way, c, LevelOf(at, top, c))
  {
    assert TableOk(t, at, root, top, c);
  }

  lemma LinkStep(t0: Tables, at0: Places, t: Tables, at: Places, root: nat, top: Level,
                 way: Way, tip: nat, l: Level, f: nat)
    requires Linked(t0, at0, t, at, root, top, way, tip, l) && l < PAGE && f !in t && f != 0
    ensures Linked(t0, at0, HangTables(t, l, tip, way[l], f), HangPlaces(at, tip, way[l], f), root, top, way, f, l + 1)
  {
    var t1, at1 := HangTables(t, l, tip, way[l], f), HangPlaces(at, tip, way[l], f);
    assert TableOk(t, at, root, top, tip);
    assert EntryOk(t, at, top, tip, way[l]);
    HangWf(t, at, root, top, tip, way[l], f);
    assert way[top..l + 1] == way[top..l] + [way[l]];
    HangTranslations(t0, t, at, root, top, tip, way[l], f);
    if NoBlank(t0, at0, root, top) {
      HangNoBlank(t, at, root, top, tip, way[l], f);
    }
  }

  /** A tree translates like t0 with or without one blank table hung below it. */
  lemma HangTranslations(t0: Tables, t: Tables, at: Places, root: nat, top: Level, c: nat, i: nat, f: nat)
    requires CanHang(t, at, root, top, c, i, f)
    ensures SameTranslations(t0, t, root, top)
            <==> SameTranslations(t0, HangTables(t, LevelOf(at, top, c), c, i, f), root, top)
  {
    var t1 := HangTables(t, LevelOf(at, top, c), c, i, f);
    forall v: Way ensures Lookup(t, root, top, v) == Lookup(t1, root, top, v) {
      HangLookup(t, at, root, top, c, i, f, root, v);
    }
  }

  lemma HangNoBlank(t: Tables, at: Places, root: nat, top: Level, c: nat, i: nat, f: nat)
    requires CanHang(t, at, root, top, c, i, f) && NoBlankBut(t, at, root, top, c)
    ensures NoBlankBut(HangTables(t, LevelOf(at, top, c), c, i, f), HangPlaces(at, c, i, f), root, top, f)
  {
    var l := LevelOf(at, top, c);
    var t1, at1 := HangTables(t, l, c, i, f), HangPlaces(at, c, i, f);
    forall g | g in at1 && g in t1 && g != root && g != f
      ensures LevelOf(at1, top, g) <= PAGE && !Blank(LevelOf(at1, top, g), t1[g])
    {
      if g == c {
        assert !IsInvalid(l, t1[c][i]);
      } else {
        assert !Blank(LevelOf(at, top, g), t[g]);
      }
    }
  }

  /** Storing the leaf completes the mapping. */
  lemma LinkLeaf(t0: Tables, at0: Places, t: Tables, at: Places, root: nat, top: Level,
                 way: Way, tip: nat, k: Level, w: Word)
    requires Linked(t0, at0, t, at, root, top, way, tip, k) && IsLeaf(k, w)
    ensures var t1 := Store(t, tip, way[k], w);
            && Wf(t1, at, root, top)
            && Updated(t0, t1, root, top, k, way, Hit(k, w))
            && Uniform(t0, root, top, k, way, Miss)
            && (NoBlank(t0, at0, root, top) ==> NoBlank(t1, at, root, top))
  {
    var t1 := Store(t, tip, way[k], w);
    StoreWf(t, at, root, top, tip, way[k], w);
    forall v: Way
      ensures Lookup(t1, root, top, v) == if SameEntry(top, k, v, way) then Hit(k, w) else Lookup(t0, root, top, v)
      ensures SameEntry(top, k, v, way) ==> Lookup(t0, root, top, v) == Miss
    {
      assert Lookup(t0, root, top, v) == Lookup(t, root, top, v);
      if SameEntry(top, k, v, way) {
        LookupAtEntry(t, at, root, top, tip, way, v);
        LookupAtEntry(t1, at, root, top, tip, way, v);
      } else {
        LookupElsewhere(t, at, root, top, tip, way, w, v);
      }
    }
    StoredNoBlank(t, at, root, top, tip, way[k], w);
  }

  lemma StoredNoBlank(t: Tables, at: Places, root: nat, top: Level, c: nat, i: nat, w: Word)
    requires c in at && c in t && LevelOf(at, top, c) <= PAGE && i < |t[c]|
    ensures NoBlankBut(t, at, root, top, c) ==> NoBlankBut(Store(t, c, i, w), at, root, top, c)
    ensures NoBlankBut(t, at, root, top, c) && !IsInvalid(LevelOf(at, top, c), w)
            ==> NoBlank(Store(t, c, i, w), at, root, top)
  {
    var t1 := Store(t, c, i, w);
    assert t1[c][i] == w;
  }

  // ---- clearing and pruning ---------------------------------------------------------------

  /** An entry on the way that holds a leaf is replaced by w, a leaf or the empty word. */
  lemma ReplaceLeaf(t: Tables, at: Places, root: nat, top: Level, way: Way, c: nat, k: Level, w: Word)
    requires Wf(t, at, root, top) && c in at && LevelOf(at, top, c) == k && OnWay(at, top, c, way)
    requires way[k] < |t[c]| && IsLeaf(k, t[c][way[k]])
    requires IsLeaf(k, w) || w == EmptyWord(k)
    ensures var t1 := Store(t, c, way[k], w);
            && Wf(t1, at, root, top)
            && Updated(t, t1, root, top, k, way, HitOf(k, w))
            && Uniform(t, root, top, k, way, Hit(k, t[c][way[k]]))
            && (NoBlank(t, at, root, top) ==> NoBlankBut(t1, at, root, top, c))
            && (NoBlank(t, at, root, top) && IsLeaf(k, w) ==> NoBlank(t1, at, root, top))
  {
    var t1 := Store(t, c, way[k], w);
    StoreWf(t, at, root, top, c, way[k], w);
    forall v: Way
      ensures Lookup(t1, root, top, v) == if SameEntry(top, k, v, way) then HitOf(k, w) else Lookup(t, root, top, v)
      ensures SameEntry(top, k, v, way) ==> Lookup(t, root, top, v) == Hit(k, t[c][way[k]])
    {
      if SameEntry(top, k, v, way) {
        LookupAtEntry(t, at, root, top, c, way, v);
        LookupAtEntry(t1, at, root, top, c, way, v);
      } else {
        LookupElsewhere(t, at, root, top, c, way, w, v);
      }
    }
    StoredNoBlank(t, at, root, top, c, way[k], w);
  }

  /** Where the pruning loop stands: t lost blank tables below c, and translates like t0. */
  ghost predicate Pruned(t0: Tables, at0: Places, t: Tables, at: Places, root: nat, top: Level, way: Way,
                         c: nat, l: int) {
    && l <= PAGE
    && Wf(t, at, root, top) && Extends(at, at0)
    && c in at && LevelOf(at, top, c) == l && OnWay(at, top, c, way)
    && SameTranslations(t0, t, root, top)
  }

  lemma PruneStep(t0: Tables, at0: Places, t: Tables, at: Places, root: nat, top: Level, way: Way, c: nat, l: Level)
    requires Pruned(t0, at0, t, at, root, top, way, c, l) && c != root && Blank(l, t[c])
    ensures top < l && LinkedFrom(t, at, top, c) && at[c].parent != c
    ensures Pruned(t0, at0, CutTables(t, at, top, c), Without(at, c), root, top, way, at[c].parent, l - 1)
    ensures at[c].prefix[|at[c].prefix| - 1] == way[l - 1]
    ensures NoBlankBut(t, at, root, top, c)
            ==> NoBlankBut(CutTables(t, at, top, c), Without(at, c), root, top, at[c].parent)
  {
    CutWf(t, at, root, top, c);
    ParentOnWay(t, at, root, top, c, way);
    var t1, at1 := CutTables(t, at, top, c), Without(at, c);
    var p, n := at[c].parent, |at[c].prefix| - 1;
    HangTranslations(t0, t1, at1, root, top, p, at[c].prefix[n], c);
  }
}
