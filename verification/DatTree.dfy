/**
  The tree of DAT tables below one root, as plain values.

  `tables` is the content of every live table.  `at` records where each of them hangs: the table
  indices that lead to it from the root, and the table that points to it.  Every clause of the
  invariant speaks about one table and its neighbours only, so no clause recurses.
 */
module DatTree {
  import opened DatWord

  type Row = seq<Word>

  type Tables = map<nat, Row>

  datatype Pos = Pos(prefix: seq<nat>, parent: nat)

  type Places = map<nat, Pos>

  datatype Hit = Miss | Hit(level: Level, word: Word)

  function EmptyTable(l: Level): (t: Row)
    ensures |t| == Entries(l)
    ensures forall i | 0 <= i < |t| :: t[i] == EmptyWord(l)
  {
    seq(Entries(l), _ => EmptyWord(l))
  }

  /** One entry overwritten in place. */
  function Store(tables: Tables, f: nat, i: nat, w: Word): Tables
    requires f in tables && i < |tables[f]|
  {
    tables[f := tables[f][i := w]]
  }

  lemma StoreKeys(tables: Tables, f: nat, i: nat, w: Word)
    requires f in tables && i < |tables[f]|
    ensures Store(tables, f, i, w).Keys == tables.Keys
  {
  }

  // ---- invariant ------------------------------------------------------------------------

  /** Level of table f below a root of level top. */
  ghost function LevelOf(at: Places, top: Level, f: nat): int
    requires f in at
  {
    top + |at[f].prefix|
  }

  ghost predicate EntryOk(tables: Tables, at: Places, top: Level, f: nat, i: nat)
    requires f in tables && f in at && LevelOf(at, top, f) <= PAGE && i < |tables[f]|
  {
    var l: Level, w := LevelOf(at, top, f), tables[f][i];
    && (IsInvalid(l, w) ==> w == EmptyWord(l))
    && (IsLink(l, w) ==>
          && w == LinkWord(l, w.origin)
          && w.origin in at
          && at[w.origin] == Pos(at[f].prefix + [i], f))
  }

  ghost predicate LinkedFrom(tables: Tables, at: Places, top: Level, f: nat)
    requires f in at
  {
    var p, n := at[f].parent, |at[f].prefix| - 1;
    && 0 <= n && top + n < PAGE
    && p in at && p in tables
    && at[p].prefix == at[f].prefix[..n]
    && at[f].prefix[n] < |tables[p]|
    && tables[p][at[f].prefix[n]] == LinkWord(top + n, f)
  }

  ghost predicate TableOk(tables: Tables, at: Places, root: nat, top: Level, f: nat)
    requires f in tables && f in at
  {
    && f != 0
    && LevelOf(at, top, f) <= PAGE
    && |tables[f]| == Entries(LevelOf(at, top, f))
    && (f != root ==> LinkedFrom(tables, at, top, f))
    && forall i {:trigger EntryOk(tables, at, top, f, i)} | 0 <= i < |tables[f]| :: EntryOk(tables, at, top, f, i)
  }

  /** Every live table is linked from exactly one place, and every link leads to a live table. */
  ghost predicate Wf(tables: Tables, at: Places, root: nat, top: Level) {
    && root in at && at[root].prefix == []
    && at.Keys == tables.Keys
    && forall f {:trigger TableOk(tables, at, root, top, f)} | f in at :: TableOk(tables, at, root, top, f)
  }

  lemma RowLength(tables: Tables, at: Places, root: nat, top: Level, f: nat)
    requires Wf(tables, at, root, top) && f in at
    ensures f in tables && LevelOf(at, top, f) <= PAGE && |tables[f]| == Entries(LevelOf(at, top, f))
  {
    assert TableOk(tables, at, root, top, f);
  }

  predicate Blank(l: Level, t: Row) {
    forall i | 0 <= i < |t| :: IsInvalid(l, t[i])
  }

  /** Every table but the root and x holds at least one valid entry. */
  ghost predicate NoBlankBut(tables: Tables, at: Places, root: nat, top: Level, x: nat) {
    forall f | f in at && f in tables && f != root && f != x ::
      LevelOf(at, top, f) <= PAGE && !Blank(LevelOf(at, top, f), tables[f])
  }

  /** Every table but the root holds at least one valid entry. */
  ghost predicate NoBlank(tables: Tables, at: Places, root: nat, top: Level) {
    NoBlankBut(tables, at, root, top, root)
  }

  // ---- translation ----------------------------------------------------------------------

  /** The leaf entry found along the way, searched from table f of level l. */
  function Lookup(tables: Tables, f: nat, l: Level, way: Way): (h: Hit)
    ensures h.Hit? ==> l <= h.level && IsLeaf(h.level, h.word)
    decreases PAGE - l
  {
    if f !in tables || |tables[f]| != Entries(l) then Miss
    else
      var w := tables[f][way[l]];
      if IsLeaf(l, w) then Hit(l, w)
      else if IsLink(l, w) then Lookup(tables, w.origin, l + 1, way)
      else Miss
  }

  // ---- ways -----------------------------------------------------------------------------

  /** Table f lies on the way. */
  ghost predicate OnWay(at: Places, top: Level, f: nat, way: Way)
    requires f in at
  {
    LevelOf(at, top, f) <= PAGE && at[f].prefix == way[top..LevelOf(at, top, f)]
  }

  /** Two ways that use the same entry at level k. */
  ghost predicate SameEntry(top: Level, k: Level, u: Way, v: Way)
    requires top <= k
  {
    u[top..k + 1] == v[top..k + 1]
  }

  lemma RootOnWay(tables: Tables, at: Places, root: nat, top: Level, way: Way)
    requires Wf(tables, at, root, top)
    ensures root in at && LevelOf(at, top, root) == top && OnWay(at, top, root, way)
  {
  }

  /** The link out of f along the way leads to the next table on it. */
  lemma StepOnWay(tables: Tables, at: Places, root: nat, top: Level, f: nat, way: Way)
    requires Wf(tables, at, root, top) && f in at && OnWay(at, top, f, way)
    requires var l := LevelOf(at, top, f); way[l] < |tables[f]| && IsLink(l, tables[f][way[l]])
    ensures var l := LevelOf(at, top, f);
            var o := tables[f][way[l]].origin;
            o in at && LevelOf(at, top, o) == l + 1 && at[o].parent == f && OnWay(at, top, o, way)
  {
    var l := LevelOf(at, top, f);
    assert TableOk(tables, at, root, top, f);
    assert EntryOk(tables, at, top, f, way[l]);
    assert way[top..l] + [way[l]] == way[top..l + 1];
  }

  /** A table on the way hangs off a table on the way, at the way's own entry. */
  lemma ParentOnWay(tables: Tables, at: Places, root: nat, top: Level, f: nat, way: Way)
    requires Wf(tables, at, root, top) && f in at && f != root && OnWay(at, top, f, way)
    ensures LinkedFrom(tables, at, top, f)
    ensures var p, l := at[f].parent, LevelOf(at, top, f) - 1;
            && OnWay(at, top, p, way) && LevelOf(at, top, p) == l
            && way[l] < |tables[p]|
            && tables[p][way[l]] == LinkWord(l, f)
  {
    assert TableOk(tables, at, root, top, f);
    var l := LevelOf(at, top, f) - 1;
    assert way[top..l + 1][..l - top] == way[top..l];
  }

  lemma {:induction false} WalkVia(tables: Tables, at: Places, root: nat, top: Level, f: nat, way: Way)
    requires Wf(tables, at, root, top) && f in at && OnWay(at, top, f, way)
    ensures Lookup(tables, root, top, way) == Lookup(tables, f, LevelOf(at, top, f), way)
    decreases |at[f].prefix|
  {
    if f != root {
      ParentOnWay(tables, at, root, top, f, way);
      var p := at[f].parent;
      WalkVia(tables, at, root, top, p, way);
      assert TableOk(tables, at, root, top, p);
    }
  }

  /** No two live tables have the same place. */
  lemma {:induction false} PlacesAreUnique(tables: Tables, at: Places, root: nat, top: Level, f: nat, g: nat)
    requires Wf(tables, at, root, top) && f in at && g in at
    requires at[f].prefix == at[g].prefix
    ensures f == g
    decreases |at[f].prefix|
  {
    assert TableOk(tables, at, root, top, f);
    assert TableOk(tables, at, root, top, g);
    if f != root && g != root {
      PlacesAreUnique(tables, at, root, top, at[f].parent, at[g].parent);
    }
  }

  /** A successful lookup passes through a live table of every level above its leaf. */
  lemma {:induction false} HitPassesThrough(tables: Tables, at: Places, root: nat, top: Level,
                                            f: nat, way: Way, m: Level) returns (g: nat)
    requires Wf(tables, at, root, top) && f in at && OnWay(at, top, f, way)
    requires Lookup(tables, f, LevelOf(at, top, f), way).Hit?
    requires LevelOf(at, top, f) <= m <= Lookup(tables, f, LevelOf(at, top, f), way).level
    ensures g in at && LevelOf(at, top, g) == m && OnWay(at, top, g, way)
    decreases m - LevelOf(at, top, f)
  {
    var l := LevelOf(at, top, f);
    if l == m {
      g := f;
    } else {
      assert TableOk(tables, at, root, top, f);
      StepOnWay(tables, at, root, top, f, way);
      g := HitPassesThrough(tables, at, root, top, tables[f][way[l]].origin, way, m);
    }
  }

  /** Every prefix of a live table is made of table indices. */
  lemma {:induction false} PrefixInRange(tables: Tables, at: Places, root: nat, top: Level, f: nat)
    requires Wf(tables, at, root, top) && f in at
    ensures LevelOf(at, top, f) <= PAGE
    ensures forall m | 0 <= m < |at[f].prefix| :: at[f].prefix[m] < Entries(top + m)
    decreases |at[f].prefix|
  {
    assert TableOk(tables, at, root, top, f);
    if f != root {
      var p := at[f].parent;
      PrefixInRange(tables, at, root, top, p);
      assert TableOk(tables, at, root, top, p);
      forall m | 0 <= m < |at[f].prefix| ensures at[f].prefix[m] < Entries(top + m) {
        if m < |at[p].prefix| {
          assert at[f].prefix[m] == at[p].prefix[m];
        }
      }
    }
  }

  /** A way through entry i of table f. */
  lemma WayThrough(tables: Tables, at: Places, root: nat, top: Level, f: nat, i: nat) returns (way: Way)
    requires Wf(tables, at, root, top) && f in at && i < |tables[f]|
    ensures LevelOf(at, top, f) <= PAGE && OnWay(at, top, f, way) && way[LevelOf(at, top, f)] == i
  {
    assert TableOk(tables, at, root, top, f);
    PrefixInRange(tables, at, root, top, f);
    var l := LevelOf(at, top, f);
    way := seq(5, m requires 0 <= m < 5 => if top <= m < l then at[f].prefix[m - top] else if m == l then i else 0);
  }

  /** Below any table that is not blank some way finds a leaf. */
  lemma {:induction false} LeafBelow(tables: Tables, at: Places, root: nat, top: Level, f: nat) returns (way: Way)
    requires Wf(tables, at, root, top) && NoBlank(tables, at, root, top)
    requires f in at && f != root
    ensures OnWay(at, top, f, way) && Lookup(tables, f, LevelOf(at, top, f), way).Hit?
    decreases PAGE - LevelOf(at, top, f)
  {
    var l := LevelOf(at, top, f);
    assert TableOk(tables, at, root, top, f);
    assert !Blank(l, tables[f]);
    var i :| 0 <= i < |tables[f]| && !IsInvalid(l, tables[f][i]);
    if IsLeaf(l, tables[f][i]) {
      way := WayThrough(tables, at, root, top, f, i);
    } else {
      assert EntryOk(tables, at, top, f, i);
      var o := tables[f][i].origin;
      assert TableOk(tables, at, root, top, o);
      way := LeafBelow(tables, at, root, top, o);
      ParentOnWay(tables, at, root, top, o, way);
    }
  }
}
