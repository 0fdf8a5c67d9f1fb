/** What the two phases of a mapping keep, as facts about plain trees. */
module DatPhases {
  import opened DatWord
  import opened DatTree
  import opened DatGraft
  import opened DatPending
  import opened DatLink

  /** What phase 1 of a mapping remembers about one level; made is 0 when the child existed. */
  datatype LevelState = LevelState(table: nat, index: nat, made: nat)

  /** The table that holds the link to made[j]. */
  function Tip(c: nat, made: seq<nat>, j: nat): nat
    requires j <= |made|
  {
    if j == 0 then c else made[j - 1]
  }

  /** Phase 1 went down |states| levels; c is the last table that was there before. */
  ghost predicate Descended(t: Tables, at: Places, root: nat, top: Level, way: Way,
                            states: seq<LevelState>, made: seq<nat>, c: nat)
  {
    var e := |states| - |made|;
    && 0 <= e && top + |states| <= PAGE
    && Wf(t, at, root, top)
    && c in at && LevelOf(at, top, c) == top + e && OnWay(at, top, c, way)
    && (made != [] ==> way[top + e] < |t[c]| && IsInvalid(top + e, t[c][way[top + e]]))
    && (states == [] ==> c == root)
    && (forall i | 0 <= i < |states| :: states[i].index == way[top + i])
    && (forall i | 0 <= i < e :: states[i].made == 0 && states[i].table in t && way[top + i] < |t[states[i].table]|)
    && (made == [] && states != [] ==> t[states[e - 1].table][way[top + e - 1]].origin == c)
    && (forall j | 0 <= j < |made| :: states[e + j].made == made[j] && states[e + j].table == Tip(c, made, j))
  }

  lemma DescendStart(t: Tables, at: Places, root: nat, top: Level, way: Way)
    requires Wf(t, at, root, top)
    ensures Descended(t, at, root, top, way, [], [], root)
  {
  }

  lemma DescendFacts(t: Tables, at: Places, root: nat, top: Level, way: Way,
                     states: seq<LevelState>, made: seq<nat>, c: nat)
    requires Descended(t, at, root, top, way, states, made, c)
    ensures |made| <= |states| && top + |states| <= PAGE && c in at && c in t
    ensures states == [] ==> c == root
    ensures made == [] ==> |t[c]| == Entries(top + |states|)
    ensures made == [] ==> Lookup(t, root, top, way) == Lookup(t, c, top + |states|, way)
  {
    RowLength(t, at, root, top, c);
    WalkVia(t, at, root, top, c, way);
  }

  lemma DescendExisting(t: Tables, at: Places, root: nat, top: Level, way: Way, states: seq<LevelState>, c: nat)
    requires Descended(t, at, root, top, way, states, [], c) && top + |states| < PAGE
    requires var l := top + |states|; way[l] < |t[c]| && IsLink(l, t[c][way[l]])
    ensures var l := top + |states|;
            Descended(t, at, root, top, way, states + [LevelState(c, way[l], 0)], [], t[c][way[l]].origin)
  {
    StepOnWay(t, at, root, top, c, way);
  }

  lemma DescendMade(t: Tables, at: Places, root: nat, top: Level, way: Way,
                    states: seq<LevelState>, made: seq<nat>, c: nat, f: nat)
    requires Descended(t, at, root, top, way, states, made, c) && top + |states| < PAGE
    requires var l := top + |states|; made == [] ==> way[l] < |t[c]| && IsInvalid(l, t[c][way[l]])
    ensures var l := top + |states|;
            Descended(t, at, root, top, way, states + [LevelState(Tip(c, made, |made|), way[l], f)], made + [f], c)
  {
    var e, states', made' := |states| - |made|, states + [LevelState(Tip(c, made, |made|), way[top + |states|], f)],
        made + [f];
    forall j | 0 <= j < |made'| ensures states'[e + j].made == made'[j] && states'[e + j].table == Tip(c, made', j) {
      if j < |made| {
        assert states'[e + j] == states[e + j];
      }
    }
  }

  /** What phase 2 reads back from the states of phase 1. */
  lemma DescendStates(t: Tables, at: Places, root: nat, top: Level, way: Way,
                      states: seq<LevelState>, made: seq<nat>, c: nat, i: nat)
    requires Descended(t, at, root, top, way, states, made, c) && i < |states|
    ensures var e := |states| - |made|;
            && 0 <= e && top + |states| <= PAGE
            && states[i].index == way[top + i]
            && (i < e ==> states[i].made == 0 && states[i].table in t && way[top + i] < |t[states[i].table]|)
            && (i == e - 1 && made == [] ==> t[states[i].table][way[top + i]].origin == c)
            && (e <= i ==> states[i].made == made[i - e] && states[i].table == Tip(c, made, i - e))
  {
  }

  /** Phase 1 ended at an invalid entry, so the chain can be linked from c. */
  lemma DescendLinked(t: Tables, at: Places, root: nat, top: Level, way: Way,
                      states: seq<LevelState>, made: seq<nat>, c: nat)
    requires Descended(t, at, root, top, way, states, made, c)
    requires var k := top + |states|; made == [] ==> way[k] < |t[c]| && IsInvalid(k, t[c][way[k]])
    ensures Linked(t, at, t, at, root, top, way, c, top + |states| - |made|)
  {
    LinkStart(t, at, root, top, way, c);
  }

  lemma LinkedFacts(t0: Tables, at0: Places, t: Tables, at: Places, root: nat, top: Level,
                    way: Way, tip: nat, l: int)
    requires Linked(t0, at0, t, at, root, top, way, tip, l)
    ensures l <= PAGE && Wf(t, at, root, top) && tip in t && |t[tip]| == Entries(l) && Extends(at0, at)
  {
  }

  /** Phase 2 after i levels: tree has its links, rest still waits. */
  ghost predicate Linking(t: Tables, at: Places, tree: Tables, at1: Places, rest: Tables, root: nat, top: Level,
                          way: Way, states: seq<LevelState>, made: seq<nat>, c: nat, walk: nat, i: nat)
  {
    var e := |states| - |made|;
    var j := if i <= e then 0 else i - e;
    && Descended(t, at, root, top, way, states, made, c)
    && i <= |states|
    && (i <= e ==> tree == t && at1 == at)
    && Linked(t, at, tree, at1, root, top, way, Tip(c, made, j), top + e + j)
    && Blanks(rest, made[j..], top + e + j + 1)
    && tree.Keys !! rest.Keys
    && (i == 0 ==> walk == root)
    && (i > e ==> walk == Tip(c, made, j))
    && (i == |states| && i > 0 && made == [] ==> walk == c)
  }

  lemma LinkingStart(t: Tables, at: Places, extra: Tables, root: nat, top: Level,
                     way: Way, states: seq<LevelState>, made: seq<nat>, c: nat)
    requires Descended(t, at, root, top, way, states, made, c)
    requires var k := top + |states|; made == [] ==> c in t && way[k] < |t[c]| && IsInvalid(k, t[c][way[k]])
    requires t.Keys !! extra.Keys && Blanks(extra, made, top + |states| - |made| + 1)
    ensures Linking(t, at, t, at, extra, root, top, way, states, made, c, root, 0)
  {
    DescendLinked(t, at, root, top, way, states, made, c);
    assert made[0..] == made;
  }

  lemma LinkingStep(t: Tables, at: Places, tree: Tables, at1: Places, rest: Tables, root: nat, top: Level,
                    way: Way, states: seq<LevelState>, made: seq<nat>, c: nat, walk: nat, i: nat)
    requires Linking(t, at, tree, at1, rest, root, top, way, states, made, c, walk, i) && i < |states|
    ensures var s := states[i];
            && top + i < PAGE
            && s.table in tree && s.table in at1 && s.table in tree + rest
            && s.index < |tree[s.table]| && (tree + rest)[s.table] == tree[s.table]
            && if s.made == 0
               then Linking(t, at, tree, at1, rest, root, top, way, states, made, c, tree[s.table][s.index].origin,
                   i + 1)
               else
                 var tree' := HangTables(tree, top + i, s.table, s.index, s.made);
                 && Store(tree + rest, s.table, s.index, LinkWord(top + i, s.made)) == tree' + Without(rest, s.made)
                 && Linking(t, at, tree', HangPlaces(at1, s.table, s.index, s.made), Without(rest, s.made),
                            root, top, way, states, made, c, s.made, i + 1)
  {
    hide Wf, Blanks, Linked, HangTables, HangPlaces, Extends;
    DescendStates(t, at, root, top, way, states, made, c, i);
    var e := |states| - |made|;
    if i < e {
      LinkedFacts(t, at, tree, at1, root, top, way, c, top + e);
    } else {
      var j := i - e;
      LinkMade(t, at, tree, at1, rest, root, top, way, Tip(c, made, j), top + i, made[j..]);
      assert made[j..][1..] == made[j + 1..];
    }
  }

  lemma LinkingEnd(t: Tables, at: Places, tree: Tables, at1: Places, rest: Tables, root: nat, top: Level,
                   way: Way, states: seq<LevelState>, made: seq<nat>, c: nat, walk: nat)
    requires Linking(t, at, tree, at1, rest, root, top, way, states, made, c, walk, |states|)
    ensures tree + rest == tree && Linked(t, at, tree, at1, root, top, way, walk, top + |states|)
  {
    hide Wf, Linked, Extends;
    assert made[|made|..] == [];
    NoBlanks(rest, top + |states| + 1);
  }

  /** One step of phase 2, on values. */
  lemma LinkMade(t: Tables, at: Places, tree: Tables, at1: Places, rest: Tables, root: nat, top: Level, way: Way,
                 tip: nat, l: Level, made: seq<nat>)
    requires Linked(t, at, tree, at1, root, top, way, tip, l) && l < PAGE
    requires tree.Keys !! rest.Keys && Blanks(rest, made, l + 1) && made != []
    ensures tip in tree && tip in at1 && way[l] < |tree[tip]| && tip !in rest && made[0] != 0
    ensures var f := made[0];
            && var tree', rest' := HangTables(tree, l, tip, way[l], f), Without(rest, f);
            && Linked(t, at, tree', HangPlaces(at1, tip, way[l], f), root, top, way, f, l + 1)
            && Store(tree + rest, tip, way[l], LinkWord(l, f)) == tree' + rest'
            && tree'.Keys !! rest'.Keys
            && Blanks(rest', made[1..], l + 2)
  {
    LinkedFacts(t, at, tree, at1, root, top, way, tip, l);
    BlanksFirst(rest, made, l + 1);
    LinkStep(t, at, tree, at1, root, top, way, tip, l, made[0]);
    LinkBlank(tree, rest, l + 1, tip, way[l], made[0]);
  }

  /** The entry at which the leaf belongs, in the last table reached. */
  lemma TipEntry(t: Tables, at: Places, extra: Tables, root: nat, top: Level, way: Way,
                 states: seq<LevelState>, made: seq<nat>, c: nat)
    requires Descended(t, at, root, top, way, states, made, c)
    requires t.Keys !! extra.Keys && Blanks(extra, made, top + |states| - |made| + 1)
    ensures var k, tip := top + |states|, Tip(c, made, |made|);
            && tip in t + extra && |(t + extra)[tip]| == Entries(k)
            && c in at && c in t
            && (made == [] ==> (t + extra)[tip] == t[c] && LevelOf(at, top, c) == k && OnWay(at, top, c, way))
            && (made != [] ==> IsInvalid(k, (t + extra)[tip][way[k]]))
  {
    if made == [] {
      RowLength(t, at, root, top, c);
    } else {
      BlanksLast(extra, made, top + |states| - |made| + 1);
    }
  }

  /** Phase 1 has come down to level l, to table current; extra holds the tables made. */
  ghost predicate Descending(t: Tables, at: Places, extra: Tables, root: nat, top: Level, way: Way,
                             states: seq<LevelState>, made: seq<nat>, c: nat, current: nat, l: nat) {
    && |made| <= |states| && top + |states| == l && Descended(t, at, root, top, way, states, made, c)
    && t.Keys !! extra.Keys && Blanks(extra, made, l - |made| + 1) && current == Tip(c, made, |made|)
  }

  lemma DescendingStart(t: Tables, at: Places, root: nat, top: Level, way: Way)
    requires Wf(t, at, root, top)
    ensures Descending(t, at, map[], root, top, way, [], [], root, root, top) && t + map[] == t
  {
    DescendStart(t, at, root, top, way);
    NoBlanks(map[], top + 1);
  }

  lemma DescendingFacts(t: Tables, at: Places, extra: Tables, root: nat, top: Level, way: Way,
                        states: seq<LevelState>, made: seq<nat>, c: nat, current: nat, l: Level)
    requires Descending(t, at, extra, root, top, way, states, made, c, current, l)
    ensures |made| <= |states| == l - top && Descended(t, at, root, top, way, states, made, c)
    ensures t.Keys !! extra.Keys && Blanks(extra, made, l - |made| + 1) && current == Tip(c, made, |made|)
    ensures current in t + extra && |(t + extra)[current]| == Entries(l) && way[l] < |(t + extra)[current]|
    ensures IsLeaf(l, (t + extra)[current][way[l]]) ==> Lookup(t, root, top, way).Hit?
  {
    hide Descended, Blanks;
    TipEntry(t, at, extra, root, top, way, states, made, c);
    DescendFacts(t, at, root, top, way, states, made, c);
  }

  /** The table below was missing and has been made. */
  lemma DescendingMade(t: Tables, at: Places, extra: Tables, root: nat, top: Level, way: Way,
                       states: seq<LevelState>, made: seq<nat>, c: nat, current: nat, l: Level, f: nat)
    requires Descending(t, at, extra, root, top, way, states, made, c, current, l) && l < PAGE && f != 0
    requires f !in t + extra
    requires current in t + extra && way[l] < |(t + extra)[current]| && IsInvalid(l, (t + extra)[current][way[l]])
    ensures Descending(t, at, extra[f := EmptyTable(l + 1)], root, top, way,
                       states + [LevelState(current, way[l], f)], made + [f], c, f, l + 1)
    ensures (t + extra)[f := EmptyTable(l + 1)] == t + extra[f := EmptyTable(l + 1)]
  {
    hide Descended, Blanks, EmptyTable;
    DescendFacts(t, at, root, top, way, states, made, c);
    TipEntry(t, at, extra, root, top, way, states, made, c);
    DescendMade(t, at, root, top, way, states, made, c, f);
    BlanksAddLast(extra, made, l - |made| + 1, f);
    SumAdd(t, extra, f, EmptyTable(l + 1));
  }

  /** The table below is there; so none has been made yet. */
  lemma DescendingExisting(t: Tables, at: Places, extra: Tables, root: nat, top: Level, way: Way,
                           states: seq<LevelState>, made: seq<nat>, c: nat, current: nat, l: Level)
    requires Descending(t, at, extra, root, top, way, states, made, c, current, l) && l < PAGE
    requires current in t + extra && way[l] < |(t + extra)[current]| && IsLink(l, (t + extra)[current][way[l]])
    ensures made == [] && extra == map[]
    ensures var next := (t + extra)[current][way[l]].origin;
            Descending(t, at, extra, root, top, way, states + [LevelState(current, way[l], 0)], [], next, next, l + 1)
  {
    hide Descended, Blanks;
    DescendFacts(t, at, root, top, way, states, made, c);
    TipEntry(t, at, extra, root, top, way, states, made, c);
    DescendExisting(t, at, root, top, way, states, c);
    NoBlanks(extra, l + 1);
    NoBlanks(extra, l + 2);
  }

  /** A valid entry on the way means that some way through it translates. */
  lemma Overlap(t: Tables, at: Places, root: nat, top: Level, k: Level, way: Way, c: nat)
    requires Wf(t, at, root, top) && NoBlank(t, at, root, top)
    requires c in at && LevelOf(at, top, c) == k && OnWay(at, top, c, way)
    requires way[k] < |t[c]| && !IsInvalid(k, t[c][way[k]])
    ensures exists v: Way :: SameEntry(top, k, v, way) && Lookup(t, root, top, v).Hit?
  {
    RowLength(t, at, root, top, c);
    if IsLeaf(k, t[c][way[k]]) {
      WalkVia(t, at, root, top, c, way);
      SameEntryRefl(top, k, way);
    } else {
      StepOnWay(t, at, root, top, c, way);
      var o := t[c][way[k]].origin;
      var v := LeafBelow(t, at, root, top, o);
      WalkVia(t, at, root, top, o, v);
      assert SameEntry(top, k, v, way);
    }
  }

  lemma SameEntryRefl(top: Level, k: Level, way: Way)
    requires top <= k
    ensures SameEntry(top, k, way, way)
  {
  }

  lemma ExtendsRefl(at: Places)
    ensures Extends(at, at)
  {
  }

  // ---- unmapping --------------------------------------------------------------------------

  /** The tables passed on the way, from the root down. */
  ghost predicate Path(at: Places, top: Level, way: Way, path: seq<nat>) {
    forall s {:trigger path[s]} | 0 <= s < |path| ::
      path[s] in at && LevelOf(at, top, path[s]) == top + s && OnWay(at, top, path[s], way)
  }

  lemma NoPath(at: Places, top: Level, way: Way)
    ensures Path(at, top, way, [])
  {
  }

  /** Where the pruning loop of an unmapping stands. */
  ghost predicate Pruning(t0: Tables, at0: Places, t: Tables, at: Places, root: nat, top: Level, way: Way,
                          path: seq<nat>, c: nat, tight: bool)
  {
    && Pruned(t0, at0, t, at, root, top, way, c, top + |path|)
    && Path(at, top, way, path)
    && (tight ==> NoBlankBut(t, at, root, top, c))
  }

  lemma PruningStep(t0: Tables, at0: Places, t: Tables, at: Places, root: nat, top: Level, way: Way,
                    path: seq<nat>, c: nat, tight: bool)
    requires Pruning(t0, at0, t, at, root, top, way, path, c, tight) && path != []
    requires Blank(top + |path|, t[c])
    ensures var n := |path| - 1;
            var p := path[n];
            && p in t && p != c && way[top + n] < |t[p]| && c in t && |t[c]| == Entries(top + n + 1)
            && var t1 := Without(Store(t, p, way[top + n], EmptyWord(top + n)), c);
            && Pruning(t0, at0, t1, Without(at, c), root, top, way, path[..n], p, tight)
  {
    var n := |path| - 1;
    var p := path[n];
    RowLength(t, at, root, top, c);
    PruneStep(t0, at0, t, at, root, top, way, c, top + |path|);
    PlacesAreUnique(t, at, root, top, p, at[c].parent);
    assert Without(Store(t, p, way[top + n], EmptyWord(top + n)), c) == CutTables(t, at, top, c);
  }

  lemma PruningFacts(t0: Tables, at0: Places, t: Tables, at: Places, root: nat, top: Level, way: Way,
                     path: seq<nat>, c: nat, tight: bool)
    requires Pruning(t0, at0, t, at, root, top, way, path, c, tight)
    ensures top + |path| <= PAGE && c in t && Wf(t, at, root, top) && Extends(at, at0)
    ensures SameTranslations(t0, t, root, top)
    ensures tight && (path == [] || !Blank(top + |path|, t[c])) ==> NoBlank(t, at, root, top)
  {
    if path == [] {
      PlacesAreUnique(t, at, root, top, c, root);
    }
  }

  lemma PathStep(t: Tables, at: Places, root: nat, top: Level, way: Way, path: seq<nat>, c: nat, l: Level)
    requires Wf(t, at, root, top) && Path(at, top, way, path) && |path| == l - top
    requires c in at && LevelOf(at, top, c) == l && OnWay(at, top, c, way)
    requires way[l] < |t[c]| && IsLink(l, t[c][way[l]])
    ensures var o := t[c][way[l]].origin;
            o in at && LevelOf(at, top, o) == l + 1 && OnWay(at, top, o, way) && Path(at, top, way, path + [c])
  {
    StepOnWay(t, at, root, top, c, way);
  }

  /** Clearing the leaf starts the pruning. */
  lemma PruningStart(t: Tables, at: Places, root: nat, top: Level, way: Way, path: seq<nat>, c: nat, k: Level)
    requires Wf(t, at, root, top) && Path(at, top, way, path) && |path| == k - top
    requires c in at && LevelOf(at, top, c) == k && OnWay(at, top, c, way)
    requires way[k] < |t[c]| && IsLeaf(k, t[c][way[k]])
    ensures var t1 := Store(t, c, way[k], EmptyWord(k));
            && Pruning(t1, at, t1, at, root, top, way, path, c, NoBlank(t, at, root, top))
            && Updated(t, t1, root, top, k, way, Miss)
            && Uniform(t, root, top, k, way, Hit(k, t[c][way[k]]))
  {
    ReplaceLeaf(t, at, root, top, way, c, k, EmptyWord(k));
    ExtendsRefl(at);
  }

  lemma UpdatedThen(t: Tables, t1: Tables, t2: Tables, root: nat, top: Level, k: Level, way: Way, h: Hit)
    requires top <= k && Updated(t, t1, root, top, k, way, h) && SameTranslations(t1, t2, root, top)
    ensures Updated(t, t2, root, top, k, way, h)
  {
    forall v: Way ensures Lookup(t2, root, top, v) == if SameEntry(top, k, v, way) then h else Lookup(t, root, top, v) {
      assert Lookup(t1, root, top, v) == Lookup(t2, root, top, v);
    }
  }
}
