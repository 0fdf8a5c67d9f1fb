/**
  The DAT engine: two-phase mapping with rollback, unmapping with pruning, translation and
  protection over raw table pages.  Addresses are page numbers; the byte offset within a page is
  not touched by translation.
 */
module DatSpace {
  import opened DatWord
  import opened DatTree
  import opened DatGraft
  import opened DatPending
  import opened DatLink
  import opened DatPhases

  datatype Error = HhdmInitFailed | ZoneExhausted | RegionOverlap | InvalidAddress

  datatype Result<T> = Ok(value: T) | Err(error: Error)

  /** virt_index_rt at every level */
  function WayOf(page: nat): Way {
    seq(5, l requires 0 <= l < 5 => (page / Span(l)) % Entries(l))
  }

  lemma EmptyTree(root: nat, top: Level)
    requires root != 0 && top < PAGE
    ensures var tables, at := map[root := EmptyTable(top)], map[root := Pos([], root)];
            && Wf(tables, at, root, top) && NoBlank(tables, at, root, top)
            && forall way: Way :: Lookup(tables, root, top, way) == Miss
  {
    var tables, at := map[root := EmptyTable(top)], map[root := Pos([], root)];
    assert IsInvalid(top, EmptyWord(top));
    assert TableOk(tables, at, root, top, root);
  }

  class Space {
    const root: nat
    const top: Level
    /** Frames that the higher-half direct map covers. */
    const backed: set<nat>
    /** Frames that the physical allocator may hand out. */
    const pool: set<nat>

    /** Every allocated table block with its content. */
    var tables: Tables
    ghost var at: Places
    /** How often the allocator had nothing to give. */
    ghost var refused: nat

    /** All tables, and all frames that may become tables, can be reached. */
    ghost predicate AllBacked()
      reads this
    {
      pool <= backed && tables.Keys <= backed
    }

    ghost predicate Valid()
      reads this
    {
      top < PAGE && Wf(tables, at, root, top)
    }

    /** No table but the root is blank. */
    ghost predicate Tight()
      reads this
    {
      NoBlank(tables, at, root, top)
    }

    ghost function Translate(way: Way): Hit
      reads this
    {
      Lookup(tables, root, top, way)
    }

    /** A space whose root table, once init_table has been over it, translates nothing. */
    constructor (root: nat, top: Level, backed: set<nat>, pool: set<nat>)
      requires root != 0 && top < PAGE
      ensures Valid() && Tight() && tables == map[root := EmptyTable(top)] && forall way: Way :: Translate(way) == Miss
      ensures this.root == root && this.top == top && this.backed == backed && this.pool == pool && refused == 0
    {
      this.root, this.top, this.backed, this.pool := root, top, backed, pool;
      tables, at, refused := map[root := EmptyTable(top)], map[root := Pos([], root)], 0;
      new;
      EmptyTree(root, top);
    }

    /** pmm::alloc of a block for a table of level l, which may fail at any call. */
    method Alloc(l: Level) returns (f: nat)
      modifies this`tables, this`refused
      ensures refused == old(refused) + if f == 0 then 1 else 0
      ensures f == 0 ==> tables == old(tables)
      ensures f != 0 ==>
                f in pool && f !in old(tables) && f in tables && |tables[f]| == Entries(l)
                    && Without(tables, f) == old(tables)
    {
      var candidates := pool - tables.Keys - {0};
      f := 0;
      if candidates != {} {
        if * {
          f :| f in candidates;
          var garbage: Word := *;
          var row: Row := seq(Entries(l), _ => garbage);
          tables := tables[f := row];
          return;
        }
      }
      refused := refused + 1;
    }

    /** pmm::free with the order that a table of level l was allocated with */
    method Free(f: nat, l: Level)
      requires f in tables && |tables[f]| == Entries(l)
      modifies this`tables
      ensures tables == Without(old(tables), f)
    {
      tables := Without(tables, f);
    }

    /** alloc_table_with_policy followed by init_table */
    method MakeTable(l: Level) returns (r: Result<nat>)
      modifies this`tables, this`refused
      ensures r.Err? ==>
                tables == old(tables) && (r.error == ZoneExhausted || (r.error == HhdmInitFailed && !(pool <= backed)))
      ensures refused == old(refused) + if r == Err(ZoneExhausted) then 1 else 0
      ensures r.Ok? ==>
                r.value in backed && r.value != 0 && r.value !in old(tables)
                    && tables == old(tables)[r.value := EmptyTable(l)]
    {
      var f := Alloc(l);
      if f == 0 {
        return Err(ZoneExhausted);
      }
      if f !in backed {
        Free(f, l);
        return Err(HhdmInitFailed);
      }
      tables := tables[f := EmptyTable(l)];
      return Ok(f);
    }

    /** alloc_stack::rollback */
    method Rollback(made: seq<nat>, l: nat, ghost t: Tables, ghost extra0: Tables)
      requires tables == t + extra0 && Blanks(extra0, made, l) && t.Keys !! extra0.Keys
      modifies this`tables
      ensures tables == t
    {
      var rest, m := made, l;
      ghost var extra := extra0;
      while rest != []
        invariant tables == t + extra && t.Keys !! extra.Keys && Blanks(extra, rest, m)
        decreases |rest|
      {
        SumWithout(t, extra, rest[0]);
        Free(rest[0], m);
        extra := Without(extra, rest[0]);
        rest, m := rest[1..], m + 1;
      }
    }

    /** One level of phase 1: the table below entry i of table f, made if it is missing. */
    method Child(k: Level, l: Level, f: nat, i: nat) returns (r: Result<(nat, bool)>)
      requires l < k && f in tables && i < |tables[f]|
      modifies this`tables, this`refused
      ensures refused == old(refused) + if r == Err(ZoneExhausted) then 1 else 0
      ensures var entry := old(tables)[f][i];
              match r
              case Err(e) =>
                && tables == old(tables) && (e == RegionOverlap ==> IsLeaf(l, entry))
                && (e == ZoneExhausted || e == RegionOverlap || (e == HhdmInitFailed && !old(AllBacked())))
              case Ok((child, made)) =>
                if made
                then IsInvalid(l, entry) && child != 0 && child !in old(tables) && child in backed
                  && tables == old(tables)[child := EmptyTable(l + 1)]
                else IsLink(l, entry) && child == entry.origin && tables == old(tables)
    {
      if k == PAGE && f !in backed {
        return Err(HhdmInitFailed);
      }
      var entry := tables[f][i];
      if IsInvalid(l, entry) {
        var child := MakeTable(l + 1);
        return match child case Err(e) => Err(e) case Ok(c) => Ok((c, true));
      }
      if IsLeaf(l, entry) {
        return Err(RegionOverlap);
      }
      return Ok((entry.origin, false));
    }

    /** Phase 1: walk down to the table of level k, making the tables that are missing. */
    method Descend(k: Level, way: Way)
      returns (r: Result<(seq<LevelState>, seq<nat>, nat)>, ghost c: nat, ghost extra: Tables)
      requires Valid() && REGION_3 <= k && top <= k
      modifies this`tables, this`refused
      ensures refused == old(refused) + if r == Err(ZoneExhausted) then 1 else 0
      ensures r.Err? ==>
                r.error == ZoneExhausted || r.error == RegionOverlap || (r.error == HhdmInitFailed && !old(AllBacked()))
      ensures r.Err? ==> tables == old(tables)
      ensures r.Ok? && old(AllBacked()) ==> r.value.2 in backed && tables.Keys <= backed
      ensures r == Err(RegionOverlap) ==> old(Translate(way)).Hit?
      ensures r.Ok? ==>
                var (states, made, current) := r.value;
                && |made| <= |states| == k - top
                && Descended(old(tables), at, root, top, way, states, made, c)
                && tables == old(tables) + extra && old(tables).Keys !! extra.Keys
                && Blanks(extra, made, k - |made| + 1)
                && current == Tip(c, made, |made|)
    {
      hide Descending, Descended, Wf, Blanks, EmptyTable, Lookup, Tip, IsLeaf, IsLink, IsInvalid;
      DescendingStart(tables, at, root, top, way);
      ghost var t := tables;
      var states: seq<LevelState>, made: seq<nat>, current, l := [], [], root, top;
      c, extra := root, map[];
      while l < k
        invariant top <= l <= k && Descending(t, at, extra, root, top, way, states, made, c, current, l)
        invariant tables == t + extra && refused == old(refused) && (old(AllBacked()) ==> tables.Keys <= backed)
      {
        DescendingFacts(t, at, extra, root, top, way, states, made, c, current, l);
        var child := Child(k, l, current, way[l]);
        if child.Err? {
          Rollback(made, l - |made| + 1, t, extra);
          r := Err(child.error);
          return;
        }
        var (next, isNew) := child.value;
        if isNew {
          DescendingMade(t, at, extra, root, top, way, states, made, c, current, l, next);
          extra := extra[next := EmptyTable(l + 1)];
          states, made := states + [LevelState(current, way[l], next)], made + [next];
        } else {
          DescendingExisting(t, at, extra, root, top, way, states, made, c, current, l);
          states := states + [LevelState(current, way[l], 0)];
          c := next;
        }
        current, l := next, l + 1;
      }
      DescendingFacts(t, at, extra, root, top, way, states, made, c, current, l);
      r := Ok((states, made, current));
    }

    /** Phase 2: link the tables made, from the top down. */
    method Link(k: Level, way: Way, states: seq<LevelState>, made: seq<nat>,
                ghost t: Tables, ghost c: nat, ghost extra: Tables) returns (walk: nat, ghost at1: Places)
      requires |made| <= |states| == k - top
      requires Descended(t, at, root, top, way, states, made, c)
      requires made == [] ==> c in t && way[k] < |t[c]| && IsInvalid(k, t[c][way[k]])
      requires tables == t + extra && t.Keys !! extra.Keys && Blanks(extra, made, k - |made| + 1)
      modifies this`tables
      ensures Linked(t, at, tables, at1, root, top, way, walk, k) && tables.Keys == old(tables).Keys
    {
      hide *;
      LinkingStart(t, at, extra, root, top, way, states, made, c);
      ghost var tree, rest := t, extra;
      at1 := at;
      walk := root;
      var i := 0;
      while i < |states|
        invariant 0 <= i <= |states|
        invariant Linking(t, at, tree, at1, rest, root, top, way, states, made, c, walk, i)
        invariant tables == tree + rest && tables.Keys == old(tables).Keys
      {
        var s := states[i];
        LinkingStep(t, at, tree, at1, rest, root, top, way, states, made, c, walk, i);
        if s.made != 0 {
          StoreKeys(tables, s.table, s.index, LinkWord(top + i, s.made));
          tables := Store(tables, s.table, s.index, LinkWord(top + i, s.made));
          tree, at1 := HangTables(tree, top + i, s.table, s.index, s.made), HangPlaces(at1, s.table, s.index, s.made);
          rest := Without(rest, s.made);
          walk := s.made;
        } else {
          walk := tables[s.table][s.index].origin;
        }
        i := i + 1;
      }
      LinkingEnd(t, at, tree, at1, rest, root, top, way, states, made, c, walk);
    }

    /**
      map_page_impl, map_large_1m_impl and map_large_2g_impl, for a leaf of level k.
      On success exactly the ways through one entry change, from Miss to the new leaf; on failure
      nothing changes, whatever was allocated on the way down.
     */
    method MapLeaf(k: Level, page: nat, frame: nat, prot: Prot) returns (r: Result<()>)
      requires Valid() && REGION_3 <= k && top <= k
      modifies this`tables, this`at, this`refused
      ensures Valid() && Extends(old(at), at)
      ensures refused == old(refused) + if r == Err(ZoneExhausted) then 1 else 0
      ensures r.Err? ==>
                r.error == ZoneExhausted || r.error == RegionOverlap || (r.error == HhdmInitFailed && !old(AllBacked()))
      ensures old(AllBacked()) ==> AllBacked()
      ensures r.Err? ==> tables == old(tables) && at == old(at)
      ensures r.Ok? ==>
                && Uniform(old(tables), root, top, k, WayOf(page), Miss)
                && Updated(old(tables), tables, root, top, k, WayOf(page), Hit(k, LeafWord(k, frame, prot)))
      ensures old(Tight()) ==> Tight()
      ensures r == Err(RegionOverlap) && old(Tight()) ==>
                exists v: Way :: SameEntry(top, k, v, WayOf(page)) && old(Translate(v)).Hit?
    {
      hide Wf, Descended, Blanks, Linked, NoBlankBut, Updated, Uniform, Extends, Lookup, Tip, IsInvalid, LeafWord,
          SameEntry, OnWay;
      var way := WayOf(page);
      ghost var t := tables;
      var d, c, extra := Descend(k, way);
      if d.Err? {
        r := Err(d.error);
        SameEntryRefl(top, k, way);
        ExtendsRefl(at);
        return;
      }
      var (states, made, current) := d.value;
      TipEntry(t, at, extra, root, top, way, states, made, c);
      if k == PAGE && current !in backed {
        Rollback(made, k - |made| + 1, t, extra);
        ExtendsRefl(at);
        return Err(HhdmInitFailed);
      }
      if !IsInvalid(k, tables[current][way[k]]) {
        Rollback(made, k - |made| + 1, t, extra);
        ExtendsRefl(at);
        if Tight() {
          Overlap(t, at, root, top, k, way, c);
        }
        return Err(RegionOverlap);
      }
      var walk, at1 := Link(k, way, states, made, t, c, extra);
      LinkedFacts(t, at, tables, at1, root, top, way, walk, k);
      LinkLeaf(t, at, tables, at1, root, top, way, walk, k, LeafWord(k, frame, prot));
      tables := Store(tables, walk, way[k], LeafWord(k, frame, prot));
      at := at1;
      return Ok(());
    }

    /** table_is_empty */
    method TableIsEmpty(l: Level, f: nat) returns (r: bool)
      requires f in tables
      ensures r == Blank(l, tables[f])
    {
      var i := 0;
      while i < |tables[f]|
        invariant 0 <= i <= |tables[f]|
        invariant forall j | 0 <= j < i :: IsInvalid(l, tables[f][j])
      {
        if !IsInvalid(l, tables[f][i]) {
          return false;
        }
        i := i + 1;
      }
      return true;
    }

    /** walk_impl: the frame that page translates to. */
    method Walk(page: nat) returns (r: Result<nat>)
      requires Valid()
      ensures match Translate(WayOf(page))
              case Miss => r == Err(InvalidAddress)
              case Hit(l, w) => r == Ok(LeafBase(l, w) + page % Span(l))
    {
      var way, current, l := WayOf(page), root, top;
      while l < PAGE
        invariant top <= l <= PAGE
        invariant current in at && LevelOf(at, top, current) == l && OnWay(at, top, current, way)
        invariant Lookup(tables, current, l, way) == Translate(way)
      {
        RowLength(tables, at, root, top, current);
        var entry := tables[current][way[l]];
        if IsInvalid(l, entry) {
          return Err(InvalidAddress);
        }
        if IsLeaf(l, entry) {
          return Ok(LeafBase(l, entry) + page % Span(l));
        }
        StepOnWay(tables, at, root, top, current, way);
        current, l := entry.origin, l + 1;
      }
      RowLength(tables, at, root, top, current);
      var entry := tables[current][way[PAGE]];
      if IsInvalid(PAGE, entry) {
        return Err(InvalidAddress);
      }
      return Ok(LeafBase(PAGE, entry));
    }

    /** protect_impl: the translation keeps its frame, every other translation is untouched. */
    method Protect(page: nat, prot: Prot) returns (r: Result<()>)
      requires Valid()
      modifies this`tables
      ensures Valid()
      ensures old(Tight()) ==> Tight()
      ensures match old(Translate(WayOf(page)))
              case Miss => r == Err(InvalidAddress) && tables == old(tables)
              case Hit(l, w) =>
                var w' := LeafWord(l, LeafBase(l, w), prot);
                && r == Ok(())
                && Uniform(old(tables), root, top, l, WayOf(page), Hit(l, w))
                && Updated(old(tables), tables, root, top, l, WayOf(page), Hit(l, w'))
                && LeafBase(l, w') == LeafBase(l, w) && w'.prot == prot
    {
      hide Wf, OnWay, NoBlankBut, Updated, Uniform;
      var way, current, l := WayOf(page), root, top;
      RootOnWay(tables, at, root, top, way);
      while l < PAGE
        invariant top <= l <= PAGE && tables == old(tables)
        invariant current in at && LevelOf(at, top, current) == l && OnWay(at, top, current, way)
        invariant Lookup(tables, current, l, way) == old(Translate(way))
      {
        RowLength(tables, at, root, top, current);
        var entry := tables[current][way[l]];
        if IsInvalid(l, entry) {
          return Err(InvalidAddress);
        }
        if IsLeaf(l, entry) {
          ReplaceLeaf(tables, at, root, top, way, current, l, LeafWord(l, LeafBase(l, entry), prot));
          tables := Store(tables, current, way[l], LeafWord(l, LeafBase(l, entry), prot));
          return Ok(());
        }
        StepOnWay(tables, at, root, top, current, way);
        current, l := entry.origin, l + 1;
      }
      RowLength(tables, at, root, top, current);
      var entry := tables[current][way[PAGE]];
      if IsInvalid(PAGE, entry) {
        return Err(InvalidAddress);
      }
      ReplaceLeaf(tables, at, root, top, way, current, PAGE, LeafWord(PAGE, entry.origin, prot));
      tables := Store(tables, current, way[PAGE], LeafWord(PAGE, entry.origin, prot));
      return Ok(());
    }

    /**
      unmap_at_impl: removes whatever maps the page (4 KiB, 1 MiB or 2 GiB) and then the tables
      that became blank, from the bottom up.  Returns the number of pages unmapped.
     */
    method Unmap(page: nat) returns (r: Result<nat>)
      requires Valid()
      modifies this`tables, this`at
      ensures Valid() && Extends(at, old(at))
      ensures old(Tight()) ==> Tight()
      ensures match old(Translate(WayOf(page)))
              case Miss => r == Err(InvalidAddress) && tables == old(tables) && at == old(at)
              case Hit(l, w) =>
                && r == Ok(Span(l))
                && Uniform(old(tables), root, top, l, WayOf(page), Hit(l, w))
                && Updated(old(tables), tables, root, top, l, WayOf(page), Miss)
    {
      hide Wf, OnWay, NoBlankBut, Updated, Uniform, Path, Pruning, SameTranslations, Extends;
      var way, current, l := WayOf(page), root, top;
      var path: seq<nat>, indices: seq<nat> := [], [];
      ghost var t, at0 := tables, at;
      RootOnWay(tables, at, root, top, way);
      ExtendsRefl(at);
      NoPath(at, top, way);
      while l < PAGE
        invariant tables == t && at == at0
        invariant top <= l <= PAGE && |path| == |indices| == l - top
        invariant current in at && LevelOf(at, top, current) == l && OnWay(at, top, current, way)
        invariant Path(at, top, way, path)
        invariant forall i | 0 <= i < |indices| :: indices[i] == way[top + i]
        invariant Lookup(tables, current, l, way) == Lookup(tables, root, top, way)
      {
        RowLength(tables, at, root, top, current);
        var entry := tables[current][way[l]];
        if IsInvalid(l, entry) {
          return Err(InvalidAddress);
        }
        if IsLeaf(l, entry) {
          break;
        }
        PathStep(tables, at, root, top, way, path, current, l);
        path, indices := path + [current], indices + [way[l]];
        current, l := entry.origin, l + 1;
      }
      RowLength(tables, at, root, top, current);
      if IsInvalid(l, tables[current][way[l]]) {
        return Err(InvalidAddress);
      }
      PruningStart(tables, at, root, top, way, path, current, l);
      ghost var tight := Tight();
      var k := l;
      tables := Store(tables, current, way[l], EmptyWord(l));
      ghost var t1 := tables;
      Prune(way, path, indices, current, k, t1, at0, tight);
      UpdatedThen(t, t1, tables, root, top, k, way, Miss);
      return Ok(Span(k));
    }

    /** The pruning loop of unmap_at_impl. */
    method Prune(way: Way, path: seq<nat>, indices: seq<nat>, c: nat, k: Level,
                 ghost t1: Tables, ghost at0: Places, ghost tight: bool)
      requires |path| == |indices| == k - top
      requires forall i | 0 <= i < |indices| :: indices[i] == way[top + i]
      requires Pruning(t1, at0, tables, at, root, top, way, path, c, tight)
      modifies this`tables, this`at
      ensures Wf(tables, at, root, top) && Extends(at, at0) && SameTranslations(t1, tables, root, top)
      ensures tight ==> NoBlank(tables, at, root, top)
    {
      hide Pruning, Wf, Extends, SameTranslations, NoBlankBut, Blank;
      var current, l := c, k;
      assert path[..k - top] == path;
      while l > top
        invariant top <= l <= k
        invariant Pruning(t1, at0, tables, at, root, top, way, path[..l - top], current, tight)
      {
        ghost var above := path[..l - top];
        PruningFacts(t1, at0, tables, at, root, top, way, above, current, tight);
        var empty := TableIsEmpty(l, current);
        if !empty {
          return;
        }
        PruningStep(t1, at0, tables, at, root, top, way, above, current, tight);
        assert above[..l - top - 1] == path[..l - top - 1];
        var parent, index := path[l - top - 1], indices[l - top - 1];
        tables := Store(tables, parent, index, EmptyWord(l - 1));
        Free(current, l);
        at := Without(at, current);
        current, l := parent, l - 1;
      }
      PruningFacts(t1, at0, tables, at, root, top, way, [], current, tight);
    }
  }
}
