/**
  Range mapping as a transaction: either the whole range is mapped, with the largest leaves that
  fit, or the rollback leaves exactly the tree and the table blocks that were there before.
 */
module DatRange {
  import opened Arith
  import opened DatWord
  import opened DatTree
  import opened DatGraft
  import opened DatLink
  import opened DatPhases
  import opened DatSpace

  /** One leaf that a range mapping installed. */
  datatype Leaf = Leaf(level: Level, page: nat, word: Word)

  ghost predicate Covers(top: Level, s: Leaf, v: Way) {
    top <= s.level && SameEntry(top, s.level, v, WayOf(s.page))
  }

  ghost predicate Disjoint(top: Level, log: seq<Leaf>) {
    forall v: Way, i, j {:trigger Covers(top, log[i], v), Covers(top, log[j], v)} |
      0 <= i < j < |log| :: !(Covers(top, log[i], v) && Covers(top, log[j], v))
  }

  /** The tree t is t0 plus the leaves in log, none of which t0 translated. */
  ghost predicate Mapped(t0: Tables, t: Tables, root: nat, top: Level, log: seq<Leaf>) {
    && Disjoint(top, log)
    && (forall i | 0 <= i < |log| :: top <= log[i].level)
    && (forall v: Way, i {:trigger Covers(top, log[i], v)} | 0 <= i < |log| && Covers(top, log[i], v) ::
          Lookup(t, root, top, v) == Hit(log[i].level, log[i].word) && Lookup(t0, root, top, v) == Miss)
    && (forall v: Way | (forall i | 0 <= i < |log| :: !Covers(top, log[i], v)) ::
          Lookup(t, root, top, v) == Lookup(t0, root, top, v))
  }

  lemma MappedNothing(t: Tables, root: nat, top: Level)
    ensures Mapped(t, t, root, top, [])
  {
  }

  lemma NoOverlap(t0: Tables, t: Tables, root: nat, top: Level, log: seq<Leaf>, s: Leaf, v: Way, i: nat)
    requires Mapped(t0, t, root, top, log) && top <= s.level
    requires Uniform(t, root, top, s.level, WayOf(s.page), Miss)
    requires i < |log| && Covers(top, log[i], v)
    ensures !Covers(top, s, v)
  {
    assert Lookup(t, root, top, v).Hit?;
  }

  lemma MappedAdd(t0: Tables, t: Tables, t1: Tables, root: nat, top: Level, log: seq<Leaf>, s: Leaf)
    requires Mapped(t0, t, root, top, log) && top <= s.level
    requires Uniform(t, root, top, s.level, WayOf(s.page), Miss)
    requires Updated(t, t1, root, top, s.level, WayOf(s.page), Hit(s.level, s.word))
    ensures Mapped(t0, t1, root, top, log + [s])
  {
    var log1 := log + [s];
    forall v: Way, i, j | 0 <= i < j < |log1| ensures !(Covers(top, log1[i], v) && Covers(top, log1[j], v)) {
      if Covers(top, log1[i], v) {
        assert log1[i] == log[i];
        if j == |log| {
          NoOverlap(t0, t, root, top, log, s, v, i);
        } else {
          assert log1[j] == log[j];
        }
      }
    }
    forall v: Way, i | 0 <= i < |log1| && Covers(top, log1[i], v)
      ensures Lookup(t1, root, top, v) == Hit(log1[i].level, log1[i].word) && Lookup(t0, root, top, v) == Miss
    {
      if i < |log| {
        NoOverlap(t0, t, root, top, log, s, v, i);
      } else {
        assert Lookup(t, root, top, v) == Miss;
        assert forall j | 0 <= j < |log| :: !Covers(top, log[j], v);
      }
    }
    forall v: Way | (forall i | 0 <= i < |log1| :: !Covers(top, log1[i], v))
      ensures Lookup(t1, root, top, v) == Lookup(t0, root, top, v)
    {
      assert !Covers(top, log1[|log|], v);
      forall i | 0 <= i < |log| ensures !Covers(top, log[i], v) { assert log1[i] == log[i]; }
    }
  }

  /** The first leaf is found where it was put, and without it the rest stays mapped. */
  lemma MappedDrop(t0: Tables, t: Tables, root: nat, top: Level, log: seq<Leaf>)
    requires Mapped(t0, t, root, top, log) && log != []
    ensures top <= log[0].level && Lookup(t, root, top, WayOf(log[0].page)) == Hit(log[0].level, log[0].word)
    ensures forall t1: Tables | Updated(t, t1, root, top, log[0].level, WayOf(log[0].page), Miss) ::
              Mapped(t0, t1, root, top, log[1..])
  {
    var s, rest := log[0], log[1..];
    assert Covers(top, s, WayOf(s.page));
    forall t1: Tables | Updated(t, t1, root, top, s.level, WayOf(s.page), Miss)
      ensures Mapped(t0, t1, root, top, rest)
    {
      MappedRest(t0, t, t1, root, top, log);
    }
  }

  lemma MappedRest(t0: Tables, t: Tables, t1: Tables, root: nat, top: Level, log: seq<Leaf>)
    requires Mapped(t0, t, root, top, log) && log != []
    requires Updated(t, t1, root, top, log[0].level, WayOf(log[0].page), Miss)
    ensures Mapped(t0, t1, root, top, log[1..])
  {
    var s, rest := log[0], log[1..];
    forall v: Way, i, j | 0 <= i < j < |rest| ensures !(Covers(top, rest[i], v) && Covers(top, rest[j], v)) {
      assert rest[i] == log[i + 1] && rest[j] == log[j + 1];
    }
    forall v: Way, i | 0 <= i < |rest| && Covers(top, rest[i], v)
      ensures Lookup(t1, root, top, v) == Hit(rest[i].level, rest[i].word) && Lookup(t0, root, top, v) == Miss
    {
      assert rest[i] == log[i + 1];
      assert !Covers(top, log[0], v) by { assert Covers(top, log[i + 1], v); }
    }
    forall v: Way | (forall i | 0 <= i < |rest| :: !Covers(top, rest[i], v))
      ensures Lookup(t1, root, top, v) == Lookup(t0, root, top, v)
    {
      if Covers(top, s, v) {
        assert Lookup(t0, root, top, v) == Miss;
      } else {
        forall i | 0 <= i < |log| ensures !Covers(top, log[i], v) { assert i > 0 ==> rest[i - 1] == log[i]; }
      }
    }
  }

  /** Unmapping what a mapping installed restores the tree, table for table. */
  lemma UnmapUndoesMap(t0: Tables, at0: Places, t1: Tables, at1: Places, t2: Tables, at2: Places,
                       root: nat, top: Level, k: Level, way: Way, w: Word)
    requires top <= k
    requires Wf(t0, at0, root, top) && Wf(t1, at1, root, top) && Wf(t2, at2, root, top)
    requires Extends(at0, at1) && Extends(at2, at1)
    requires NoBlank(t0, at0, root, top) && NoBlank(t2, at2, root, top)
    requires Uniform(t0, root, top, k, way, Miss) && Updated(t0, t1, root, top, k, way, Hit(k, w))
    requires Updated(t1, t2, root, top, k, way, Miss)
    ensures t0 == t2 && at0 == at2
  {
    forall v: Way ensures Lookup(t0, root, top, v) == Lookup(t2, root, top, v) {
      assert Lookup(t1, root, top, v) == if SameEntry(top, k, v, way) then Hit(k, w) else Lookup(t0, root, top, v);
    }
    TreeIsDetermined(t0, at0, t2, at2, t1, at1, root, top);
  }

  /** A leaf mapped and unmapped again: every table block is as it was, and none is left over. */
  method MapThenUnmap(s: Space, k: Level, page: nat, frame: nat, prot: Prot) returns (r: Result<nat>)
    requires s.Valid() && s.Tight() && REGION_3 <= k && s.top <= k
    modifies s`tables, s`at, s`refused
    ensures s.Valid() && s.Tight() && s.tables == old(s.tables) && s.at == old(s.at)
    ensures r.Ok? ==> r.value == Span(k)
    ensures r.Err? ==> s.refused > old(s.refused) || !old(s.AllBacked()) || r == Err(RegionOverlap)
  {
    hide Wf, NoBlankBut, Extends, Updated, Uniform, LeafWord, Span;
    ghost var t0, at0, way, w := s.tables, s.at, WayOf(page), LeafWord(k, frame, prot);
    var m := s.MapLeaf(k, page, frame, prot);
    if m.Err? {
      return Err(m.error);
    }
    ghost var t1, at1 := s.tables, s.at;
    MappedHere(t0, t1, s.root, s.top, k, way, w);
    r := s.Unmap(page);
    UnmapUndoesMap(t0, at0, t1, at1, s.tables, s.at, s.root, s.top, k, way, w);
  }

  lemma MappedHere(t0: Tables, t1: Tables, root: nat, top: Level, k: Level, way: Way, w: Word)
    requires top <= k && Updated(t0, t1, root, top, k, way, Hit(k, w))
    ensures Lookup(t1, root, top, way) == Hit(k, w)
  {
    SameEntryRefl(top, k, way);
  }

  // ---- the transaction --------------------------------------------------------------------

  /** The leaves tile the pages from virt up to cursor, in order. */
  ghost predicate Tiles(virt: nat, cursor: nat, log: seq<Leaf>)
    decreases |log|
  {
    if log == [] then cursor == virt
    else
      && log[0].page == virt
      && REGION_3 <= log[0].level && virt % Span(log[0].level) == 0
      && Tiles(virt + Span(log[0].level), cursor, log[1..])
  }

  lemma {:induction false} TilesAdd(virt: nat, cursor: nat, log: seq<Leaf>, s: Leaf)
    requires Tiles(virt, cursor, log)
    requires s.page == cursor && REGION_3 <= s.level && cursor % Span(s.level) == 0
    ensures Tiles(virt, cursor + Span(s.level), log + [s])
    decreases |log|
  {
    if log == [] {
      assert ([] + [s])[1..] == [];
    } else {
      TilesAdd(virt + Span(log[0].level), cursor, log[1..], s);
      assert (log + [s])[1..] == log[1..] + [s];
    }
  }

  /** mmu_transaction::on_rollback */
  method OnRollback(s: Space, start: nat, cursor: nat, ghost log: seq<Leaf>, ghost t0: Tables, ghost at0: Places)
    requires s.Valid() && s.Tight()
    requires Wf(t0, at0, s.root, s.top) && NoBlank(t0, at0, s.root, s.top) && Extends(at0, s.at)
    requires Mapped(t0, s.tables, s.root, s.top, log) && Tiles(start, cursor, log)
    modifies s`tables, s`at
    ensures s.tables == t0 && s.at == at0 && s.Valid() && s.Tight()
  {
    hide Wf, NoBlankBut, Extends, Mapped, Updated, Uniform;
    ghost var t1, at1 := s.tables, s.at;
    ghost var rest := log;
    ExtendsRefl(at1);
    var va := start;
    while va < cursor
      invariant start <= va && s.Valid() && s.Tight() && Extends(s.at, at1)
      invariant Mapped(t0, s.tables, s.root, s.top, rest)
      invariant Tiles(va, cursor, rest)
      decreases |rest|
    {
      MappedDrop(t0, s.tables, s.root, s.top, rest);
      ghost var before := s.at;
      var r := s.Unmap(va);
      ExtendsTrans(s.at, before, at1);
      va := va + (match r case Ok(n) => n case Err(_) => 1);
      rest := rest[1..];
    }
    TilesEnd(va, cursor, rest);
    MappedEnd(t0, s.tables, s.root, s.top);
    TreeIsDetermined(t0, at0, s.tables, s.at, t1, at1, s.root, s.top);
  }

  lemma {:induction false} TilesEnd(virt: nat, cursor: nat, log: seq<Leaf>)
    requires Tiles(virt, cursor, log)
    ensures virt <= cursor && (virt == cursor <==> log == [])
    decreases |log|
  {
    if log != [] {
      TilesEnd(virt + Span(log[0].level), cursor, log[1..]);
    }
  }

  lemma MappedEnd(t0: Tables, t: Tables, root: nat, top: Level)
    requires Mapped(t0, t, root, top, [])
    ensures SameTranslations(t0, t, root, top)
  {
  }

  lemma ExtendsTrans(a: Places, b: Places, c: Places)
    requires Extends(a, b) && Extends(b, c)
    ensures Extends(a, c)
  {
  }

  /** The largest leaf that map_range tries for the next pages. */
  function NextLevel(edat1: bool, edat2: bool, va: nat, pa: nat, remaining: nat): (k: Level)
    ensures REGION_3 <= k
    ensures va % Span(k) == 0 && pa % Span(k) == 0
    ensures remaining > 0 ==> Span(k) <= remaining
  {
    if edat2 && remaining >= Span(REGION_3) && va % Span(REGION_3) == 0 && pa % Span(REGION_3) == 0 then REGION_3
    else if edat1 && remaining >= Span(SEGMENT) && va % Span(SEGMENT) == 0 && pa % Span(SEGMENT) == 0 then SEGMENT
    else PAGE
  }

  /** Leaf i of the log maps the frames that belong to its pages. */
  ghost predicate Frames(virt: nat, phys: nat, prot: Prot, log: seq<Leaf>) {
    forall i {:trigger log[i]} | 0 <= i < |log| ::
      && REGION_3 <= log[i].level && virt <= log[i].page
      && log[i].word == LeafWord(log[i].level, phys + (log[i].page - virt), prot)
      && (phys + (log[i].page - virt)) % Span(log[i].level) == 0
  }

  lemma StartRange(virt: nat, phys: nat, prot: Prot)
    ensures Tiles(virt, virt, []) && Frames(virt, phys, prot, [])
  {
  }

  lemma FramesAdd(virt: nat, phys: nat, prot: Prot, log: seq<Leaf>, k: Level, done: nat)
    requires Frames(virt, phys, prot, log) && REGION_3 <= k && (phys + done) % Span(k) == 0
    ensures Frames(virt, phys, prot, log + [Leaf(k, virt + done, LeafWord(k, phys + done, prot))])
  {
  }

  /** map_range, in pages; the root is a region table. */
  method MapRange(s: Space, virt: nat, phys: nat, len: nat, prot: Prot, edat1: bool, edat2: bool)
    returns (r: Result<nat>, ghost log: seq<Leaf>)
    requires s.Valid() && s.Tight() && s.top <= REGION_3
    modifies s
    ensures s.Valid() && s.Tight()
    ensures r.Err? ==> s.tables == old(s.tables) && s.at == old(s.at)
    ensures r.Err? ==> s.refused > old(s.refused) || !old(s.AllBacked()) || r == Err(RegionOverlap)
    ensures r == Err(RegionOverlap) ==> Occupied(old(s.tables), s.root, s.top, virt, len) || WrapsOver(s.top, virt, len)
    ensures r.Ok? ==>
              && r.value == len
              && Mapped(old(s.tables), s.tables, s.root, s.top, log)
              && Tiles(virt, virt + len, log) && Frames(virt, phys, prot, log)
  {
    hide Wf, NoBlankBut, Extends, Mapped, Updated, Uniform, Tiles, Frames, Span, LeafWord, NextLevel;
    StartRange(virt, phys, prot);
    ghost var t0, at0 := s.tables, s.at;
    log := [];
    MappedNothing(t0, s.root, s.top);
    ExtendsRefl(at0);
    var done := 0;
    while done < len
      invariant done <= len
      invariant s.Valid() && s.Tight() && Extends(at0, s.at)
      invariant Mapped(t0, s.tables, s.root, s.top, log)
      invariant Tiles(virt, virt + done, log) && Frames(virt, phys, prot, log)
      invariant s.refused == old(s.refused) && (old(s.AllBacked()) ==> s.AllBacked())
    {
      var k := NextLevel(edat1, edat2, virt + done, phys + done, len - done);
      ghost var t, before := s.tables, s.at;
      var m := s.MapLeaf(k, virt + done, phys + done, prot);
      ExtendsTrans(at0, before, s.at);
      if m.Err? {
        if m.error == RegionOverlap {
          ghost var v: Way :| SameEntry(s.top, k, v, WayOf(virt + done)) && Lookup(t, s.root, s.top, v).Hit?;
          WhyOverlap(t0, t, s.root, s.top, virt, len, log, done, k, v);
        }
        OnRollback(s, virt, virt + done, log, t0, at0);
        return Err(m.error), log;
      }
      ghost var leaf := Leaf(k, virt + done, LeafWord(k, phys + done, prot));
      MappedAdd(t0, t, s.tables, s.root, s.top, log, leaf);
      TilesAdd(virt, virt + done, log, leaf);
      FramesAdd(virt, phys, prot, log, k, done);
      log := log + [leaf];
      done := done + Span(k);
    }
    return Ok(len), log;
  }

  /** Some page of the range is mapped already. */
  ghost predicate Occupied(t: Tables, root: nat, top: Level, virt: nat, len: nat) {
    exists q: nat :: virt <= q < virt + len && Lookup(t, root, top, WayOf(q)).Hit?
  }

  /** Two pages of the range have the same indices in a tree of this height. */
  ghost predicate WrapsOver(top: Level, virt: nat, len: nat) {
    exists p: nat, q: nat :: virt <= p < q < virt + len && WayOf(p)[top..] == WayOf(q)[top..]
  }

  /** Lookup reads the indices from the root's level on. */
  lemma {:induction false} LowerIndices(t: Tables, f: nat, l: Level, u: Way, v: Way)
    requires u[l..] == v[l..]
    ensures Lookup(t, f, l, u) == Lookup(t, f, l, v)
    decreases PAGE - l
  {
    assert u[l] == u[l..][0] == v[l..][0] == v[l];
    if l < PAGE {
      assert u[l + 1..] == u[l..][1..] == v[l..][1..] == v[l + 1..];
      if f in t && |t[f]| == Entries(l) {
        LowerIndices(t, t[f][u[l]].origin, l + 1, u, v);
      }
    }
  }

  lemma IsOccupied(t: Tables, root: nat, top: Level, virt: nat, len: nat, q: nat)
    requires virt <= q < virt + len && Lookup(t, root, top, WayOf(q)).Hit?
    ensures Occupied(t, root, top, virt, len)
  {
  }

  lemma DoesWrap(top: Level, virt: nat, len: nat, p: nat, q: nat)
    requires virt <= p < q < virt + len && WayOf(p)[top..] == WayOf(q)[top..]
    ensures WrapsOver(top, virt, len)
  {
  }

  /** An entry found in use belongs to a page of the range, mapped before or by the range itself. */
  lemma WhyOverlap(t0: Tables, t: Tables, root: nat, top: Level, virt: nat, len: nat, log: seq<Leaf>, done: nat,
                   k: Level, v: Way)
    requires Mapped(t0, t, root, top, log) && Tiles(virt, virt + done, log) && top <= REGION_3 <= k
    requires (virt + done) % Span(k) == 0 && done + Span(k) <= len
    requires SameEntry(top, k, v, WayOf(virt + done)) && Lookup(t, root, top, v).Hit?
    ensures Occupied(t0, root, top, virt, len) || WrapsOver(top, virt, len)
  {
    var s := Leaf(k, virt + done, LeafWord(k, virt, NO_PROT));
    assert Covers(top, s, v);
    hide *;
    var q := PageInBlock(top, s, v);
    if Lookup(t0, root, top, v) == Lookup(t, root, top, v) {
      LowerIndices(t0, root, top, v, WayOf(q));
      IsOccupied(t0, root, top, virt, len, q);
    } else {
      var p := RangeChangesNothingElse(t0, t, root, top, virt, done, log, v);
      DoesWrap(top, virt, len, p, q);
    }
  }

  // ---- what that means for pages ----------------------------------------------------------

  /** Pages of one aligned block share their entries down to the level of the block. */
  lemma BlockSharesWay(k: Level, m: Level, p: nat, q: nat)
    requires m <= k && p % Span(k) == 0 && p <= q < p + Span(k)
    ensures q / Span(m) == p / Span(m)
  {
    var a, b := Span(k), Span(m) / Span(k);
    assert Span(m) == a * b;
    DivUnique(q, a, p / a, q - p);
    DivDiv(p, a, b);
    DivDiv(q, a, b);
  }

  lemma BlockCovered(top: Level, s: Leaf, q: nat)
    requires top <= s.level && s.page % Span(s.level) == 0 && s.page <= q < s.page + Span(s.level)
    ensures Covers(top, s, WayOf(q))
    ensures q % Span(s.level) == q - s.page
  {
    DivUnique(q, Span(s.level), s.page / Span(s.level), q - s.page);
    forall m: Level | top <= m <= s.level ensures WayOf(q)[m] == WayOf(s.page)[m] {
      BlockSharesWay(s.level, m, s.page, q);
    }
    assert WayOf(q)[top..s.level + 1] == WayOf(s.page)[top..s.level + 1];
  }

  lemma {:induction false} TileOf(virt: nat, cursor: nat, log: seq<Leaf>, q: nat) returns (i: nat)
    requires Tiles(virt, cursor, log) && virt <= q < cursor
    ensures i < |log| && log[i].page <= q < log[i].page + Span(log[i].level)
    ensures log[i].page % Span(log[i].level) == 0
    decreases |log|
  {
    if q < virt + Span(log[0].level) {
      i := 0;
    } else {
      i := TileOf(virt + Span(log[0].level), cursor, log[1..], q);
      i := i + 1;
    }
  }

  /** After a successful range mapping every page of the range translates to its own frame. */
  lemma RangeTranslates(t0: Tables, t: Tables, root: nat, top: Level, virt: nat, phys: nat, len: nat,
                        prot: Prot, log: seq<Leaf>, q: nat)
    requires Mapped(t0, t, root, top, log) && Tiles(virt, virt + len, log) && Frames(virt, phys, prot, log)
    requires virt <= q < virt + len
    ensures Lookup(t0, root, top, WayOf(q)) == Miss
    ensures var h := Lookup(t, root, top, WayOf(q));
            && h.Hit? && h.word.prot == prot
            && LeafBase(h.level, h.word) + q % Span(h.level) == phys + (q - virt)
  {
    var i := TileOf(virt, virt + len, log, q);
    BlockCovered(top, log[i], q);
    assert Covers(top, log[i], WayOf(q));
  }

  /** The page of an aligned block that a way through the block's entry leads to. */
  lemma PageInBlock(top: Level, s: Leaf, v: Way) returns (q: nat)
    requires REGION_3 <= s.level && Covers(top, s, v) && s.page % Span(s.level) == 0
    ensures s.page <= q < s.page + Span(s.level) && v[top..] == WayOf(q)[top..]
  {
    var k := s.level;
    var off := if k == PAGE then 0 else if k == SEGMENT then v[4] else v[3] * 0x100 + v[4];
    q := s.page + off;
    assert v[3] < 2048 && v[4] < 256;
    assert off < Span(k);
    BlockCovered(top, s, q);
    LowIndices(k, s.page, v[3], v[4]);
    forall m: Level | top <= m ensures v[m] == WayOf(q)[m] {
      if m <= k {
        assert v[top..k + 1][m - top] == WayOf(q)[top..k + 1][m - top];
      }
    }
    assert |v[top..]| == |WayOf(q)[top..]|;
  }

  lemma LowIndices(k: Level, p: nat, i3: nat, i4: nat)
    requires REGION_3 <= k && p % Span(k) == 0 && i3 < 2048 && i4 < 256
    ensures k < PAGE ==> ((p + (if k == SEGMENT then i4 else i3 * 0x100 + i4)) / Span(PAGE)) % Entries(PAGE) == i4
    ensures k < SEGMENT ==> ((p + i3 * 0x100 + i4) / Span(SEGMENT)) % Entries(SEGMENT) == i3
  {
    if k == SEGMENT {
      DivUnique(p + i4, 256, p / 256, i4);
    } else if k == REGION_3 {
      var a := p / Span(REGION_3);
      assert p == Span(REGION_3) * a;
      DivUnique(p + i3 * 0x100 + i4, 256, a * 2048 + i3, i4);
      DivUnique(a * 2048 + i3, 2048, a, i3);
    }
  }

  /** Only ways of pages in the range changed. */
  lemma RangeChangesNothingElse(t0: Tables, t: Tables, root: nat, top: Level, virt: nat, len: nat,
                                log: seq<Leaf>, v: Way) returns (q: nat)
    requires Mapped(t0, t, root, top, log) && Tiles(virt, virt + len, log)
    requires Lookup(t, root, top, v) != Lookup(t0, root, top, v)
    ensures virt <= q < virt + len && v[top..] == WayOf(q)[top..]
  {
    var i :| 0 <= i < |log| && Covers(top, log[i], v);
    hide *;
    TileBounds(virt, virt + len, log, i);
    q := PageInBlock(top, log[i], v);
  }

  lemma {:induction false} TileBounds(virt: nat, cursor: nat, log: seq<Leaf>, i: nat)
    requires Tiles(virt, cursor, log) && i < |log|
    ensures REGION_3 <= log[i].level && log[i].page % Span(log[i].level) == 0
    ensures virt <= log[i].page && log[i].page + Span(log[i].level) <= cursor
    decreases |log|
  {
    if i == 0 {
      TilesEnd(virt + Span(log[0].level), cursor, log[1..]);
    } else {
      TileBounds(virt + Span(log[0].level), cursor, log[1..], i - 1);
    }
  }
}
