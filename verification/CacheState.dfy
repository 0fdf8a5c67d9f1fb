/** Page-cache slots: life cycle, pins, bindings and dirty pages, as one value, and the steps that change it. */
module CacheState {
  import opened Wrappers
  import opened SlotIndex

  const PAGE_CACHE_INDEX_SLOTS: nat := 8192
  const GENERATIONS: nat := 0xFFFF_FFFF

  datatype Phase = Empty | Loading | Ready | Writeback | Evicting

  datatype Entry = Entry(phase: Phase, node: nat, index: nat, phys: nat, key: nat, refs: nat, dirty: bool, gen: nat)

  /** A slot at a generation: names a mapping, and likewise an operation under way. */
  datatype Binding = Binding(slot: nat, gen: nat)

  /** Chained by key; chained by frame; holding a frame. */
  predicate KeyIn(e: Entry) { e.phase == Loading || e.phase == Ready || e.phase == Writeback }
  predicate PhysIn(e: Entry) { e.phase == Ready || e.phase == Writeback }
  predicate HasFrame(e: Entry) { e.phase == Ready || e.phase == Writeback || e.phase == Evicting }

  /** The hash functions, whatever they are. */
  datatype Hashes = Hashes(key: (nat, nat) -> nat, phys: nat -> nat)

  function KeyBucket(h: Hashes, node: nat, index: nat): (b: nat)
    ensures b < PAGE_CACHE_INDEX_SLOTS
  {
    h.key(node, index) % PAGE_CACHE_INDEX_SLOTS
  }

  function PhysBucket(h: Hashes, phys: nat): (b: nat)
    ensures b < PAGE_CACHE_INDEX_SLOTS
  {
    h.phys(phys) % PAGE_CACHE_INDEX_SLOTS
  }

  // ---- generations ---------------------------------------------------------------------------

  /** next_generation: 32 bits, never 0. */
  function NextGeneration(g: nat): nat {
    if (g + 1) % 0x1_0000_0000 == 0 then 1 else (g + 1) % 0x1_0000_0000
  }

  /** Generation of a slot after a number of resets. */
  function Generation(serial: nat): nat {
    if serial == 0 then 0 else 1 + (serial - 1) % GENERATIONS
  }

  lemma GenerationStep(serial: nat)
    ensures NextGeneration(Generation(serial)) == Generation(serial + 1)
  {
    if serial > 0 {
      var r := (serial - 1) % GENERATIONS;
      if r == GENERATIONS - 1 {
        assert serial % GENERATIONS == 0;
      } else {
        assert serial % GENERATIONS == r + 1;
      }
    }
  }

  /** A slot shows an old generation again exactly after a whole number of cycles. */
  lemma GenerationsDiffer(a: nat, b: nat)
    requires 0 < a < b
    ensures Generation(a) == Generation(b) <==> (b - a) % GENERATIONS == 0
    ensures b < a + GENERATIONS ==> Generation(a) != Generation(b)
  {
  }

  // ---- the state ---------------------------------------------------------------------------------

  /**
    Entries and the buckets they are chained in; reference counts of frames, and how much of them is due to
    others than the cache and its mappings, such as portals; change bits of frames; live bindings;
    loads, write-backs and evictions under way; evicting slots whose pin is gone; slots whose page has
    been written since it was last read from or written to the file; number of resets of each slot.
   */
  datatype World = World(
    entries: seq<Entry>, keyHome: seq<Option<nat>>, physHome: seq<Option<nat>>, freeHome: seq<Option<nat>>,
    pins: multiset<nat>, foreign: multiset<nat>, changed: set<nat>, bindings: multiset<Binding>,
    loads: set<Binding>, writes: set<Binding>, evicts: set<Binding>,
    unpinned: set<nat>, unsaved: set<nat>, serial: seq<nat>)

  ghost predicate Held(w: World, i: nat)
    requires i < |w.entries|
  {
    HasFrame(w.entries[i]) && i !in w.unpinned
  }

  ghost predicate Sized(w: World) {
    |w.keyHome| == |w.physHome| == |w.freeHome| == |w.serial| == |w.entries|
  }

  /** Each slot is free, chained by key, chained by key and frame, or in no chain, as its phase says. */
  ghost predicate Chained(w: World, h: Hashes, i: nat)
    requires Sized(w) && i < |w.entries|
  {
    var e := w.entries[i];
    && w.keyHome[i] == (if KeyIn(e) then Some(KeyBucket(h, e.node, e.index)) else None)
    && w.physHome[i] == (if PhysIn(e) then Some(PhysBucket(h, e.phys)) else None)
    && w.freeHome[i] == (if e.phase == Empty then Some(0) else None)
  }

  /** One pin for the cache, one for every mapping, and those of others; only ready pages are mapped. */
  ghost predicate Pinned(w: World, i: nat)
    requires i < |w.entries|
  {
    var e := w.entries[i];
    && (Held(w, i) ==> w.pins[e.phys] == 1 + e.refs + w.foreign[e.phys])
    && (e.refs > 0 ==> e.phase == Ready)
    && (i in w.unpinned ==> e.phase == Evicting)
  }

  ghost predicate Bound(w: World, i: nat)
    requires Sized(w) && i < |w.entries|
  {
    var e := w.entries[i];
    && e.gen == Generation(w.serial[i])
    && forall g: nat :: w.bindings[Binding(i, g)] == if g == e.gen then e.refs else 0
  }

  /** Operations under way are those that the phases tell of, at the right generation. */
  ghost predicate UnderWay(w: World, i: nat)
    requires i < |w.entries|
  {
    var e := w.entries[i];
    && (forall g: nat :: Binding(i, g) in w.loads <==> e.phase == Loading && g == e.gen)
    && (forall g: nat :: Binding(i, g) in w.writes <==> e.phase == Writeback && g == e.gen)
    && (forall g: nat :: Binding(i, g) in w.evicts <==> e.phase == Evicting && g == e.gen)
  }

  /** What has been written and not saved is known to be dirty, or its change bit is on; it is never on its way out. */
  ghost predicate Tracked(w: World, i: nat)
    requires i < |w.entries|
  {
    var e := w.entries[i];
    i in w.unsaved ==> PhysIn(e) && (e.dirty || e.phys in w.changed)
  }

  ghost predicate Local(w: World, h: Hashes, i: nat)
    requires Sized(w) && i < |w.entries|
  {
    Chained(w, h, i) && Pinned(w, i) && Bound(w, i) && UnderWay(w, i) && Tracked(w, i)
  }

  /** Keys of chained slots differ, and so do frames. */
  ghost predicate Differ(w: World, i: nat, j: nat)
    requires i < |w.entries| && j < |w.entries|
  {
    var a, b := w.entries[i], w.entries[j];
    i != j ==>
      && (KeyIn(a) && KeyIn(b) ==> a.node != b.node || a.index != b.index)
      && (Held(w, i) && Held(w, j) ==> a.phys != b.phys)
  }

  /** A frame that the cache does not hold has the pins of others only. */
  ghost predicate Settled(w: World, f: nat) {
    (forall i: nat | i < |w.entries| && Held(w, i) :: w.entries[i].phys != f) ==> w.pins[f] == w.foreign[f]
  }

  ghost predicate Inv(w: World, h: Hashes) {
    && Sized(w)
    && (forall f: nat :: Settled(w, f))
    && (forall i: nat | i < |w.entries| :: Local(w, h, i))
    && (forall i: nat, j: nat | i < |w.entries| && j < |w.entries| :: Differ(w, i, j))
  }

  /** Nothing but slot i, and frames that no other slot holds, has changed. */
  ghost predicate SameBut(w: World, w': World, i: nat) {
    && Sized(w) && Sized(w') && |w'.entries| == |w.entries| && i < |w.entries|
    && (forall j: nat {:trigger w'.entries[j]} | j < |w.entries| && j != i ::
         && w'.entries[j] == w.entries[j] && w'.keyHome[j] == w.keyHome[j] && w'.physHome[j] == w.physHome[j]
         && w'.freeHome[j] == w.freeHome[j] && w'.serial[j] == w.serial[j]
         && (j in w'.unpinned <==> j in w.unpinned) && (j in w'.unsaved <==> j in w.unsaved)
         && (Held(w, j) ==>
               && var f := w.entries[j].phys;
               && w'.pins[f] == w.pins[f] && w'.foreign[f] == w.foreign[f]
               && (f in w'.changed <==> f in w.changed)))
    && (forall f: nat | f != w.entries[i].phys && f != w'.entries[i].phys ::
         w'.pins[f] == w.pins[f] && w'.foreign[f] == w.foreign[f])
    && (forall b: Binding | b.slot != i ::
         && w'.bindings[b] == w.bindings[b] && (b in w'.loads <==> b in w.loads)
         && (b in w'.writes <==> b in w.writes) && (b in w'.evicts <==> b in w.evicts))
  }

  lemma OtherLocal(w: World, w': World, h: Hashes, i: nat, j: nat)
    requires SameBut(w, w', i) && j < |w.entries| && j != i && Local(w, h, j)
    ensures Local(w', h, j)
  {
    assert w'.entries[j] == w.entries[j];
    forall g: nat ensures w'.bindings[Binding(j, g)] == if g == w'.entries[j].gen then w'.entries[j].refs else 0 {
      assert w.bindings[Binding(j, g)] == if g == w.entries[j].gen then w.entries[j].refs else 0;
    }
  }

  /** A frame stays settled if its pins stay, and the slot that changes holds it as before. */
  lemma StaysSettled(w: World, w': World, i: nat, f: nat)
    requires SameBut(w, w', i) && Settled(w, f) && w'.pins[f] == w.pins[f] && w'.foreign[f] == w.foreign[f]
    requires Held(w, i) && w.entries[i].phys == f ==> Held(w', i) && w'.entries[i].phys == f
    ensures Settled(w', f)
  {
    if forall j: nat | j < |w'.entries| && Held(w', j) :: w'.entries[j].phys != f {
      forall j: nat | j < |w.entries| && Held(w, j) ensures w.entries[j].phys != f {
        assert j != i ==> w'.entries[j] == w.entries[j] && Held(w', j);
      }
    }
  }

  /** A step is right if it is right for the slot it changes and for the frames of that slot. */
  lemma Step(w: World, w': World, h: Hashes, i: nat)
    requires Inv(w, h) && SameBut(w, w', i) && i < |w.entries| && Local(w', h, i)
    requires forall j: nat | j < |w.entries| :: Differ(w', i, j)
    requires Settled(w', w.entries[i].phys) && Settled(w', w'.entries[i].phys)
    ensures Inv(w', h)
  {
    forall f: nat ensures Settled(w', f) {
      if f != w.entries[i].phys && f != w'.entries[i].phys {
        assert Settled(w, f);
        StaysSettled(w, w', i, f);
      }
    }
    forall j: nat | j < |w'.entries| ensures Local(w', h, j) {
      if j != i {
        assert Local(w, h, j);
        OtherLocal(w, w', h, i, j);
      }
    }
    forall j: nat, k: nat | j < |w'.entries| && k < |w'.entries| ensures Differ(w', j, k) {
      if j != i && k != i {
        assert Differ(w, j, k);
        assert w'.entries[j] == w.entries[j] && w'.entries[k] == w.entries[k];
      } else if k == i {
        assert Differ(w', i, j);
      }
    }
  }

  /** The same for a step that leaves all pins alone and lets go of no frame. */
  lemma StepInPlace(w: World, w': World, h: Hashes, i: nat)
    requires Inv(w, h) && SameBut(w, w', i) && Local(w', h, i) && w'.pins == w.pins && w'.foreign == w.foreign
    requires forall j: nat | j < |w.entries| :: Differ(w', i, j)
    requires Held(w, i) ==> Held(w', i) && w'.entries[i].phys == w.entries[i].phys
    ensures Inv(w', h)
  {
    forall f: nat ensures Settled(w', f) {
      assert Settled(w, f);
      StaysSettled(w, w', i, f);
    }
    Step(w, w', h, i);
  }

  // ---- counting frames -------------------------------------------------------------------------

  ghost function Frames(entries: seq<Entry>): nat {
    if entries == [] then 0
    else Frames(entries[..|entries| - 1]) + if HasFrame(entries[|entries| - 1]) then 1 else 0
  }

  lemma {:induction false} FramesUpdate(entries: seq<Entry>, i: nat, e: Entry)
    requires i < |entries|
    ensures Frames(entries[i := e]) + (if HasFrame(entries[i]) then 1 else 0)
         == Frames(entries) + if HasFrame(e) then 1 else 0
    decreases |entries|
  {
    var n := |entries| - 1;
    if i < n {
      assert entries[i := e][..n] == entries[..n][i := e];
      FramesUpdate(entries[..n], i, e);
    } else {
      assert entries[i := e][..n] == entries[..n];
    }
  }
}
