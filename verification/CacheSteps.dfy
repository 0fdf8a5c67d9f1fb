/** The steps of the page cache, each of them one critical section or one outside event, keep its invariant. */
module CacheSteps {
  import opened Wrappers
  import opened SlotIndex
  import opened CacheState

  predicate InPhase(w: World, i: nat, p: Phase) {
    i < |w.entries| && w.entries[i].phase == p
  }

  function Name(w: World, i: nat): Binding
    requires i < |w.entries|
  {
    Binding(i, w.entries[i].gen)
  }

  ghost predicate NoSuchKey(w: World, node: nat, index: nat) {
    forall j: nat | j < |w.entries| && KeyIn(w.entries[j]) :: w.entries[j].node != node || w.entries[j].index != index
  }

  ghost predicate Keyed(w: World, i: nat, node: nat, index: nat) {
    i < |w.entries| && KeyIn(w.entries[i]) && w.entries[i].node == node && w.entries[i].index == index
  }

  function Fresh(phase: Phase, node: nat, index: nat, gen: nat): Entry {
    Entry(phase, node, index, 0, 0, 0, false, gen)
  }

  /** Other slots hold other frames. */
  lemma OtherFrames(w: World, h: Hashes, i: nat)
    requires Inv(w, h) && i < |w.entries| && Held(w, i)
    ensures forall j: nat | j < |w.entries| && j != i && Held(w, j) :: w.entries[j].phys != w.entries[i].phys
  {
    forall j: nat | j < |w.entries| && j != i && Held(w, j) ensures w.entries[j].phys != w.entries[i].phys {
      assert Differ(w, i, j);
    }
  }

  // ---- loading --------------------------------------------------------------------------------

  /** reserve_loading_locked */
  ghost function Reserved(w: World, h: Hashes, i: nat, node: nat, index: nat): World
    requires Sized(w) && i < |w.entries|
  {
    var g := NextGeneration(w.entries[i].gen);
    w.(entries := w.entries[i := Fresh(Loading, node, index, g)],
       keyHome := w.keyHome[i := Some(KeyBucket(h, node, index))],
       freeHome := w.freeHome[i := None], serial := w.serial[i := w.serial[i] + 1], loads := w.loads + {Binding(i, g)})
  }

  lemma ReserveKeeps(w: World, h: Hashes, i: nat, node: nat, index: nat)
    requires Inv(w, h) && InPhase(w, i, Empty) && NoSuchKey(w, node, index)
    ensures Inv(Reserved(w, h, i, node, index), h)
  {
    var w' := Reserved(w, h, i, node, index);
    assert Local(w, h, i);
    GenerationStep(w.serial[i]);
    forall j: nat | j < |w.entries| ensures Differ(w', i, j) {
    }
    StepInPlace(w, w', h, i);
  }

  /** abort_loading_locked */
  ghost function Aborted(w: World, i: nat): World
    requires Sized(w) && i < |w.entries|
  {
    w.(entries := w.entries[i := Fresh(Empty, 0, 0, NextGeneration(w.entries[i].gen))], keyHome := w.keyHome[i := None],
       freeHome := w.freeHome[i := Some(0)], serial := w.serial[i := w.serial[i] + 1], loads := w.loads - {Name(w, i)})
  }

  lemma AbortKeeps(w: World, h: Hashes, i: nat)
    requires Inv(w, h) && InPhase(w, i, Loading)
    ensures Inv(Aborted(w, i), h)
  {
    var w' := Aborted(w, i);
    assert Local(w, h, i);
    GenerationStep(w.serial[i]);
    StepInPlace(w, w', h, i);
  }

  /** The page has been read into frame f, which is pinned for the cache; the slot becomes ready. */
  ghost function Loaded(w: World, h: Hashes, i: nat, f: nat, key: nat): World
    requires Sized(w) && i < |w.entries|
  {
    var e := w.entries[i].(phase := Ready, phys := f, key := key);
    w.(entries := w.entries[i := e], physHome := w.physHome[i := Some(PhysBucket(h, f))],
       pins := w.pins + multiset{f}, changed := w.changed - {f}, loads := w.loads - {Name(w, i)})
  }

  lemma LoadKeeps(w: World, h: Hashes, i: nat, f: nat, key: nat)
    requires Inv(w, h) && InPhase(w, i, Loading) && f !in w.pins
    ensures Inv(Loaded(w, h, i, f, key), h)
  {
    var w' := Loaded(w, h, i, f, key);
    assert Local(w, h, i);
    forall j: nat | j < |w.entries| && j != i && Held(w, j) ensures w.entries[j].phys != f {
      assert Local(w, h, j);
    }
    forall j: nat | j < |w.entries| ensures Differ(w', i, j) {
      assert Differ(w, i, j);
    }
    assert Settled(w, f) && Settled(w, w.entries[i].phys) && Held(w', i);
    if w.entries[i].phys != f {
      StaysSettled(w, w', i, w.entries[i].phys);
    }
    Step(w, w', h, i);
  }

  // ---- mapping ----------------------------------------------------------------------------------

  /** harvest_dirty_locked */
  ghost function Harvested(w: World, i: nat): World
    requires i < |w.entries|
  {
    var e := w.entries[i];
    w.(entries := w.entries[i := e.(dirty := e.dirty || e.phys in w.changed)])
  }

  lemma HarvestKeeps(w: World, h: Hashes, i: nat)
    requires Inv(w, h) && i < |w.entries|
    ensures Inv(Harvested(w, i), h)
  {
    var w' := Harvested(w, i);
    assert Local(w, h, i);
    forall j: nat | j < |w.entries| ensures Differ(w', i, j) {
      assert Differ(w, i, j);
    }
    StepInPlace(w, w', h, i);
  }

  /** The first mapping of a page sets its storage key, which turns its change bit off. */
  ghost function Opened(w: World, i: nat, key: nat): World
    requires i < |w.entries|
  {
    w.(entries := w.entries[i := w.entries[i].(key := key)], changed := w.changed - {w.entries[i].phys})
  }

  lemma OpenKeeps(w: World, h: Hashes, i: nat, key: nat)
    requires Inv(w, h) && InPhase(w, i, Ready) && (w.entries[i].phys in w.changed ==> w.entries[i].dirty)
    ensures Inv(Opened(w, i, key), h)
  {
    var w' := Opened(w, i, key);
    assert Local(w, h, i);
    OtherFrames(w, h, i);
    forall j: nat | j < |w.entries| ensures Differ(w', i, j) {
      assert Differ(w, i, j);
    }
    StepInPlace(w, w', h, i);
  }

  /** One more mapping: a pin, a reference, a binding. */
  ghost function Taken(w: World, i: nat): World
    requires i < |w.entries|
  {
    var e := w.entries[i];
    w.(entries := w.entries[i := e.(refs := e.refs + 1)], pins := w.pins + multiset{e.phys},
       bindings := w.bindings + multiset{Name(w, i)})
  }

  lemma TakeKeeps(w: World, h: Hashes, i: nat)
    requires Inv(w, h) && InPhase(w, i, Ready)
    ensures Inv(Taken(w, i), h)
  {
    var w' := Taken(w, i);
    assert Local(w, h, i);
    OtherFrames(w, h, i);
    forall j: nat | j < |w.entries| ensures Differ(w', i, j) {
      assert Differ(w, i, j);
    }
    assert Held(w', i);
    Step(w, w', h, i);
  }

  /** acquire_mapping_locked: the first mapping sets the storage key, later ones must bring the same key. */
  ghost function Acquired(w: World, i: nat, key: nat, policy: bool, pin: bool): World
    requires i < |w.entries|
  {
    var e := w.entries[i];
    if e.phase != Ready then w
    else if e.refs > 0 then (if e.key == key && pin then Taken(w, i) else w)
    else if !policy then Harvested(w, i)
    else if !pin then Opened(Harvested(w, i), i, key)
    else Taken(Opened(Harvested(w, i), i, key), i)
  }

  function Less<T>(m: multiset<T>, x: T): multiset<T> {
    m - multiset{x}
  }

  /** One mapping less. */
  ghost function Dropped(w: World, i: nat): World
    requires i < |w.entries| && w.entries[i].refs > 0
  {
    var e := w.entries[i];
    w.(entries := w.entries[i := e.(refs := e.refs - 1)], pins := Less(w.pins, e.phys),
       bindings := Less(w.bindings, Name(w, i)))
  }

  lemma DropKeeps(w: World, h: Hashes, i: nat)
    requires Inv(w, h) && InPhase(w, i, Ready) && w.entries[i].refs > 0
    ensures Inv(Dropped(w, i), h)
  {
    var w' := Dropped(w, i);
    assert Local(w, h, i);
    OtherFrames(w, h, i);
    forall j: nat | j < |w.entries| ensures Differ(w', i, j) {
      assert Differ(w, i, j);
    }
    assert Held(w', i);
    Step(w, w', h, i);
  }

  /** mark_dirty_binding, mark_dirty_phys */
  ghost function Marked(w: World, i: nat): World
    requires i < |w.entries|
  {
    w.(entries := w.entries[i := w.entries[i].(dirty := true)])
  }

  lemma MarkKeeps(w: World, h: Hashes, i: nat)
    requires Inv(w, h) && i < |w.entries|
    ensures Inv(Marked(w, i), h)
  {
    var w' := Marked(w, i);
    assert Local(w, h, i);
    forall j: nat | j < |w.entries| ensures Differ(w', i, j) {
      assert Differ(w, i, j);
    }
    StepInPlace(w, w', h, i);
  }

  /** A processor writes through a mapping: the change bit goes on, and the file is out of date. */
  ghost function Touched(w: World, i: nat): World
    requires i < |w.entries|
  {
    w.(changed := w.changed + {w.entries[i].phys}, unsaved := w.unsaved + {i})
  }

  lemma TouchKeeps(w: World, h: Hashes, i: nat)
    requires Inv(w, h) && i < |w.entries| && w.entries[i].refs > 0
    ensures Inv(Touched(w, i), h)
  {
    var w' := Touched(w, i);
    assert Local(w, h, i);
    OtherFrames(w, h, i);
    forall j: nat | j < |w.entries| ensures Differ(w', i, j) {
      assert Differ(w, i, j);
    }
    StepInPlace(w, w', h, i);
  }

  // ---- write-back and eviction -------------------------------------------------------------------

  ghost function WriteStarted(w: World, i: nat): World
    requires i < |w.entries|
  {
    w.(entries := w.entries[i := w.entries[i].(phase := Writeback)], writes := w.writes + {Name(w, i)})
  }

  lemma WriteStartKeeps(w: World, h: Hashes, i: nat)
    requires Inv(w, h) && InPhase(w, i, Ready) && w.entries[i].refs == 0
    ensures Inv(WriteStarted(w, i), h)
  {
    var w' := WriteStarted(w, i);
    assert Local(w, h, i);
    forall j: nat | j < |w.entries| ensures Differ(w', i, j) {
      assert Differ(w, i, j);
    }
    StepInPlace(w, w', h, i);
  }

  /** The writer has failed, or has saved the page. */
  ghost function WriteEnded(w: World, i: nat, saved: bool): World
    requires i < |w.entries|
  {
    var e := w.entries[i];
    var w1 := w.(entries := w.entries[i := e.(phase := Ready, dirty := e.dirty && !saved)],
                 writes := w.writes - {Name(w, i)});
    if saved then w1.(changed := w.changed - {e.phys}, unsaved := w.unsaved - {i}) else w1
  }

  lemma WriteEndKeeps(w: World, h: Hashes, i: nat, saved: bool)
    requires Inv(w, h) && InPhase(w, i, Writeback)
    ensures Inv(WriteEnded(w, i, saved), h)
  {
    var w' := WriteEnded(w, i, saved);
    assert Local(w, h, i);
    OtherFrames(w, h, i);
    forall j: nat | j < |w.entries| ensures Differ(w', i, j) {
      assert Differ(w, i, j);
    }
    StepInPlace(w, w', h, i);
  }

  /** begin_evict_locked, once it has found the page clean */
  ghost function EvictBegun(w: World, i: nat): World
    requires Sized(w) && i < |w.entries|
  {
    w.(entries := w.entries[i := w.entries[i].(phase := Evicting)], keyHome := w.keyHome[i := None],
       physHome := w.physHome[i := None], evicts := w.evicts + {Name(w, i)})
  }

  /** A page on its way out is saved and not mapped. */
  lemma EvictBeginKeeps(w: World, h: Hashes, i: nat)
    requires Inv(w, h) && InPhase(w, i, Ready) && w.entries[i].refs == 0
    requires !w.entries[i].dirty && w.entries[i].phys !in w.changed
    ensures Inv(EvictBegun(w, i), h) && i !in w.unsaved && forall g: nat :: Binding(i, g) !in w.bindings
  {
    var w' := EvictBegun(w, i);
    assert Local(w, h, i);
    forall g: nat ensures Binding(i, g) !in w.bindings {
      assert w.bindings[Binding(i, g)] == 0;
    }
    forall j: nat | j < |w.entries| ensures Differ(w', i, j) {
      assert Differ(w, i, j);
    }
    StepInPlace(w, w', h, i);
  }

  /** frame_release_pin: the pin of the cache is gone.  Without pins of others the frame is free. */
  ghost function Unpinned(w: World, i: nat): World
    requires i < |w.entries|
  {
    w.(pins := w.pins - multiset{w.entries[i].phys}, unpinned := w.unpinned + {i})
  }

  lemma UnpinKeeps(w: World, h: Hashes, i: nat)
    requires Inv(w, h) && InPhase(w, i, Evicting) && i !in w.unpinned
    ensures var f := w.entries[i].phys; w.pins[f] == 1 + w.foreign[f]
    ensures Inv(Unpinned(w, i), h)
  {
    var w' := Unpinned(w, i);
    assert Local(w, h, i);
    OtherFrames(w, h, i);
    forall j: nat | j < |w.entries| ensures Differ(w', i, j) {
      assert Differ(w, i, j);
    }
    assert Settled(w', w.entries[i].phys);
    Step(w, w', h, i);
  }

  ghost function EvictEnded(w: World, i: nat): World
    requires Sized(w) && i < |w.entries|
  {
    w.(entries := w.entries[i := Fresh(Empty, 0, 0, NextGeneration(w.entries[i].gen))],
       freeHome := w.freeHome[i := Some(0)],
       serial := w.serial[i := w.serial[i] + 1], evicts := w.evicts - {Name(w, i)}, unpinned := w.unpinned - {i})
  }

  lemma EvictEndKeeps(w: World, h: Hashes, i: nat)
    requires Inv(w, h) && InPhase(w, i, Evicting) && i in w.unpinned
    ensures Inv(EvictEnded(w, i), h)
  {
    var w' := EvictEnded(w, i);
    assert Local(w, h, i);
    GenerationStep(w.serial[i]);
    StepInPlace(w, w', h, i);
  }

  /** restore_ready_locked, after frame_release_pin has taken the pin of the cache. */
  ghost function Restored(w: World, h: Hashes, i: nat): World
    requires Sized(w) && i < |w.entries|
  {
    var e := w.entries[i];
    w.(entries := w.entries[i := e.(phase := Ready)], keyHome := w.keyHome[i := Some(KeyBucket(h, e.node, e.index))],
       physHome := w.physHome[i := Some(PhysBucket(h, e.phys))], evicts := w.evicts - {Name(w, i)},
       unpinned := w.unpinned - {i})
  }

  ghost predicate HeldElsewhere(w: World, i: nat, f: nat) {
    exists j: nat :: j < |w.entries| && j != i && Held(w, j) && w.entries[j].phys == f
  }

  /**
    Putting a page back is never right: the cache serves a page in a frame that only the pins of others
    keep, or that another slot has meanwhile been given.
   */
  lemma RestoreBreaks(w: World, h: Hashes, i: nat)
    requires Inv(w, h) && InPhase(w, i, Evicting) && i in w.unpinned
    ensures !Inv(Restored(w, h, i), h)
    ensures var f := w.entries[i].phys;
            HeldElsewhere(w, i, f) || Restored(w, h, i).pins[f] == Restored(w, h, i).foreign[f]
  {
    var w', f := Restored(w, h, i), w.entries[i].phys;
    assert Local(w, h, i) && Settled(w, f) && Held(w', i);
    if HeldElsewhere(w, i, f) {
      var j: nat :| j < |w.entries| && j != i && Held(w, j) && w.entries[j].phys == f;
      assert Held(w', j) && !Differ(w', i, j);
    } else {
      assert !Pinned(w', i);
      assert !Local(w', h, i);
    }
  }

  ghost predicate KeysApart(w: World) {
    forall i: nat, j: nat |
      i < |w.entries| && j < |w.entries| && i != j && KeyIn(w.entries[i]) && KeyIn(w.entries[j]) ::
      w.entries[i].node != w.entries[j].node || w.entries[i].index != w.entries[j].index
  }

  /** It leaves two slots with one key besides, unless the page has not been loaded again meanwhile. */
  lemma RestoreKeysExact(w: World, h: Hashes, i: nat)
    requires Inv(w, h) && InPhase(w, i, Evicting)
    ensures KeysApart(Restored(w, h, i)) <==> NoSuchKey(w, w.entries[i].node, w.entries[i].index)
  {
    var w' := Restored(w, h, i);
    if NoSuchKey(w, w.entries[i].node, w.entries[i].index) {
      forall j: nat, k: nat |
        j < |w'.entries| && k < |w'.entries| && j != k && KeyIn(w'.entries[j]) && KeyIn(w'.entries[k])
        ensures w'.entries[j].node != w'.entries[k].node || w'.entries[j].index != w'.entries[k].index
      {
        assert Differ(w, j, k);
      }
    }
    if KeysApart(w') {
      forall j: nat | j < |w.entries| && KeyIn(w.entries[j])
        ensures w.entries[j].node != w.entries[i].node || w.entries[j].index != w.entries[i].index
      {
        assert w'.entries[j] == w.entries[j] && KeyIn(w'.entries[i]);
      }
    }
  }

  /**
    The last critical section of an eviction.  The pin was released in state w, and frame_release_pin has
    answered that the frame is free exactly if nobody else had it pinned; w' is any later state.
   */
  ghost function Finished(w: World, w': World, h: Hashes, i: nat): World
    requires Sized(w') && i < |w.entries| && i < |w'.entries|
  {
    if w.foreign[w.entries[i].phys] == 0 then EvictEnded(w', i) else Restored(w', h, i)
  }

  /** An eviction keeps the invariant exactly if nobody but the cache has the frame pinned when its pin is released. */
  lemma EvictionExact(w: World, w': World, h: Hashes, i: nat)
    requires Inv(w, h) && InPhase(w, i, Evicting) && i !in w.unpinned
    requires Inv(w', h) && InPhase(w', i, Evicting) && i in w'.unpinned
    ensures Inv(Finished(w, w', h, i), h) <==> w.foreign[w.entries[i].phys] == 0
  {
    if w.foreign[w.entries[i].phys] == 0 {
      EvictEndKeeps(w', h, i);
    } else {
      RestoreBreaks(w', h, i);
    }
  }

  // ---- pins of others ------------------------------------------------------------------------------

  /** frame_ref by others than the cache, as portal_root_create does for the pages of its source. */
  ghost function PinnedBy(w: World, f: nat): World {
    w.(pins := w.pins + multiset{f}, foreign := w.foreign + multiset{f})
  }

  lemma PinByKeeps(w: World, h: Hashes, f: nat)
    requires Inv(w, h)
    ensures Inv(PinnedBy(w, f), h)
  {
    PinsOfOthers(w, PinnedBy(w, f), h);
  }

  /** frame_release_pin by others; with the last pin the frame is free. */
  ghost function ReleasedBy(w: World, f: nat): World {
    w.(pins := w.pins - multiset{f}, foreign := w.foreign - multiset{f})
  }

  lemma ReleaseByKeeps(w: World, h: Hashes, f: nat)
    requires f in w.foreign && f in w.pins
    ensures Inv(ReleasedBy(w, f), h) <==> Inv(w, h)
  {
    var w' := ReleasedBy(w, f);
    if Inv(w, h) {
      PinsOfOthers(w, w', h);
    }
    if Inv(w', h) {
      PinsOfOthers(w', w, h);
    }
  }

  lemma PinsCover(w: World, h: Hashes, f: nat)
    requires Inv(w, h)
    ensures w.foreign[f] <= w.pins[f]
  {
    assert Settled(w, f);
    if i: nat :| i < |w.entries| && Held(w, i) && w.entries[i].phys == f {
      assert Local(w, h, i);
    }
  }

  /** Whoever pins and releases on his own account does not touch the invariant. */
  lemma PinsOfOthers(w: World, w': World, h: Hashes)
    requires Inv(w, h) && w' == w.(pins := w'.pins, foreign := w'.foreign)
    requires forall f: nat :: w'.pins[f] + w.foreign[f] == w.pins[f] + w'.foreign[f]
    ensures Inv(w', h)
  {
    forall i: nat | i < |w'.entries| ensures Local(w', h, i) {
      var f := w.entries[i].phys;
      assert Local(w, h, i) && w'.pins[f] + w.foreign[f] == w.pins[f] + w'.foreign[f];
      assert Held(w', i) <==> Held(w, i);
      assert Pinned(w', i) && Bound(w', i) && UnderWay(w', i) && Tracked(w', i) && Chained(w', h, i);
    }
    forall f: nat ensures Settled(w', f) {
      assert Settled(w, f) && w'.pins[f] + w.foreign[f] == w.pins[f] + w'.foreign[f];
      assert forall i: nat | i < |w.entries| :: Held(w', i) <==> Held(w, i);
    }
    forall i: nat, j: nat | i < |w'.entries| && j < |w'.entries| ensures Differ(w', i, j) {
      assert Differ(w, i, j);
    }
  }

  // ---- what may go ---------------------------------------------------------------------------------

  /** A resident page that nobody maps. */
  ghost predicate Idle(w: World, i: nat, phys: nat) {
    InPhase(w, i, Ready) && w.entries[i].refs == 0 && w.entries[i].phys == phys
  }

  ghost predicate Stale(w: World, i: nat)
    requires i < |w.entries|
  {
    w.entries[i].dirty || w.entries[i].phys in w.changed
  }
}
