/** The page cache: two chained indexes and a free list over the slots, changed by short critical sections. */
module PageCache {
  import opened Wrappers
  import opened SlotIndex
  import opened CacheState
  import opened CacheSteps

  datatype Error = Busy | CapabilityInvalid | NotReady | OutOfMemory | Failed
  datatype Result<T> = Ok(value: T) | Err(error: Error)

  /** Outcome of the first critical section of acquire_page. */
  datatype Attempt = Hit(result: Result<Binding>) | Load(token: Binding) | Evict(phys: nat) | Full | NoReader

  /** Outcome of the first critical section of evict_phys. */
  datatype Eviction = Skip | Write(token: Binding) | Clean

  class Cache {
    const keys: Index
    const frames: Index
    const free: Index
    const h: Hashes

    var entries: seq<Entry>
    var resident: nat
    /** Reference counts and change bits of frames. */
    var pins: multiset<nat>
    var changed: set<nat>

    ghost var foreign: multiset<nat>
    ghost var bindings: multiset<Binding>
    ghost var loads: set<Binding>
    ghost var writes: set<Binding>
    ghost var evicts: set<Binding>
    ghost var unpinned: set<nat>
    ghost var unsaved: set<nat>
    ghost var serial: seq<nat>

    ghost function W(): World
      reads this, keys, frames, free
    {
      World(entries, keys.home, frames.home, free.home, pins, foreign, changed, bindings, loads, writes, evicts,
        unpinned, unsaved, serial)
    }

    ghost predicate Valid()
      reads this, keys, frames, free
    {
      && keys.Valid() && frames.Valid() && free.Valid() && keys != frames && keys != free && frames != free
      && |keys.heads| == |frames.heads| == PAGE_CACHE_INDEX_SLOTS && |free.heads| == 1
      && Inv(W(), h) && resident == Frames(entries)
    }

    lemma Parts()
      requires Valid()
      ensures keys.Valid() && frames.Valid() && free.Valid() && keys != frames && keys != free && frames != free
      ensures |keys.heads| == |frames.heads| == PAGE_CACHE_INDEX_SLOTS && |free.heads| == 1
      ensures Inv(W(), h) && resident == Frames(entries) && Sized(W())
      ensures forall i: nat | i < |entries| :: Chained(W(), h, i)
    {
      forall i: nat | i < |entries| ensures Chained(W(), h, i) {
        assert Local(W(), h, i);
      }
    }

    lemma Shape()
      requires Valid()
      ensures keys.Valid() && frames.Valid() && free.Valid() && keys != frames && keys != free && frames != free
      ensures |keys.heads| == |frames.heads| == PAGE_CACHE_INDEX_SLOTS && |free.heads| == 1
      ensures Inv(W(), h) && resident == Frames(entries) && Sized(W())
    {
    }

    constructor (slots: nat, h: Hashes)
      requires slots < INVALID
      ensures Valid() && |entries| == slots && bindings == multiset{} && fresh(keys) && fresh(frames) && fresh(free)
      ensures this.h == h && pins == multiset{} && foreign == multiset{} && unpinned == {}
      ensures forall i: nat | i < slots :: entries[i] == Fresh(Empty, 0, 0, 0)
    {
      var k := new Index(slots, PAGE_CACHE_INDEX_SLOTS);
      var f := new Index(slots, PAGE_CACHE_INDEX_SLOTS);
      var r := new Index(slots, 1);
      var i := slots;
      while i > 0
        invariant i <= slots && r.Valid() && |r.home| == slots && |r.heads| == 1
        invariant k != r && f != r && fresh(r) && k.Valid() && f.Valid() && |k.home| == |f.home| == slots
        invariant |k.heads| == |f.heads| == PAGE_CACHE_INDEX_SLOTS
        invariant forall j | 0 <= j < slots :: r.home[j] == if j < i then None else Some(0)
        invariant forall j | 0 <= j < slots :: k.home[j] == None && f.home[j] == None
      {
        i := i - 1;
        r.Link(0, i);
      }
      keys, frames, free, this.h := k, f, r, h;
      entries := seq(slots, i => Fresh(Empty, 0, 0, 0));
      resident, pins, foreign, changed := 0, multiset{}, multiset{}, {};
      bindings, loads, writes, evicts, unpinned, unsaved := multiset{}, {}, {}, {}, {}, {};
      serial := seq(slots, i => 0);
      new;
      NoFrames(entries);
      forall i: nat | i < |entries| ensures Local(W(), h, i) {
      }
    }

    /** find_key_locked agrees with a scan of all slots. */
    method FindKey(node: nat, index: nat) returns (r: Option<nat>)
      requires Valid()
      ensures r.Some? ==>
                r.value < |entries| && KeyIn(entries[r.value]) && entries[r.value].node == node
                    && entries[r.value].index == index
      ensures r.None? ==> NoSuchKey(W(), node, index)
    {
      Parts();
      hide Inv, Frames;
      var b := KeyBucket(h, node, index);
      ghost var l := keys.lists[b];
      assert Chain(keys.next, keys.heads[b], l);
      var slot := keys.heads[b];
      ghost var k: nat := 0;
      while slot != INVALID
        invariant k <= |l| && slot == (if k < |l| then l[k] else INVALID)
        invariant forall j | 0 <= j < k :: entries[l[j]].node != node || entries[l[j]].index != index
        decreases |l| - k
      {
        assert LinkOk(keys.next, l, k) && l[k] in keys.lists[b];
        assert Chained(W(), h, slot);
        if entries[slot].phase != Empty && entries[slot].node == node && entries[slot].index == index {
          return Some(slot);
        }
        slot := keys.next[slot];
        k := k + 1;
      }
      r := None;
      forall j: nat | j < |entries| && KeyIn(entries[j]) ensures entries[j].node != node || entries[j].index != index {
        assert Chained(W(), h, j);
        assert j in keys.lists[b] <==> keys.home[j] == Some(b);
      }
    }

    /** find_phys_locked likewise. */
    method FindPhys(phys: nat) returns (r: Option<nat>)
      requires Valid()
      ensures r.Some? ==> r.value < |entries| && PhysIn(entries[r.value]) && entries[r.value].phys == phys
      ensures r.None? ==> forall j: nat | j < |entries| && PhysIn(entries[j]) :: entries[j].phys != phys
    {
      Parts();
      hide Inv, Frames;
      var b := PhysBucket(h, phys);
      ghost var l := frames.lists[b];
      assert Chain(frames.next, frames.heads[b], l);
      var slot := frames.heads[b];
      ghost var k: nat := 0;
      while slot != INVALID
        invariant k <= |l| && slot == (if k < |l| then l[k] else INVALID)
        invariant forall j | 0 <= j < k :: entries[l[j]].phys != phys
        decreases |l| - k
      {
        assert LinkOk(frames.next, l, k) && l[k] in frames.lists[b];
        assert Chained(W(), h, slot);
        if entries[slot].phase != Empty && entries[slot].phys == phys {
          return Some(slot);
        }
        slot := frames.next[slot];
        k := k + 1;
      }
      r := None;
      forall j: nat | j < |entries| && PhysIn(entries[j]) ensures entries[j].phys != phys {
        assert Chained(W(), h, j);
        assert j in frames.lists[b] <==> frames.home[j] == Some(b);
      }
    }

    // ---- loading ------------------------------------------------------------------------------

    /** reserve_loading_locked: a free slot, if there is one, is marked as loading the page. */
    method Reserve(node: nat, index: nat) returns (r: Option<Binding>)
      requires Valid() && NoSuchKey(W(), node, index)
      modifies this, keys, free
      ensures Valid()
      ensures r.None? ==> W() == old(W()) && forall i: nat | i < |entries| :: entries[i].phase != Empty
      ensures r.Some? ==>
                InPhase(old(W()), r.value.slot, Empty) && W() == Reserved(old(W()), h, r.value.slot, node, index)
                    && r.value in loads
    {
      Parts();
      hide Inv, Frames, NextGeneration;
      ghost var w := W();
      var i := free.heads[0];
      assert Chain(free.next, i, free.lists[0]);
      if i == INVALID {
        forall j: nat | j < |entries| ensures entries[j].phase != Empty {
          assert Chained(w, h, j);
          assert j in free.lists[0] <==> free.home[j] == Some(0);
        }
        return None;
      }
      assert i in free.lists[0];
      assert Chained(w, h, i);
      ReserveKeeps(w, h, i, node, index);
      var g := NextGeneration(entries[i].gen);
      FramesUpdate(entries, i, Fresh(Loading, node, index, g));
      free.Unlink(0, i);
      entries := entries[i := Fresh(Loading, node, index, g)];
      serial := serial[i := serial[i] + 1];
      loads := loads + {Binding(i, g)};
      keys.Link(KeyBucket(h, node, index), i);
      return Some(Binding(i, g));
    }

    /** abort_loading_locked, by the loader that holds the token: its trap is out of reach. */
    method AbortLoad(t: Binding)
      requires Valid() && t in loads && t.slot < |entries|
      modifies this, keys, free
      ensures Valid() && InPhase(old(W()), t.slot, Loading) && W() == Aborted(old(W()), t.slot)
    {
      Parts();
      ghost var w := W();
      var i := t.slot;
      TokenPhase(w, h, i);
      hide Inv, Frames, NextGeneration;
      assert entries[i].gen == t.gen && entries[i].phase == Loading;
      assert Chained(w, h, i);
      AbortKeeps(w, h, i);
      var e := Fresh(Empty, 0, 0, NextGeneration(entries[i].gen));
      FramesUpdate(entries, i, e);
      keys.Unlink(KeyBucket(h, entries[i].node, entries[i].index), i);
      entries := entries[i := e];
      serial := serial[i := serial[i] + 1];
      loads := loads - {t};
      free.Link(0, i);
    }

    /** The slot becomes ready with frame f; the trap is out of reach. */
    method MakeReady(t: Binding, f: nat, key: nat)
      requires Valid() && t in loads && t.slot < |entries| && f !in pins
      modifies this`entries, this`pins, this`changed, this`loads, this`resident, frames
      ensures Valid() && InPhase(old(W()), t.slot, Loading) && W() == Loaded(old(W()), h, t.slot, f, key)
      ensures resident == old(resident) + 1 && old(entries)[t.slot].gen == t.gen && old(entries)[t.slot].refs == 0
    {
      Shape();
      ghost var w := W();
      var i := t.slot;
      LoadFacts(w, h, t, f, key);
      hide Inv, Frames, Indexed, Loaded, PhysBucket, Sized;
      // the slot is still ours
      assert entries[i].gen == t.gen && entries[i].phase == Loading;
      frames.Link(PhysBucket(h, f), i);
      Fill(t, f, key);
    }

    method Fill(t: Binding, f: nat, key: nat)
      requires t.slot < |entries| && resident == Frames(entries) && entries[t.slot].phase == Loading
      modifies this`entries, this`pins, this`changed, this`loads, this`resident
      ensures entries == old(entries)[t.slot := old(entries)[t.slot].(phase := Ready, phys := f, key := key)]
      ensures pins == old(pins) + multiset{f} && changed == old(changed) - {f} && loads == old(loads) - {t}
      ensures resident == old(resident) + 1 == Frames(entries)
    {
      var e := entries[t.slot].(phase := Ready, phys := f, key := key);
      FramesUpdate(entries, t.slot, e);
      entries, pins, changed := entries[t.slot := e], pins + multiset{f}, changed - {f};
      resident, loads := resident + 1, loads - {t};
    }

    /** The last critical section of a load: the slot becomes ready with frame f, and is mapped once. */
    method FinishLoad(t: Binding, f: nat, key: nat, policy: bool, pin: bool) returns (r: Result<Binding>)
      requires Valid() && t in loads && t.slot < |entries| && f !in pins
      modifies this`entries, this`pins, this`changed, this`bindings, this`loads, this`resident, frames
      ensures Valid() && |entries| == |old(entries)| && entries[t.slot].phase == Ready && entries[t.slot].phys == f
      ensures InPhase(old(W()), t.slot, Loading)
      ensures W() == Acquired(Loaded(old(W()), h, t.slot, f, key), t.slot, key, policy, pin)
      ensures r.Ok? ==> r.value == t && bindings == old(bindings) + multiset{t} && pins == old(pins)[f := 2]
      ensures r.Err? ==> bindings == old(bindings) && pins == old(pins)[f := 1]
    {
      MakeReady(t, f, key);
      hide Inv, Frames, Indexed;
      r := AcquireMapping(t.slot, key, policy, pin);
    }

    // ---- mapping --------------------------------------------------------------------------------

    /** acquire_mapping_locked; policy and pin tell whether the key can be set and the frame be pinned. */
    method AcquireMapping(i: nat, key: nat, policy: bool, pin: bool) returns (r: Result<Binding>)
      requires Valid() && i < |entries|
      modifies this`entries, this`pins, this`changed, this`bindings
      ensures Valid() && |entries| == |old(entries)|
      ensures r.Ok? <==>
                && old(entries)[i].phase == Ready && pin
                && if old(entries)[i].refs == 0 then policy else old(entries)[i].key == key
      ensures r.Ok? ==> r.value == Binding(i, old(entries)[i].gen) && bindings == old(bindings) + multiset{r.value}
      ensures r.Ok? ==>
                old(entries)[i].phys in old(pins) && pins == old(pins) + multiset{old(entries)[i].phys}
      ensures r.Err? ==> bindings == old(bindings) && pins == old(pins)
      ensures W() == Acquired(old(W()), i, key, policy, pin)
      ensures entries[i].phase == old(entries)[i].phase && entries[i].phys == old(entries)[i].phys
      ensures entries[i].gen == old(entries)[i].gen
    {
      hide Inv, Frames, Indexed;
      if entries[i].phase != Ready {
        return Err(Busy);
      }
      if entries[i].refs == 0 {
        Harvest(i);
        if !policy {
          return Err(Failed);
        }
        Open(i, key);
      } else if entries[i].key != key {
        return Err(CapabilityInvalid);
      }
      if !pin {
        return Err(Failed);
      }
      var b := Take(i);
      return Ok(b);
    }

    /** The storage key set for the first mapping of a page. */
    method Open(i: nat, key: nat)
      requires Valid() && InPhase(W(), i, Ready) && (entries[i].phys in changed ==> entries[i].dirty)
      modifies this`entries, this`changed
      ensures Valid() && W() == Opened(old(W()), i, key)
    {
      hide Inv, Frames, Indexed;
      OpenKeeps(W(), h, i, key);
      FramesUpdate(entries, i, entries[i].(key := key));
      entries, changed := entries[i := entries[i].(key := key)], changed - {entries[i].phys};
    }

    /** frame_ref, and one more reference */
    method Take(i: nat) returns (b: Binding)
      requires Valid() && InPhase(W(), i, Ready)
      modifies this`entries, this`pins, this`bindings
      ensures Valid() && b == Binding(i, old(entries)[i].gen) && W() == Taken(old(W()), i)
      ensures old(entries)[i].phys in old(pins)
      ensures pins == old(pins) + multiset{old(entries)[i].phys}
    {
      hide Inv, Frames, Indexed;
      PinCount(W(), h, i);
      TakeKeeps(W(), h, i);
      var e := entries[i];
      FramesUpdate(entries, i, e.(refs := e.refs + 1));
      pins := pins + multiset{e.phys};
      bindings := bindings + multiset{Binding(i, e.gen)};
      entries := entries[i := e.(refs := e.refs + 1)];
      return Binding(i, e.gen);
    }

    /** frame_unref, and one reference less; there is a pin to give back. */
    method Drop(i: nat)
      requires Valid() && InPhase(W(), i, Ready) && entries[i].refs > 0
      modifies this`entries, this`pins, this`bindings
      ensures Valid() && W() == Dropped(old(W()), i)
    {
      hide Inv, Frames, Indexed, Less;
      DropKeeps(W(), h, i);
      var e := entries[i];
      FramesUpdate(entries, i, e.(refs := e.refs - 1));
      pins := Less(pins, e.phys);
      bindings := Less(bindings, Binding(i, e.gen));
      entries := entries[i := e.(refs := e.refs - 1)];
    }

    /** harvest_dirty_locked */
    method Harvest(i: nat)
      requires Valid() && i < |entries|
      modifies this`entries
      ensures Valid() && W() == Harvested(old(W()), i)
    {
      Parts();
      hide Inv, Frames, Indexed;
      HarvestKeeps(W(), h, i);
      var e := entries[i];
      FramesUpdate(entries, i, e.(dirty := e.dirty || e.phys in changed));
      if e.phys in changed {
        entries := entries[i := e.(dirty := true)];
      }
      assert entries == old(entries)[i := e.(dirty := e.dirty || e.phys in changed)];
    }

    /** release_binding succeeds exactly for bindings that are live, and gives their pin back. */
    method Release(b: Binding) returns (r: Result<()>)
      requires Valid()
      modifies this`entries, this`pins, this`bindings
      ensures Valid() && (r.Ok? <==> b in old(bindings) && b.slot < |old(entries)| && b.gen != 0)
      ensures r.Ok? ==> bindings == old(bindings) - multiset{b}
      ensures r.Ok? ==> old(entries)[b.slot].refs > 0 && W() == Dropped(Harvested(old(W()), b.slot), b.slot)
      ensures r.Err? ==> W() == old(W())
    {
      Parts();
      hide Inv, Frames, Indexed;
      if b.gen == 0 || b.slot >= |entries| {
        return Err(Failed);
      }
      var i := b.slot;
      LiveBinding(W(), h, b);
      if entries[i].gen != b.gen || entries[i].phase != Ready || entries[i].refs == 0 {
        return Err(CapabilityInvalid);
      }
      Harvest(i);
      Drop(i);
      return Ok(());
    }

    /** duplicate_binding */
    method Duplicate(b: Binding, key: nat, policy: bool, pin: bool) returns (r: Result<Binding>)
      requires Valid()
      modifies this`entries, this`pins, this`changed, this`bindings
      ensures Valid()
      ensures r.Ok? <==>
                && b.gen != 0 && InPhase(old(W()), b.slot, Ready) && old(entries)[b.slot].gen == b.gen && pin
                && if old(entries)[b.slot].refs == 0 then policy else old(entries)[b.slot].key == key
      ensures r.Ok? ==> r.value == b && bindings == old(bindings) + multiset{b}
      ensures r.Ok? ==> W() == Acquired(old(W()), b.slot, key, policy, pin)
      ensures r.Err? ==> bindings == old(bindings) && pins == old(pins)
    {
      if b.gen == 0 || b.slot >= |entries| {
        return Err(Failed);
      }
      if entries[b.slot].gen != b.gen {
        return Err(CapabilityInvalid);
      }
      r := AcquireMapping(b.slot, key, policy, pin);
    }

    /** mark_dirty_binding */
    method MarkDirty(b: Binding) returns (r: Result<()>)
      requires Valid()
      modifies this`entries
      ensures Valid()
      ensures r.Ok? <==> b.gen != 0 && InPhase(old(W()), b.slot, Ready) && old(entries)[b.slot].gen == b.gen
      ensures b in bindings && b.slot < |entries| && b.gen != 0 ==> r.Ok?
      ensures if r.Ok? then W() == Marked(old(W()), b.slot) else W() == old(W())
    {
      Parts();
      hide Inv, Frames, Indexed;
      if b.gen == 0 || b.slot >= |entries| {
        return Err(Failed);
      }
      LiveBinding(W(), h, b);
      if entries[b.slot].gen != b.gen || entries[b.slot].phase != Ready {
        return Err(CapabilityInvalid);
      }
      MarkKeeps(W(), h, b.slot);
      FramesUpdate(entries, b.slot, entries[b.slot].(dirty := true));
      entries := entries[b.slot := entries[b.slot].(dirty := true)];
      return Ok(());
    }

    /** A processor writes to a page through one of its mappings. */
    method CpuWrite(b: Binding)
      requires Valid() && b in bindings && b.slot < |entries|
      modifies this`changed, this`unsaved
      ensures Valid() && W() == Touched(old(W()), b.slot)
    {
      Parts();
      hide Inv, Frames, Indexed;
      LiveBinding(W(), h, b);
      TouchKeeps(W(), h, b.slot);
      changed := changed + {entries[b.slot].phys};
      unsaved := unsaved + {b.slot};
    }

    /** The first critical section of acquire_page: a hit, a load to be done, or a page to be evicted first. */
    method Acquire(node: nat, index: nat, key: nat, reader: bool, policy: bool, pin: bool) returns (a: Attempt)
      requires Valid()
      modifies this, keys, free
      ensures Valid()
      ensures a.Hit? <==> !old(NoSuchKey(W(), node, index))
      ensures a.NoReader? <==> old(NoSuchKey(W(), node, index)) && !reader
      ensures a.Hit? ==>
                exists i: nat :: Keyed(old(W()), i, node, index) && W() == Acquired(old(W()), i, key, policy, pin)
      ensures a.Hit? && a.result.Ok? ==> bindings == old(bindings) + multiset{a.result.value}
      ensures a.Load? ==>
                InPhase(old(W()), a.token.slot, Empty) && W() == Reserved(old(W()), h, a.token.slot, node, index)
                    && a.token in loads
      ensures a.NoReader? || a.Evict? || a.Full? ==> W() == old(W())
      ensures a.Evict? || a.Full? ==> forall i: nat | i < |entries| :: entries[i].phase != Empty
      ensures a.Evict? ==> exists i: nat :: Idle(W(), i, a.phys)
      ensures a.Full? ==> forall i: nat | i < |entries| :: entries[i].phase == Ready ==> entries[i].refs > 0
    {
      var found := FindKey(node, index);
      if found.Some? {
        assert Keyed(W(), found.value, node, index);
        var r := AcquireMapping(found.value, key, policy, pin);
        return Hit(r);
      }
      if !reader {
        return NoReader;
      }
      var t := Reserve(node, index);
      if t.Some? {
        return Load(t.value);
      }
      var i := 0;
      while i < |entries|
        invariant i <= |entries| && forall j: nat | j < i :: entries[j].phase == Ready ==> entries[j].refs > 0
      {
        if entries[i].phase == Ready && entries[i].refs == 0 {
          assert Idle(W(), i, entries[i].phys);
          return Evict(entries[i].phys);
        }
        i := i + 1;
      }
      return Full;
    }

    // ---- write-back and eviction --------------------------------------------------------------------

    /** The first critical section of evict_phys. */
    method EvictStart(phys: nat, writer: bool) returns (r: Eviction)
      requires Valid()
      modifies this`entries, this`writes
      ensures Valid()
      ensures r.Write? ==>
                && Idle(old(W()), r.token.slot, phys) && Stale(old(W()), r.token.slot)
                && r.token == Name(old(W()), r.token.slot) && writer
                && W() == WriteStarted(Harvested(old(W()), r.token.slot), r.token.slot)
      ensures r.Clean? <==> exists i: nat :: Idle(old(W()), i, phys) && !Stale(old(W()), i)
      ensures r.Clean? ==> W() == old(W())
      ensures r.Skip? ==> forall i: nat | Idle(old(W()), i, phys) :: !writer && Stale(old(W()), i)
    {
      Parts();
      ghost var w := W();
      OneFrame(w, h, phys);
      hide Inv, Frames, Indexed;
      var found := FindPhys(phys);
      if found.None? {
        return Skip;
      }
      var i := found.value;
      if entries[i].phase != Ready || entries[i].refs != 0 {
        return Skip;
      }
      assert Idle(w, i, phys);
      Harvest(i);
      if !entries[i].dirty {
        return Clean;
      }
      if !writer {
        return Skip;
      }
      WriteStartKeeps(W(), h, i);
      var e := entries[i].(phase := Writeback);
      FramesUpdate(entries, i, e);
      entries := entries[i := e];
      writes := writes + {Binding(i, e.gen)};
      return Write(Binding(i, e.gen));
    }

    /** The writer has come back; saved tells whether it succeeded.  The trap is out of reach. */
    method WriteEnd(t: Binding, saved: bool)
      requires Valid() && t in writes && t.slot < |entries|
      modifies this`entries, this`changed, this`writes, this`unsaved
      ensures Valid() && InPhase(old(W()), t.slot, Writeback) && W() == WriteEnded(old(W()), t.slot, saved)
    {
      Parts();
      var i := t.slot;
      TokenPhase(W(), h, i);
      hide Inv, Frames, Indexed;
      assert entries[i].gen == t.gen && entries[i].phase == Writeback;
      WriteEndKeeps(W(), h, i, saved);
      var e := entries[i];
      FramesUpdate(entries, i, e.(phase := Ready, dirty := e.dirty && !saved));
      writes := writes - {t};
      if saved {
        entries := entries[i := e.(phase := Ready, dirty := false)];
        changed, unsaved := changed - {e.phys}, unsaved - {i};
      } else {
        entries := entries[i := e.(phase := Ready)];
      }
      assert e.(phase := Ready) == e.(phase := Ready, dirty := e.dirty);
    }

    /** The second critical section of evict_phys: what it takes out is saved and not mapped. */
    method BeginEvict(phys: nat) returns (r: Option<Binding>)
      requires Valid()
      modifies this`entries, this`evicts, keys, frames
      ensures Valid()
      ensures r.Some? <==> exists i: nat :: Idle(old(W()), i, phys) && !Stale(old(W()), i)
      ensures r.Some? ==>
                && Idle(old(W()), r.value.slot, phys) && r.value == Name(old(W()), r.value.slot)
                && W() == EvictBegun(old(W()), r.value.slot)
                && r.value.slot !in unsaved && r.value.slot !in unpinned
                && forall g: nat :: Binding(r.value.slot, g) !in bindings
    {
      Parts();
      ghost var w := W();
      OneFrame(w, h, phys);
      hide Inv, Frames, Indexed;
      var found := FindPhys(phys);
      if found.None? {
        return None;
      }
      var i := found.value;
      if entries[i].phase != Ready || entries[i].refs != 0 {
        return None;
      }
      assert Idle(w, i, phys);
      Harvest(i);
      if entries[i].dirty {
        return None;
      }
      assert W() == w;
      Detach(i);
      return Some(Binding(i, entries[i].gen));
    }

    /** Takes a clean page that nobody maps out of both indices. */
    method Detach(i: nat)
      requires Valid() && InPhase(W(), i, Ready) && entries[i].refs == 0 && !Stale(W(), i)
      modifies this`entries, this`evicts, keys, frames
      ensures Valid() && W() == EvictBegun(old(W()), i)
      ensures i !in unsaved && i !in unpinned && forall g: nat :: Binding(i, g) !in bindings
    {
      Parts();
      ghost var w := W();
      hide Inv, Frames;
      assert Chained(w, h, i);
      EvictBeginKeeps(w, h, i);
      PinCount(w, h, i);
      var e := entries[i];
      FramesUpdate(entries, i, e.(phase := Evicting));
      entries := entries[i := e.(phase := Evicting)];
      frames.Unlink(PhysBucket(h, e.phys), i);
      keys.Unlink(KeyBucket(h, e.node, e.index), i);
      evicts := evicts + {Binding(i, e.gen)};
    }

    /** frame_release_pin outside the lock: it frees the frame exactly if nobody else has it pinned. */
    method ReleasePin(t: Binding) returns (freed: bool)
      requires Valid() && t in evicts && t.slot < |entries| && t.slot !in unpinned
      modifies this`pins, this`unpinned
      ensures Valid() && W() == Unpinned(old(W()), t.slot) && (freed <==> foreign[entries[t.slot].phys] == 0)
      ensures freed <==> entries[t.slot].phys !in pins
    {
      Parts();
      var i := t.slot;
      TokenPhase(W(), h, i);
      hide Inv, Frames, Indexed;
      UnpinKeeps(W(), h, i);
      freed := pins[entries[i].phys] == 1;
      pins := pins - multiset{entries[i].phys};
      unpinned := unpinned + {i};
    }

    /** The last critical section of evict_phys: the slot is free again, under the next generation. */
    method EvictEnd(t: Binding)
      requires Valid() && t in evicts && t.slot < |entries| && t.slot in unpinned
      modifies this, free
      ensures Valid() && W() == EvictEnded(old(W()), t.slot) && resident == old(resident) - 1
    {
      Parts();
      ghost var w := W();
      var i := t.slot;
      TokenPhase(w, h, i);
      hide Inv, Frames, NextGeneration;
      assert entries[i].gen == t.gen && entries[i].phase == Evicting;
      assert Chained(w, h, i);
      EvictEndKeeps(w, h, i);
      var e := Fresh(Empty, 0, 0, NextGeneration(entries[i].gen));
      FramesUpdate(entries, i, e);
      entries := entries[i := e];
      serial := serial[i := serial[i] + 1];
      evicts := evicts - {t};
      unpinned := unpinned - {i};
      free.Link(0, i);
      resident := resident - 1;
    }

    /**
      restore_ready_locked, when the frame was not freed.  The pin of the cache has gone already, so the
      cache is not valid afterwards; its keys still differ exactly if the page has not been loaded again.
     */
    method Restore(t: Binding)
      requires Valid() && t in evicts && t.slot < |entries| && t.slot in unpinned
      modifies this`entries, this`evicts, this`unpinned, keys, frames
      ensures W() == Restored(old(W()), h, t.slot) && !Valid()
      ensures KeysApart(W()) <==> NoSuchKey(old(W()), old(entries)[t.slot].node, old(entries)[t.slot].index)
    {
      Parts();
      ghost var w := W();
      var i := t.slot;
      TokenPhase(w, h, i);
      hide Inv, Frames;
      assert entries[i].gen == t.gen && entries[i].phase == Evicting;
      assert Chained(w, h, i);
      RestoreBreaks(w, h, i);
      RestoreKeysExact(w, h, i);
      var e := entries[i].(phase := Ready);
      entries := entries[i := e];
      keys.Link(KeyBucket(h, e.node, e.index), i);
      frames.Link(PhysBucket(h, e.phys), i);
      evicts, unpinned := evicts - {t}, unpinned - {i};
      assert W() == Restored(w, h, i);
    }

    // ---- pins of others ----------------------------------------------------------------------------

    /** frame_ref by somebody else, for a page that is mapped. */
    method PinBy(f: nat)
      requires Valid() && f in pins
      modifies this`pins, this`foreign
      ensures Valid() && W() == PinnedBy(old(W()), f)
    {
      hide Inv, Frames, Indexed;
      PinByKeeps(W(), h, f);
      pins, foreign := pins + multiset{f}, foreign + multiset{f};
    }

    /** frame_release_pin by somebody else. */
    method ReleaseBy(f: nat) returns (freed: bool)
      requires f in foreign && f in pins
      modifies this`pins, this`foreign
      ensures W() == ReleasedBy(old(W()), f) && (Valid() <==> old(Valid())) && (freed <==> f !in pins)
    {
      hide Inv, Frames, Indexed;
      ReleaseByKeeps(W(), h, f);
      pins, foreign := pins - multiset{f}, foreign - multiset{f};
      freed := f !in pins;
    }
  }

  /** At most one page of the cache is in a frame. */
  lemma OneFrame(w: World, h: Hashes, phys: nat)
    requires Inv(w, h)
    ensures forall i: nat, j: nat {:trigger Idle(w, i, phys), w.entries[j]} |
              Idle(w, i, phys) && j < |w.entries| && PhysIn(w.entries[j]) && w.entries[j].phys == phys :: i == j
  {
    forall i: nat, j: nat |
      Idle(w, i, phys) && j < |w.entries| && PhysIn(w.entries[j]) && w.entries[j].phys == phys
      ensures i == j
    {
      assert Differ(w, i, j) && Local(w, h, i) && Local(w, h, j);
    }
  }

  /** Whoever holds a token finds the slot as it was left. */
  lemma TokenPhase(w: World, h: Hashes, i: nat)
    requires Inv(w, h) && i < |w.entries|
    ensures forall g: nat :: Binding(i, g) in w.loads ==> w.entries[i].phase == Loading && w.entries[i].gen == g
    ensures forall g: nat :: Binding(i, g) in w.writes ==> w.entries[i].phase == Writeback && w.entries[i].gen == g
    ensures forall g: nat :: Binding(i, g) in w.evicts ==> w.entries[i].phase == Evicting && w.entries[i].gen == g
  {
    assert Local(w, h, i);
  }

  /** A binding is live exactly if its slot is mapped under its generation. */
  lemma LiveBinding(w: World, h: Hashes, b: Binding)
    requires Inv(w, h) && b.slot < |w.entries|
    ensures var e := w.entries[b.slot];
            b in w.bindings <==> e.gen == b.gen && e.phase == Ready && e.refs > 0
  {
    assert Local(w, h, b.slot);
    assert w.bindings[Binding(b.slot, b.gen)] == if b.gen == w.entries[b.slot].gen then w.entries[b.slot].refs else 0;
  }

  /**
    A binding taken when its slot had been reset s times is dead once the slot has been reset again,
    until the generations have gone round.
   */
  lemma StaleBinding(w: World, h: Hashes, b: Binding, s: nat)
    requires Inv(w, h) && b.slot < |w.entries| && 0 < s && b.gen == Generation(s)
    requires s < w.serial[b.slot] < s + GENERATIONS
    ensures b !in w.bindings && w.entries[b.slot].gen != b.gen
  {
    assert Local(w, h, b.slot);
    GenerationsDiffer(s, w.serial[b.slot]);
    LiveBinding(w, h, b);
  }

  lemma PinCount(w: World, h: Hashes, i: nat)
    requires Inv(w, h) && InPhase(w, i, Ready)
    ensures w.entries[i].phys in w.pins && i !in w.unpinned
    ensures w.pins[w.entries[i].phys] == 1 + w.entries[i].refs + w.foreign[w.entries[i].phys]
  {
    assert Local(w, h, i);
  }

  /** Whoever loads finds the slot as reserved, mapped by nobody and in no frame; loading keeps the invariant. */
  lemma LoadFacts(w: World, h: Hashes, t: Binding, f: nat, key: nat)
    requires Inv(w, h) && t in w.loads && t.slot < |w.entries| && f !in w.pins
    ensures Sized(w) && InPhase(w, t.slot, Loading) && w.entries[t.slot].gen == t.gen && w.entries[t.slot].refs == 0
    ensures w.physHome[t.slot] == None && PhysBucket(h, f) < PAGE_CACHE_INDEX_SLOTS
    ensures Inv(Loaded(w, h, t.slot, f, key), h)
    ensures var e := w.entries[t.slot].(phase := Ready, phys := f, key := key);
            Loaded(w, h, t.slot, f, key) ==
              w.(entries := w.entries[t.slot := e], physHome := w.physHome[t.slot := Some(PhysBucket(h, f))],
                 pins := w.pins + multiset{f}, changed := w.changed - {f}, loads := w.loads - {t})
  {
    TokenPhase(w, h, t.slot);
    assert Local(w, h, t.slot);
    LoadKeeps(w, h, t.slot, f, key);
  }

  lemma {:induction false} NoFrames(entries: seq<Entry>)
    requires forall i | 0 <= i < |entries| :: !HasFrame(entries[i])
    ensures Frames(entries) == 0
    decreases |entries|
  {
    if entries != [] {
      NoFrames(entries[..|entries| - 1]);
    }
  }

  /**
    One of two slots holds page 0 of file 1, clean, in frame 5, which somebody else has pinned; the other one
    is free.
   */
  ghost predicate Lent(w: World, i: nat) {
    && |w.entries| == 2 && Idle(w, i, 5) && !Stale(w, i) && i !in w.unpinned
    && w.entries[i].node == 1 && w.entries[i].index == 0 && InPhase(w, 1 - i, Empty)
    && w.foreign == multiset{5} && w.pins == multiset{5, 5}
  }

  /** A page is loaded and mapped. */
  method MapPage(h: Hashes) returns (c: Cache, b: Binding)
    ensures c.Valid() && c.h == h && Mapped(c.W(), b) && fresh(c) && fresh(c.keys) && fresh(c.frames)
    ensures fresh(c.free)
  {
    c := new Cache(2, h);
    hide Inv, Frames, Indexed, KeyBucket, PhysBucket;
    var a := c.Acquire(1, 0, 0, true, true, true);
    assert a.Load? by {
      assert c.entries[0].phase == Empty || a.Load?;
    }
    b := a.token;
    ghost var w := c.W();
    c.Shape();
    TokenPhase(w, h, b.slot);
    assert Started(w, b);
    hide Reserved;
    var m := c.FinishLoad(b, 5, 0, true, true);
    MappedOnce(w, c.W(), h, b);
  }

  ghost predicate Started(w: World, b: Binding) {
    && |w.entries| == 2 && b.slot < 2 && b.gen != 0 && w.entries[b.slot] == Fresh(Loading, 1, 0, b.gen)
    && InPhase(w, 1 - b.slot, Empty) && w.foreign == w.pins == multiset{} && w.unpinned == {}
  }

  lemma MappedOnce(w: World, w': World, h: Hashes, b: Binding)
    requires Sized(w) && Started(w, b) && w' == Acquired(Loaded(w, h, b.slot, 5, 0), b.slot, 0, true, true)
    ensures Mapped(w', b)
  {
  }

  ghost predicate Mapped(w: World, b: Binding) {
    && |w.entries| == 2 && b.slot < 2 && b.gen == w.entries[b.slot].gen != 0 && b in w.bindings
    && InPhase(w, b.slot, Ready) && w.entries[b.slot].refs == 1 && w.entries[b.slot].phys == 5 && !Stale(w, b.slot)
    && b.slot !in w.unpinned && w.entries[b.slot].node == 1 && w.entries[b.slot].index == 0
    && InPhase(w, 1 - b.slot, Empty) && w.foreign == multiset{} && w.pins == multiset{5, 5}
  }

  /** A portal pins its frame, and the mapping goes. */
  method LendPage(h: Hashes) returns (c: Cache, i: nat)
    ensures c.Valid() && c.h == h && Lent(c.W(), i) && fresh(c) && fresh(c.keys) && fresh(c.frames)
    ensures fresh(c.free)
  {
    var b: Binding;
    c, b := MapPage(h);
    hide Inv, Frames, Indexed, Lent, Stale, Harvested, Dropped;
    i := b.slot;
    ghost var w := c.W();
    c.PinBy(5);
    var r := c.Release(b);
    LentAfter(w, c.W(), b);
  }

  lemma LentAfter(w: World, w': World, b: Binding)
    requires Mapped(w, b) && w' == Dropped(Harvested(PinnedBy(w, 5), b.slot), b.slot)
    ensures Lent(w', b.slot)
  {
  }

  /** Its eviction is begun, and the pin of the cache released: the frame lives on. */
  method EvictLent(h: Hashes) returns (c: Cache, t: Binding)
    ensures c.Valid() && c.h == h && t in c.evicts && t.slot < |c.entries| == 2 && t.slot in c.unpinned
    ensures InPhase(c.W(), t.slot, Evicting) && InPhase(c.W(), 1 - t.slot, Empty)
    ensures c.entries[t.slot].node == 1 && c.entries[t.slot].index == 0
    ensures c.entries[t.slot].phys == 5 && c.pins == c.foreign == multiset{5}
    ensures fresh(c) && fresh(c.keys) && fresh(c.frames) && fresh(c.free)
  {
    var i: nat;
    c, i := LendPage(h);
    hide Inv, Frames, Indexed;
    var e := c.BeginEvict(5);
    t := e.value;
    assert t.slot == i;
    var freed := c.ReleasePin(t);
    assert !freed;
  }

  /** So the page is put back.  When the portal goes, the frame is free and the cache still serves the page from it. */
  method ServesFreeFrame(h: Hashes) returns (c: Cache, i: nat)
    ensures !c.Valid() && InPhase(c.W(), i, Ready) && c.entries[i].phys == 5 && 5 !in c.pins && KeysApart(c.W())
  {
    var t: Binding;
    c, t := EvictLent(h);
    hide Inv, Frames, Indexed;
    c.Restore(t);
    i := t.slot;
    var freed := c.ReleaseBy(5);
  }

  /** If the page is asked for again before it is put back, two slots end up with its key. */
  method LoadedWhileEvicting(h: Hashes) returns (c: Cache)
    ensures !c.Valid() && !KeysApart(c.W())
  {
    var t: Binding;
    c, t := EvictLent(h);
    hide Inv, Frames, Indexed;
    assert NoSuchKey(c.W(), 1, 0);
    var b := c.Acquire(1, 0, 0, true, true, true);
    assert b.Load? by {
      assert c.entries[1 - t.slot].phase == Empty || b.Load?;
    }
    assert Keyed(c.W(), b.token.slot, 1, 0);
    c.Restore(t);
  }
}
