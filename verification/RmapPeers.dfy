/** Taking a frame away from all its mappings but one. */
module RmapPeers {
  import opened Wrappers
  import opened VmTree
  import opened VmPages
  import opened Rmap
  import opened VmMove

  /**
    How many mappings were invalidated, and how many times that freed the frame; or that a peer could not be
    invalidated.
   */
  datatype Outcome = Cleared(invalidated: nat, freed: nat) | Failed

  type Maps = map<nat, PageMap>

  /** The peer's slot still maps the frame. */
  predicate Live(pages: Maps, ref: Ref, f: nat) {
    && ref.region in pages && ref.slot < pages[ref.region].count && ref.slot < |pages[ref.region].slots|
    && pages[ref.region].slots[ref.slot].state != Empty && pages[ref.region].slots[ref.slot].phys == f
  }

  function ClearSlot(pages: Maps, ref: Ref): Maps
    requires ref.region in pages && ref.slot < |pages[ref.region].slots|
  {
    var pm := pages[ref.region];
    pages[ref.region := pm.(slots := pm.slots[ref.slot := BLANK])]
  }

  /** x maps the frame in the space of self, and is not self. */
  ghost predicate IsPeer(owner: map<nat, nat>, before: Maps, self: Ref, f: nat, x: Ref) {
    && x != self && x.region in owner && self.region in owner && owner[x.region] == owner[self.region] != 0
    && Live(before, x, f)
  }

  ghost predicate HoldsPin(before: Maps, x: Ref) {
    x.region in before && x.slot < |before[x.region].slots| && before[x.region].slots[x.slot].state != Portal
  }

  /** The peers among the links of a frame that are not among those left. */
  ghost function Gone(links: seq<Ref>, left: seq<Ref>, owner: map<nat, nat>, before: Maps, self: Ref,
                      f: nat): set<Ref> {
    set x | x in links && x !in left && IsPeer(owner, before, self, f, x)
  }

  ghost function Pinned(before: Maps, gone: set<Ref>): set<Ref> {
    set x | x in gone && HoldsPin(before, x)
  }

  /** A link that stops the sweep: of another space, or with a pin that cannot be given back. */
  ghost predicate Blocks(owner: map<nat, nat>, before: Maps, self: Ref, f: nat, releasable: set<Ref>, x: Ref) {
    && x != self && x.region in owner && self.region in owner && owner[x.region] != 0
    && (owner[x.region] != owner[self.region] || (Live(before, x, f) && HoldsPin(before, x) && x !in releasable))
  }

  /** Exactly the slots of the peers that are gone have been cleared. */
  ghost predicate Wiped(before: Maps, pages: Maps, gone: set<Ref>) {
    && before.Keys == pages.Keys
    && forall id | id in pages ::
         && pages[id].count == before[id].count && |pages[id].slots| == |before[id].slots|
         && forall i | 0 <= i < |pages[id].slots| ::
              pages[id].slots[i] == if Ref(id, i) in gone then BLANK else before[id].slots[i]
  }

  lemma WipedOne(before: Maps, pages: Maps, gone: set<Ref>, ref: Ref)
    requires Wiped(before, pages, gone) && ref.region in pages && ref.slot < |pages[ref.region].slots|
    ensures Wiped(before, ClearSlot(pages, ref), gone + {ref})
  {
  }

  lemma LiveAsBefore(before: Maps, pages: Maps, gone: set<Ref>, f: nat, x: Ref)
    requires Wiped(before, pages, gone) && x !in gone
    ensures Live(pages, x, f) == Live(before, x, f)
    ensures (Live(pages, x, f) ==> pages[x.region].slots[x.slot] == before[x.region].slots[x.slot])
  {
  }

  /** Only links of frame f have gone, and not that of self. */
  ghost predicate Fewer(before: Chains, chains: Chains, f: nat, self: Ref) {
    && f in before && f in chains
    && (forall x | x in chains[f] :: x in before[f])
    && (self in before[f] ==> self in chains[f])
    && forall g: nat, x: Ref {:trigger Linked(chains, g, x)} | g != f :: Linked(chains, g, x) <==> Linked(before, g, x)
  }

  lemma SelfStays(before: Chains, chains: Chains, f: nat, self: Ref)
    requires Fewer(before, chains, f, self)
    ensures f in before && f in chains && (self in before[f] ==> |chains[f]| > 0)
  {
  }

  lemma FewerStep(before: Chains, chains: Chains, chains': Chains, f: nat, self: Ref, ref: Ref)
    requires Fewer(before, chains, f, self) && ref != self && f in chains' && LinkedLess(chains, chains', f, ref)
    ensures Fewer(before, chains', f, self)
  {
    forall x | x in chains'[f] ensures x in before[f] {
      assert Linked(chains', f, x);
      assert Linked(chains, f, x);
    }
    if self in before[f] {
      assert Linked(chains, f, self);
      assert Linked(chains', f, self);
    }
    forall g: nat, x: Ref {:trigger Linked(chains', g, x)} | g != f
      ensures Linked(chains', g, x) <==> Linked(before, g, x)
    {
      assert Linked(chains, g, x) <==> Linked(before, g, x);
    }
  }

  /** Part of the way through: links have gone, none of which stops the sweep, and with them the pages of peers. */
  ghost predicate Sweeping(chains0: Chains, chains: Chains, before: Maps, pages: Maps, owner: map<nat, nat>, self: Ref,
                           f: nat,
                           releasable: set<Ref>, invalidated: nat, released: nat) {
    && Fewer(chains0, chains, f, self)
    && (var gone := Gone(chains0[f], chains[f], owner, before, self, f);
        Wiped(before, pages, gone) && invalidated == |gone| && released == |Pinned(before, gone)|)
    && forall x: Ref | x in chains0[f] && x !in chains[f] :: !Blocks(owner, before, self, f, releasable, x)
  }

  lemma SweepStart(chains: Chains, pages: Maps, owner: map<nat, nat>, self: Ref, f: nat, releasable: set<Ref>)
    requires f in chains
    ensures Sweeping(chains, chains, pages, pages, owner, self, f, releasable, 0, 0)
  {
    assert Gone(chains[f], chains[f], owner, pages, self, f) == {} && Pinned(pages, {}) == {};
  }

  lemma SweepAt(chains0: Chains, chains: Chains, before: Maps, pages: Maps, owner: map<nat, nat>, self: Ref, f: nat,
                releasable: set<Ref>,
                invalidated: nat, released: nat, x: Ref)
    requires Sweeping(chains0, chains, before, pages, owner, self, f, releasable, invalidated, released)
    requires Linked(chains, f, x)
    ensures f in chains0 && f in chains && x in chains0[f] && x in chains[f] && before.Keys == pages.Keys
    ensures Live(pages, x, f) == Live(before, x, f)
    ensures (Live(pages, x, f) ==> pages[x.region].slots[x.slot] == before[x.region].slots[x.slot])
  {
    LiveAsBefore(before, pages, Gone(chains0[f], chains[f], owner, before, self, f), f, x);
  }

  /** One link less: if it was a peer's, one more is gone. */
  lemma GoneMore(links: seq<Ref>, left: seq<Ref>, left': seq<Ref>, owner: map<nat, nat>, before: Maps, self: Ref,
                 f: nat, ref: Ref)
    requires ref in links && ref in left && forall x: Ref :: x in left' <==> x in left && x != ref
    ensures var g, g' := Gone(links, left, owner, before, self, f), Gone(links, left', owner, before, self, f);
            && ref !in g && g' == (if IsPeer(owner, before, self, f, ref) then g + {ref} else g)
            && |g'| == |g| + (if IsPeer(owner, before, self, f, ref) then 1 else 0)
            && |Pinned(before, g')|
            == |Pinned(before, g)| + (if IsPeer(owner, before, self, f, ref) && HoldsPin(before, ref) then 1 else 0)
  {
    var g, g' := Gone(links, left, owner, before, self, f), Gone(links, left', owner, before, self, f);
    hide IsPeer, HoldsPin;
    assert ref !in g;
    assert g' == if IsPeer(owner, before, self, f, ref) then g + {ref} else g;
    hide Gone;
    PinnedMore(before, g, ref);
  }

  lemma PinnedMore(before: Maps, g: set<Ref>, ref: Ref)
    requires ref !in g
    ensures |Pinned(before, g + {ref})| == |Pinned(before, g)| + if HoldsPin(before, ref) then 1 else 0
  {
    hide HoldsPin;
    assert Pinned(before, g + {ref}) == if HoldsPin(before, ref) then Pinned(before, g) + {ref} else Pinned(before, g);
  }

  /** A link that does not stop the sweep goes, and with it the page if it was a peer's. */
  lemma SweepStep(chains0: Chains, chains: Chains, chains': Chains, before: Maps, pages: Maps, owner: map<nat, nat>,
                  self: Ref, f: nat,
                  releasable: set<Ref>, invalidated: nat, released: nat, ref: Ref)
    requires Sweeping(chains0, chains, before, pages, owner, self, f, releasable, invalidated, released) && ref != self
    requires Linked(chains, f, ref)
    requires f in chains' && LinkedLess(chains, chains', f, ref) && !Blocks(owner, before, self, f, releasable, ref)
    requires ref.region in pages
    ensures f in chains0 && f in chains
    ensures var peer := IsPeer(owner, before, self, f, ref);
            && (peer ==> ref.slot < |pages[ref.region].slots|)
            && Sweeping(chains0, chains', before, if peer then ClearSlot(pages, ref) else pages, owner, self, f,
                        releasable, invalidated + (if peer then 1 else 0),
                        released + (if peer && HoldsPin(before, ref) then 1 else 0))
  {
    FewerStep(chains0, chains, chains', f, self, ref);
    forall x: Ref ensures x in chains'[f] <==> x in chains[f] && x != ref {
      assert Linked(chains', f, x) <==> Linked(chains, f, x) && x != ref;
    }
    GoneMore(chains0[f], chains[f], chains'[f], owner, before, self, f, ref);
    hide Gone, Pinned;
    if IsPeer(owner, before, self, f, ref) {
      WipedOne(before, pages, Gone(chains0[f], chains[f], owner, before, self, f), ref);
    }
  }

  /** With only self left, every peer is gone, and no link has stopped the sweep. */
  lemma SweepEnd(chains0: Chains, chains: Chains, before: Maps, pages: Maps, owner: map<nat, nat>, self: Ref, f: nat,
                 releasable: set<Ref>,
                 invalidated: nat, released: nat)
    requires Sweeping(chains0, chains, before, pages, owner, self, f, releasable, invalidated, released)
    requires forall x | Linked(chains, f, x) :: x == self
    ensures f in chains0 && f in chains
    ensures var all := Gone(chains0[f], [], owner, before, self, f);
            invalidated == |all| && released == |Pinned(before, all)|
    ensures forall x: Ref | x in chains0[f] :: !Blocks(owner, before, self, f, releasable, x)
  {
    forall x: Ref | x in chains0[f]
      ensures !Blocks(owner, before, self, f, releasable, x) && (x in chains[f] ==> x == self)
    {
      assert x in chains[f] ==> Linked(chains, f, x);
    }
    assert Gone(chains0[f], chains[f], owner, before, self, f) == Gone(chains0[f], [], owner, before, self, f);
  }

  lemma SweepParts(chains0: Chains, chains: Chains, before: Maps, pages: Maps, owner: map<nat, nat>, self: Ref, f: nat,
                   releasable: set<Ref>,
                   invalidated: nat, released: nat)
    requires Sweeping(chains0, chains, before, pages, owner, self, f, releasable, invalidated, released)
    ensures f in chains0 && f in chains && Fewer(chains0, chains, f, self)
    ensures Wiped(before, pages, Gone(chains0[f], chains[f], owner, before, self, f))
    ensures released == |Pinned(before, Gone(chains0[f], chains[f], owner, before, self, f))|
  {
  }

  lemma PeerOrNot(owner: map<nat, nat>, before: Maps, self: Ref, f: nat, releasable: set<Ref>, x: Ref)
    requires x != self && x.region in owner && self.region in owner
    ensures IsPeer(owner, before, self, f, x) <==> owner[x.region] == owner[self.region] != 0 && Live(before, x, f)
    ensures Blocks(owner, before, self, f, releasable, x) <==>
              owner[x.region] != 0 && (owner[x.region] != owner[self.region]
                  || (Live(before, x, f) && HoldsPin(before, x) && x !in releasable))
    ensures Live(before, x, f) ==> (HoldsPin(before, x) <==> before[x.region].slots[x.slot].state != Portal)
  {
  }

  /** Regions of the space that were linked exactly still are. */
  lemma SweepKeepsExact(chains0: Chains, chains: Chains, before: Maps, pages: Maps, owner: map<nat, nat>, self: Ref,
                        f: nat, id: nat)
    requires Fewer(chains0, chains, f, self)
    requires Wiped(before, pages, Gone(chains0[f], chains[f], owner, before, self, f))
    requires id in before && id in owner && self.region in owner && owner[id] == owner[self.region] != 0 && f != 0
    requires Exact(chains0, id, before[id]) && before[id].count <= |before[id].slots|
    ensures id in pages && Exact(chains, id, pages[id])
  {
    var gone := Gone(chains0[f], chains[f], owner, before, self, f);
    forall g: nat, i: nat {:trigger Linked(chains, g, Ref(id, i))}
      ensures Linked(chains, g, Ref(id, i)) <==> Wants(pages[id], i, g)
    {
      var x := Ref(id, i);
      assert Linked(chains0, g, x) <==> Wants(before[id], i, g);
      if g == f && Linked(chains0, f, x) && !Linked(chains, f, x) {
        assert IsPeer(owner, before, self, f, x);
        assert x in gone;
      }
    }
  }

  class Peers {
    const rmap: ReverseMap
    /** Page slots of all regions, and the space each region belongs to; 0 for none. */
    var pages: Maps
    var owner: map<nat, nat>
    /** Pins of frames: one for every mapping, and those held elsewhere. */
    var pins: map<nat, nat>

    constructor (rmap: ReverseMap)
      ensures this.rmap == rmap
    {
      this.rmap := rmap;
    }

    /**
      invalidate_peers.  releasable tells for which peers the pin can be given back.  The loop ends
      because every turn takes a link away; it fails exactly if some link stops it.
     */
    method InvalidatePeers(f: nat, self: Ref, releasable: set<Ref>) returns (r: Outcome)
      requires rmap.Valid() && 0 < f < rmap.limit && f in pins && |rmap.chains[f]| <= pins[f]
      requires self.region in owner && forall x: Ref | x in rmap.chains[f] :: x.region in owner && x.region in pages
      modifies this`pages, this`pins, rmap
      ensures rmap.Valid() && f in rmap.chains && Fewer(old(rmap.chains), rmap.chains, f, self)
      ensures r.Failed?
         <==> exists x: Ref :: x in old(rmap.chains)[f] && Blocks(owner, old(pages), self, f, releasable, x)
      ensures var gone := Gone(old(rmap.chains)[f], rmap.chains[f], owner, old(pages), self, f);
              Wiped(old(pages), pages, gone) && f in pins && pins == old(pins)[f := pins[f]]
                  && pins[f] + |Pinned(old(pages), gone)| == old(pins)[f]
      ensures r.Cleared? ==>
                && (forall x | Linked(rmap.chains, f, x) :: x == self)
                && var all := Gone(old(rmap.chains)[f], [], owner, old(pages), self, f);
                   && r.invalidated == |all| && pins[f] + |Pinned(old(pages), all)| == old(pins)[f]
                   && r.freed == (if |Pinned(old(pages), all)| > 0 && pins[f] == 0 then 1 else 0)
      ensures r.Cleared? && self in old(rmap.chains)[f] ==> r.freed == 0
    {
      hide Sweeping, LinkedLess, Linked, NoDup, Fewer, Wiped, Gone, Pinned, IsPeer, Blocks, HoldsPin;
      ghost var chains0, before := rmap.chains, pages;
      SweepStart(chains0, before, owner, self, f, releasable);
      var invalidated, freed := 0, 0;
      ghost var released := 0;
      while true
        invariant rmap.Valid() && f in rmap.chains
        invariant Sweeping(chains0, rmap.chains, before, pages, owner, self, f, releasable, invalidated, released)
        invariant f in pins && pins == old(pins)[f := pins[f]] && pins[f] + released == old(pins)[f]
        invariant |rmap.chains[f]| <= pins[f] && freed == (if released > 0 && pins[f] == 0 then 1 else 0)
        decreases |rmap.chains[f]|
      {
        ghost var chains := rmap.chains;
        var peer := rmap.Peer(f, self);
        if peer.None? {
          break;
        }
        var ref := peer.value;
        SweepAt(chains0, chains, before, pages, owner, self, f, releasable, invalidated, released, ref);
        PeerOrNot(owner, before, self, f, releasable, ref);
        if owner[ref.region] == 0 || (owner[ref.region] == owner[self.region] && !Live(pages, ref, f)) {
          rmap.Remove(ref, f);
          SweepStep(chains0, chains, rmap.chains, before, pages, owner, self, f, releasable, invalidated, released,
              ref);
          continue;
        }
        if owner[ref.region] != owner[self.region] {
          SweepParts(chains0, chains, before, pages, owner, self, f, releasable, invalidated, released);
          return Failed;
        }
        var s := pages[ref.region].slots[ref.slot];
        var pinned := s.state != Portal;
        if pinned {
          if ref !in releasable {
            SweepParts(chains0, chains, before, pages, owner, self, f, releasable, invalidated, released);
            return Failed;
          }
          pins := pins[f := pins[f] - 1];
        }
        rmap.Remove(ref, f);
        SweepStep(chains0, chains, rmap.chains, before, pages, owner, self, f, releasable, invalidated, released, ref);
        pages := ClearSlot(pages, ref);
        if pinned {
          released := released + 1;
          // frame_release_pin has freed the frame
          if pins[f] == 0 {
            freed := freed + 1;
          }
        }
        invalidated := invalidated + 1;
      }
      SweepParts(chains0, rmap.chains, before, pages, owner, self, f, releasable, invalidated, released);
      SweepEnd(chains0, rmap.chains, before, pages, owner, self, f, releasable, invalidated, released);
      SelfStays(chains0, rmap.chains, f, self);
      r := Cleared(invalidated, freed);
    }
  }
}
