/** The reverse map: for every frame a chain of the page slots that map it. */
module Rmap {
  import opened Wrappers
  import opened VmTree
  import opened VmPages

  /** A slot, by its region and index. */
  datatype Ref = Ref(region: nat, slot: nat)

  type Chains = map<nat, seq<Ref>>

  ghost predicate NoDup(s: seq<Ref>) {
    forall i, j | 0 <= i < j < |s| :: s[i] != s[j]
  }

  ghost predicate Linked(chains: Chains, f: nat, ref: Ref) {
    f in chains && ref in chains[f]
  }

  /** The links of frame f are those of before, with ref added or taken away; other frames are untouched. */
  ghost predicate LinkedMore(before: Chains, chains: Chains, f: nat, ref: Ref) {
    forall g: nat, x: Ref {:trigger Linked(chains, g, x)} :: Linked(chains, g, x) <==>
        Linked(before, g, x) || (g == f && x == ref)
  }

  ghost predicate LinkedLess(before: Chains, chains: Chains, f: nat, ref: Ref) {
    forall g: nat, x: Ref {:trigger Linked(chains, g, x)} :: Linked(chains, g, x) <==>
        Linked(before, g, x) && !(g == f && x == ref)
  }

  ghost predicate LinkedMoved(before: Chains, chains: Chains, f: nat, from: Ref, to: Ref) {
    forall g: nat, x: Ref {:trigger Linked(chains, g, x)} :: Linked(chains, g, x)
      <==> (Linked(before, g, x) && !(g == f && x == from)) || (g == f && x == to)
  }

  function Frames(n: nat): (r: set<nat>)
    ensures forall f: nat :: f in r <==> f < n
  {
    if n == 0 then {} else Frames(n - 1) + {n - 1}
  }

  class ReverseMap {
    /** Frames below limit have a chain; frame 0 is never mapped. */
    const limit: nat
    var chains: Chains

    ghost predicate Valid()
      reads this
    {
      (forall f: nat :: f in chains <==> f < limit) && forall f | f in chains :: NoDup(chains[f])
    }

    constructor (limit: nat)
      ensures Valid() && this.limit == limit && forall f: nat, x: Ref :: !Linked(chains, f, x)
    {
      this.limit := limit;
      chains := map f | f in Frames(limit) :: [];
    }

    /** Place of a link in its chain; past the end when there is none. */
    method Position(f: nat, ref: Ref) returns (i: nat)
      requires Valid() && f in chains
      ensures i <= |chains[f]| && (i < |chains[f]| ==> chains[f][i] == ref) && (i == |chains[f]| ==> ref !in chains[f])
    {
      i := 0;
      while i < |chains[f]|
        invariant i <= |chains[f]| && forall k | 0 <= k < i :: chains[f][k] != ref
      {
        if chains[f][i] == ref {
          return;
        }
        i := i + 1;
      }
    }

    /** insert; memory tells whether the allocation of the link succeeds. */
    method Insert(ref: Ref, f: nat, memory: bool) returns (ok: bool)
      requires Valid()
      modifies this
      ensures Valid() && (ok <==> 0 < f < limit && memory)
      ensures ok ==> LinkedMore(old(chains), chains, f, ref)
      ensures !ok ==> chains == old(chains)
    {
      if f == 0 || f >= limit || !memory {
        return false;
      }
      var i := Position(f, ref);
      if i < |chains[f]| {
        return true;
      }
      chains := chains[f := [ref] + chains[f]];
      return true;
    }

    /** remove */
    method Remove(ref: Ref, f: nat)
      requires Valid()
      modifies this
      ensures Valid() && chains.Keys == old(chains).Keys
      ensures 0 < f < limit ==> LinkedLess(old(chains), chains, f, ref)
      ensures 0 < f < limit && ref in old(chains)[f] ==> |chains[f]| < |old(chains)[f]|
      ensures !(0 < f < limit) ==> chains == old(chains)
    {
      if f == 0 || f >= limit {
        return;
      }
      var i := Position(f, ref);
      if i < |chains[f]| {
        CutChain(chains[f], i);
        chains := chains[f := chains[f][..i] + chains[f][i + 1..]];
      }
    }

    /** rebind: fails exactly when the link is missing. */
    method Rebind(from: Ref, to: Ref, f: nat) returns (ok: bool)
      requires Valid() && !Linked(chains, f, to)
      modifies this
      ensures Valid() && (ok <==> 0 < f < limit && Linked(old(chains), f, from))
      ensures ok ==> LinkedMoved(old(chains), chains, f, from, to)
      ensures !ok ==> chains == old(chains)
    {
      if f == 0 || f >= limit {
        return false;
      }
      var i := Position(f, from);
      if i == |chains[f]| {
        return false;
      }
      SwapChain(chains[f], i, to);
      chains := chains[f := chains[f][i := to]];
      return true;
    }

    /** collect_peers for one peer: some link of the frame other than the caller's own, if there is one. */
    method Peer(f: nat, self: Ref) returns (r: Option<Ref>)
      requires Valid()
      ensures r.Some? ==> 0 < f < limit && Linked(chains, f, r.value) && r.value != self
      ensures r.None? && 0 < f < limit ==> forall x | Linked(chains, f, x) :: x == self
    {
      if f == 0 || f >= limit {
        return None;
      }
      var i := 0;
      while i < |chains[f]|
        invariant i <= |chains[f]| && forall k | 0 <= k < i :: chains[f][k] == self
      {
        if chains[f][i] != self {
          return Some(chains[f][i]);
        }
        i := i + 1;
      }
      return None;
    }
  }

  lemma CutChain(s: seq<Ref>, i: nat)
    requires NoDup(s) && i < |s|
    ensures var t := s[..i] + s[i + 1..];
            NoDup(t) && |t| < |s| && forall x :: x in t <==> x in s && x != s[i]
  {
    var t := s[..i] + s[i + 1..];
    forall x | x in s && x != s[i] ensures x in t {
      var k :| 0 <= k < |s| && s[k] == x;
      assert t[if k < i then k else k - 1] == x;
    }
    forall x | x in t ensures x in s && x != s[i] {
      var k :| 0 <= k < |t| && t[k] == x;
      assert s[if k < i then k else k + 1] == x;
    }
  }

  lemma SwapChain(s: seq<Ref>, i: nat, to: Ref)
    requires NoDup(s) && i < |s| && to !in s
    ensures var t := s[i := to];
            NoDup(t) && forall x :: x in t <==> (x in s && x != s[i]) || x == to
  {
    var t := s[i := to];
    assert t[i] == to;
    forall x | x in s && x != s[i] ensures x in t {
      var k :| 0 <= k < |s| && s[k] == x;
      assert t[k] == x;
    }
  }

  // ---- agreement with the page slots --------------------------------------------------------

  /** A slot that the reverse map must know about, under frame f. */
  predicate Wants(pm: PageMap, i: nat, f: nat) {
    && i < pm.count <= |pm.slots|
    && var s := pm.slots[i];
       s.state != Empty && s.state != Portal && s.phys == f && f != 0
  }

  /** The links of a region are exactly its resident non-portal slots. */
  ghost predicate Exact(chains: Chains, id: nat, pm: PageMap) {
    forall f: nat, i: nat {:trigger Linked(chains, f, Ref(id, i))} :: Linked(chains, f, Ref(id, i)) <==> Wants(pm, i, f)
  }

  /** Links of regions other than the two given ones are the same. */
  ghost predicate OthersSame(before: Chains, chains: Chains, a: nat, b: nat) {
    forall f: nat, x: Ref {:trigger Linked(chains, f, x)} | x.region != a && x.region != b ::
      Linked(chains, f, x) <==> Linked(before, f, x)
  }
}
