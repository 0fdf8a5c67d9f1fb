/** Runs of the slab allocator that end where its code goes wrong. */
module SlubRuns {
  import opened Wrappers
  import opened FreeList
  import opened SlubState
  import opened SlubSteps
  import opened Slub

  /** A cache on one CPU and one node that has no slab yet. */
  ghost function Empty(): World {
    World(map[], [Cpu(None, NULL, [])], [[]], map[], map[], map[], map[], map[], [[]])
  }

  lemma EmptyOk(seed: Addr, per: nat)
    ensures Inv(Empty(), seed, per)
  {
  }

  ghost function OneLink(mem: Memory, seed: Addr, a: Addr): Memory {
    mem[a := Encode(seed, a, NULL)]
  }

  /** A new slab of one object, from the page allocator. */
  lemma MakeOne(w: World, seed: Addr, k: nat, a: Addr)
    requires Inv(w, seed, 1) && k !in w.slabs && |w.nodes| == 1 && a !in w.home && a != NULL
    ensures Inv(Made(w, k, 0, [a], OneLink(w.mem, seed, a)), seed, 1)
    ensures var w' := Made(w, k, 0, [a], OneLink(w.mem, seed, a));
            && w'.slabs == w.slabs[k := Slab(a, 0, true, false, 0)] && w'.place == w.place[k := Detached]
            && w'.own == w.own[k := [a]] && w'.home == w.home[a := k] && w'.spot == w.spot[a := Own]
  {
    IsFresh(w, seed, k, a);
    MakeKeeps(w, seed, 1, k, 0, [a], OneLink(w.mem, seed, a));
    InvSized(w, seed, 1);
    hide Inv, FreshSlab, OneLink;
  }

  lemma IsFresh(w: World, seed: Addr, k: nat, a: Addr)
    requires k !in w.slabs && |w.nodes| == 1 && a !in w.home && a != NULL
    ensures FreshSlab(w, seed, 1, k, 0, [a], OneLink(w.mem, seed, a))
  {
    hide Encode, Decode;
    PushList(w.mem, seed, NULL, [], a);
    assert [a] + [] == [a];
    hide List;
  }

  // ---- a lost slab -----------------------------------------------------------------------------------------

  /**
    Interrupts are on between retiring a slab and activating the next.  If an interrupt allocates on the
    same CPU, and so activates slab t and takes an object from it, the slab s that the interrupted call then
    activates takes its place.
   */
  lemma InterruptLosesSlab(w: World, seed: Addr, per: nat, c: nat, s: nat, t: nat)
    requires Inv(w, seed, per) && c < |w.cpus| && w.cpus[c].slab == None && s != t
    requires s in w.slabs && s in w.place && w.place[s] == Detached && t in w.slabs && t in w.place
    requires w.place[t] == Detached
    ensures CanActivate(w, c, t) && var w1 := Activated(w, c, t);
            && Inv(w1, seed, per) && CanGive(w1, c) && var w2 := Given(w1, seed, c);
            && Inv(w2, seed, per) && CanActivate(w2, c, s) && var w3 := Activated(w2, c, s);
            && Sized(w3) && t in w3.slabs && !Conserved(w3) && !Found(w3, t)
  {
    ActivateKeeps(w, seed, per, c, t);
    var w1 := Activated(w, c, t);
    GiveKeeps(w1, seed, per, c);
    var w2 := Given(w1, seed, c);
    ActivateConserves(w2, seed, per, c, s);
    Overrun(w2, seed, per, c, s, t);
  }

  ghost predicate CanActivate(w: World, c: nat, s: nat) {
    c < |w.cpus| == |w.hand| && s in w.slabs && s in w.own
  }

  ghost predicate CanGive(w: World, c: nat) {
    && c < |w.cpus| == |w.hand| && w.hand[c] != [] && w.cpus[c].slab.Some? && w.cpus[c].slab.value in w.slabs
    && w.cpus[c].free in w.mem
  }

  /** From an empty cache two calls are enough: the first makes slab 0, the interrupt makes slab 1 and uses it. */
  lemma TwoCallsLoseSlab(seed: Addr, a: Addr, b: Addr)
    requires a != NULL && b != NULL && a != b
    ensures var w1 := Made(Empty(), 0, 0, [a], OneLink(map[], seed, a));
            var w2 := Made(w1, 1, 0, [b], OneLink(w1.mem, seed, b));
            && Inv(w1, seed, 1) && Inv(w2, seed, 1) && CanActivate(w2, 0, 1) && var w3 := Activated(w2, 0, 1);
            && Inv(w3, seed, 1) && CanGive(w3, 0) && var w4 := Given(w3, seed, 0);
            && Inv(w4, seed, 1) && CanActivate(w4, 0, 0) && var w5 := Activated(w4, 0, 0);
            && Sized(w5) && 1 in w5.slabs && !Found(w5, 1)
  {
    EmptyOk(seed, 1);
    MakeOne(Empty(), seed, 0, a);
    var w1 := Made(Empty(), 0, 0, [a], OneLink(map[], seed, a));
    MakeOne(w1, seed, 1, b);
    InterruptLosesSlab(Made(w1, 1, 0, [b], OneLink(w1.mem, seed, b)), seed, 1, 0, 0, 1);
  }

  // ---- slabs of one object ---------------------------------------------------------------------------------

  /** Slabs 0 to m - 1 of one object each: from n on they are full, below n their object has come back. */
  ghost predicate Filled(w: World, seed: Addr, addrs: seq<Addr>, n: nat, m: nat) {
    && Inv(w, seed, 1) && n <= m <= |addrs| && |w.cpus| == |w.nodes| == |w.hand| == 1 && w.cpus[0].slab == None
    && w.cpus[0].free == NULL
    && |w.nodes[0]| == n && (forall k: nat | m <= k < |addrs| :: addrs[k] !in w.home)
    && (forall k: nat {:trigger SlabAt(w, addrs[k], k)} | k < m :: SlabAt(w, addrs[k], k))
    && (forall k: nat :: k in w.slabs <==> k < m)
    && (forall k: nat {:trigger FullAt(w, addrs[k], k)} | n <= k < m :: FullAt(w, addrs[k], k))
  }

  ghost predicate SlabAt(w: World, a: Addr, k: nat) {
    a in w.home && w.home[a] == k && a in w.spot
  }

  ghost predicate FullAt(w: World, a: Addr, k: nat) {
    && k in w.place && a in w.spot && w.spot[a] == Live && w.place[k] == Full
    && k in w.slabs && w.slabs[k].node == 0
  }

  /** An allocation finds no slab and makes one; the next call retires it, full. */
  lemma FillOne(w: World, seed: Addr, addrs: seq<Addr>, m: nat) returns (w': World)
    requires Filled(w, seed, addrs, 0, m) && m < |addrs| && AllDiffer(addrs) && addrs[m] != NULL
    ensures Filled(w', seed, addrs, 0, m + 1)
  {
    hide Inv;
    var a := addrs[m];
    assert a !in w.home;
    var w3 := UseOne(w, seed, m, a);
    RetireFull(w3, seed, m);
    w' := Retired(w3, seed, 1, 0, w3.mem, NULL);
    Rewritten(w.slabs, m, w3.slabs[m], w'.slabs[m], w'.slabs[m]);
    Rewritten(w.place, m, Active(0), Full, Full);
    StillFilled(w, w', seed, addrs, m);
  }

  /** A slab of one object made, activated and used up. */
  lemma UseOne(w: World, seed: Addr, m: nat, a: Addr) returns (w3: World)
    requires Inv(w, seed, 1) && |w.cpus| == |w.nodes| == |w.hand| == 1 && w.cpus[0].slab == None && m !in w.slabs
    requires a !in w.home && a != NULL
    ensures Inv(w3, seed, 1) && |w3.cpus| == |w3.hand| == 1 && w3.cpus[0].slab == Some(m) && w3.hand[0] == []
    ensures w3.slabs == w.slabs[m := Slab(NULL, 1, true, false, 0)] && m in w3.own && w3.own[m] == []
    ensures w3.home == w.home[a := m] && w3.spot == w.spot[a := Live] && w3.place == w.place[m := Active(0)]
    ensures w3.nodes == w.nodes
  {
    InvSized(w, seed, 1);
    hide *;
    MakeOne(w, seed, m, a);
    var w1 := Made(w, m, 0, [a], OneLink(w.mem, seed, a));
    MadeRest(w, seed, m, a);
    ActivateKeeps(w1, seed, 1, 0, m);
    ActivateOneIs(w1, m, a);
    var w2 := Activated(w1, 0, m);
    GiveKeeps(w2, seed, 1, 0);
    GiveOneIs(w2, seed, m, a);
    w3 := Given(w2, seed, 0);
    Rewritten(w.spot, a, Own, Hand, Live);
    Rewritten(w.slabs, m, Slab(a, 0, true, false, 0), Slab(NULL, 0, true, false, 0), Slab(NULL, 1, true, false, 0));
    Rewritten(w.place, m, Detached, Active(0), Active(0));
    Rewritten(w.own, m, [a], [], []);
  }

  lemma Rewritten<K, V>(f: map<K, V>, k: K, x: V, y: V, z: V)
    ensures f[k := x][k := y] == f[k := y] && f[k := x][k := y][k := z] == f[k := z]
  {
  }

  lemma MadeRest(w: World, seed: Addr, m: nat, a: Addr)
    ensures var w1 := Made(w, m, 0, [a], OneLink(w.mem, seed, a));
            w1.cpus == w.cpus && w1.hand == w.hand && w1.nodes == w.nodes
  {
  }

  lemma ActivateOneIs(w: World, m: nat, a: Addr)
    requires |w.cpus| == |w.hand| == 1 && m in w.slabs && m in w.own && w.own[m] == [a]
    requires w.slabs[m] == Slab(a, 0, true, false, 0) && a in w.spot
    ensures var w' := Activated(w, 0, m);
            && w'.slabs == w.slabs[m := Slab(NULL, 0, true, false, 0)]
            && w'.cpus == [w.cpus[0].(slab := Some(m), free := a)]
            && w'.own == w.own[m := []] && w'.hand == [[a]] && w'.spot == w.spot[a := Hand]
            && w'.place == w.place[m := Active(0)]
            && w'.home == w.home && w'.nodes == w.nodes
  {
  }

  lemma GiveOneIs(w: World, seed: Addr, m: nat, a: Addr)
    requires |w.cpus| == |w.hand| == 1 && w.hand[0] == [a] && w.cpus[0].slab == Some(m) && w.cpus[0].free == a
    requires m in w.slabs && a in w.mem
    requires w.slabs[m].inuse == 0
    ensures var w' := Given(w, seed, 0);
            && w'.slabs == w.slabs[m := w.slabs[m].(inuse := 1)] && |w'.cpus| == 1 && w'.cpus[0].slab == Some(m)
            && w'.hand == [[]]
            && w'.spot == w.spot[a := Live] && w'.own == w.own && w'.place == w.place && w'.home == w.home
            && w'.nodes == w.nodes
  {
    hide Decode;
    assert [a][1..] == [];
  }

  lemma StillFilled(w: World, w': World, seed: Addr, addrs: seq<Addr>, m: nat)
    requires Filled(w, seed, addrs, 0, m) && m < |addrs| && AllDiffer(addrs) && Inv(w', seed, 1)
    requires |w'.cpus| == |w'.nodes| == |w'.hand| == 1 && w'.cpus[0].slab == None && w'.cpus[0].free == NULL
    requires w'.nodes == w.nodes
    requires w'.home == w.home[addrs[m] := m] && w'.spot == w.spot[addrs[m] := Live] && w'.place == w.place[m := Full]
    requires m in w'.slabs && w'.slabs == w.slabs[m := w'.slabs[m]] && w'.slabs[m].node == 0
    ensures Filled(w', seed, addrs, 0, m + 1)
  {
    hide Inv;
    forall k: nat {:trigger SlabAt(w', addrs[k], k)} {:trigger FullAt(w', addrs[k], k)} | k < m + 1
      ensures SlabAt(w', addrs[k], k) && FullAt(w', addrs[k], k)
    {
      if k < m {
        assert SlabAt(w, addrs[k], k) && FullAt(w, addrs[k], k) && addrs[k] != addrs[m];
      }
    }
    forall k: nat | m + 1 <= k < |addrs| ensures addrs[k] !in w'.home {
      assert addrs[m] != addrs[k];
    }
  }

  lemma RetireFull(w: World, seed: Addr, s: nat)
    requires Inv(w, seed, 1) && |w.cpus| == |w.hand| == 1 && w.cpus[0].slab == Some(s) && s in w.slabs && s in w.own
    requires w.hand[0] == [] && w.own[s] == [] && w.slabs[s].inuse == 1
    ensures w.slabs[s].node < |w.nodes| && Inv(Retired(w, seed, 1, 0, w.mem, NULL), seed, 1)
    ensures var w' := Retired(w, seed, 1, 0, w.mem, NULL);
            && w'.spot == w.spot && w'.home == w.home && w'.place == w.place[s := Full] && w'.nodes == w.nodes
            && w'.slabs == w.slabs[s := w'.slabs[s]] && w'.slabs[s].node == w.slabs[s].node && w'.cpus[0].slab == None
            && w'.cpus[0].free == NULL
            && |w'.cpus| == |w'.hand| == 1
  {
    InvSized(w, seed, 1);
    assert w.hand[0] + w.own[s] == [];
    assert Spliced(w, seed, 0, s, w.mem, NULL);
    RetireKeeps(w, seed, 1, 0, s, w.mem, NULL);
    hide Inv;
  }

  /** The object of a full slab comes back, and the slab goes on the list of its node. */
  lemma EmptyOne(w: World, seed: Addr, addrs: seq<Addr>, n: nat, m: nat) returns (w': World)
    requires Filled(w, seed, addrs, n, m) && n < m && AllDiffer(addrs)
    ensures Filled(w', seed, addrs, n + 1, m)
  {
    hide Inv, Encode;
    var a := addrs[n];
    assert SlabAt(w, a, n) && FullAt(w, a, n);
    PutFullKeeps(w, seed, 1, a);
    w' := PutFull(w, seed, a);
    assert w'.place == w.place[n := NodePartial(0)] && w'.spot == w.spot[a := Own] && w'.slabs.Keys == w.slabs.Keys;
    forall k: nat {:trigger SlabAt(w', addrs[k], k)} | k < m ensures SlabAt(w', addrs[k], k) {
      assert SlabAt(w, addrs[k], k);
    }
    forall k: nat {:trigger FullAt(w', addrs[k], k)} | n + 1 <= k < m ensures FullAt(w', addrs[k], k) {
      assert FullAt(w, addrs[k], k) && addrs[k] != a;
    }
  }

  /** After 23 allocations, of which the last one retires the 22nd slab, and 21 releases, the 22nd release traps. */
  lemma OneObjectTraps(seed: Addr, addrs: seq<Addr>) returns (w: World, s: nat)
    requires |addrs| == SLUB_MAX_PARTIAL + 2 && AllDiffer(addrs) && forall k | 0 <= k < |addrs| :: addrs[k] != NULL
    ensures Inv(w, seed, 1) && s in w.slabs && w.slabs[s].node < |w.nodes| && Traps(w.slabs[s], 1, w.nodes)
    ensures !w.slabs[s].listed
  {
    EmptyOk(seed, 1);
    w := Empty();
    var m := 0;
    while m < |addrs|
      invariant m <= |addrs| && Filled(w, seed, addrs, 0, m)
    {
      w := FillOne(w, seed, addrs, m);
      m := m + 1;
    }
    var n := 0;
    while n < |addrs| - 1
      invariant n <= |addrs| - 1 && Filled(w, seed, addrs, n, |addrs|)
    {
      w := EmptyOne(w, seed, addrs, n, |addrs|);
      n := n + 1;
    }
    s := |addrs| - 1;
    assert FullAt(w, addrs[s], s);
    assert SlabOk(w, seed, 1, s);
  }
}
