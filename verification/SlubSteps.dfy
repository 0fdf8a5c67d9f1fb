/** The critical sections of the slab allocator keep every object in exactly one spot and every slab in one place. */
module SlubSteps {
  import opened Wrappers
  import opened FreeList
  import opened SlubState

  // ---- objects out and in ---------------------------------------------------------------------------

  lemma LiveMore(w: World, w': World, s: nat, a: Addr)
    requires Sized(w) && Sized(w') && w'.home == w.home && a in w.home && w.home[a] == s && w.spot[a] != Live
    requires w'.spot == w.spot[a := Live]
    ensures |LiveOf(w', s)| == |LiveOf(w, s)| + 1 && Objects(w', s) == Objects(w, s)
  {
    assert LiveOf(w', s) == LiveOf(w, s) + {a};
  }

  lemma LiveLess(w: World, w': World, s: nat, a: Addr, p: Spot)
    requires Sized(w) && Sized(w') && w'.home == w.home && a in w.home && w.home[a] == s && w.spot[a] == Live
    requires p != Live && w'.spot == w.spot[a := p]
    ensures |LiveOf(w, s)| > 0 && |LiveOf(w', s)| == |LiveOf(w, s)| - 1 && Objects(w', s) == Objects(w, s)
  {
    assert a in LiveOf(w, s);
    assert LiveOf(w', s) == LiveOf(w, s) - {a};
  }

  /** A slab is active on one CPU at most. */
  lemma OnlyCpu(w: World, seed: Addr, per: nat, c: nat, s: nat)
    requires Inv(w, seed, per) && s in w.slabs && w.place[s] == Active(c)
    ensures forall d: nat | d < |w.cpus| && d != c :: w.cpus[d].slab != Some(s)
  {
    forall d: nat | d < |w.cpus| && d != c ensures w.cpus[d].slab != Some(s) {
      assert CpuOk(w, seed, d);
    }
  }

  lemma NoCpu(w: World, seed: Addr, per: nat, s: nat)
    requires Inv(w, seed, per) && s in w.slabs && !w.place[s].Active?
    ensures forall d: nat | d < |w.cpus| :: w.cpus[d].slab != Some(s)
    ensures forall a | a in w.home && w.home[a] == s :: w.spot[a] != Hand
  {
    assert SlabOk(w, seed, per, s);
    forall d: nat | d < |w.cpus| ensures w.cpus[d].slab != Some(s) {
      assert CpuOk(w, seed, d);
    }
  }

  /** The first object of the CPU's list is given out. */
  ghost function Given(w: World, seed: Addr, c: nat): World
    requires c < |w.cpus| == |w.hand| && w.hand[c] != [] && w.cpus[c].slab.Some? && w.cpus[c].slab.value in w.slabs
    requires w.cpus[c].free in w.mem
  {
    var k := w.cpus[c];
    var s := k.slab.value;
    w.(cpus := w.cpus[c := k.(free := Next(w.mem, seed, k.free))], hand := w.hand[c := w.hand[c][1..]],
       spot := w.spot[k.free := Live], slabs := w.slabs[s := w.slabs[s].(inuse := w.slabs[s].inuse + 1)])
  }

  lemma CpuFirst(w: World, seed: Addr, per: nat, c: nat)
    requires Inv(w, seed, per) && c < |w.cpus| && w.cpus[c].free != NULL
    ensures |w.hand| == |w.cpus| && w.hand[c] != [] && w.hand[c][0] == w.cpus[c].free && w.cpus[c].slab.Some?
    ensures w.cpus[c].slab.value in w.slabs
    ensures w.cpus[c].free in w.mem && w.cpus[c].free in w.home && w.spot[w.cpus[c].free] == Hand
    ensures w.home[w.cpus[c].free] == w.cpus[c].slab.value && w.place[w.cpus[c].slab.value] == Active(c)
    ensures List(w.mem, seed, Next(w.mem, seed, w.cpus[c].free), w.hand[c][1..])
  {
    hide Decode;
    assert CpuOk(w, seed, c);
    assert w.hand[c][0] in w.hand[c];
    PopList(w.mem, seed, w.cpus[c].free, w.hand[c]);
  }

  /** kmem_alloc on its fast path: what it gives out was with no user. */
  lemma GiveKeeps(w: World, seed: Addr, per: nat, c: nat)
    requires Inv(w, seed, per) && c < |w.cpus| && w.cpus[c].free != NULL
    ensures |w.hand| == |w.cpus| && w.hand[c] != [] && w.cpus[c].slab.Some? && w.cpus[c].slab.value in w.slabs
    ensures w.cpus[c].free in w.mem
    ensures w.cpus[c].free in w.spot && w.spot[w.cpus[c].free] != Live
    ensures Inv(Given(w, seed, c), seed, per)
  {
    hide *;
    CpuFirst(w, seed, per, c);
    InvSized(w, seed, per);
    var a := w.cpus[c].free;
    var s := w.cpus[c].slab.value;
    var w' := Given(w, seed, c);
    Parts(w, seed, per, s, c);
    GivenIs(w, seed, c);
    GiveAround(w, w', seed, per, c, s, a);
    GiveSlab(w, w', seed, per, s, a);
    GiveCpu(w, w', seed, c, a);
    StepOn(w, w', seed, per, s, {c}, {});
  }

  lemma Parts(w: World, seed: Addr, per: nat, s: nat, c: nat)
    requires Inv(w, seed, per)
    ensures Sized(w) && (s in w.slabs ==> SlabOk(w, seed, per, s)) && (c < |w.cpus| ==> CpuOk(w, seed, c))
  {
  }

  lemma GivenIs(w: World, seed: Addr, c: nat)
    requires Sized(w) && c < |w.cpus| && w.hand[c] != [] && w.cpus[c].slab.Some? && w.cpus[c].slab.value in w.slabs
    requires w.cpus[c].free in w.mem
    requires w.cpus[c].free in w.home
    ensures var w', k, s := Given(w, seed, c), w.cpus[c], w.cpus[c].slab.value;
            && Sized(w') && w'.cpus == w.cpus[c := k.(free := Next(w.mem, seed, k.free))]
            && w'.hand == w.hand[c := w.hand[c][1..]]
            && w'.spot == w.spot[k.free := Live] && w'.slabs == w.slabs[s := w.slabs[s].(inuse := w.slabs[s].inuse + 1)]
            && w'.mem == w.mem && w'.home == w.home && w'.place == w.place && w'.own == w.own && w'.nodes == w.nodes
  {
  }

  lemma GiveAround(w: World, w': World, seed: Addr, per: nat, c: nat, s: nat, a: Addr)
    requires Inv(w, seed, per) && Sized(w') && s in w.slabs && w.place[s] == Active(c) && c < |w.cpus| && a in w.home
    requires w.home[a] == s
    requires w.cpus[c].slab == Some(s) && s in w'.slabs && w'.slabs == w.slabs[s := w'.slabs[s]] && w'.home == w.home
    requires w'.place == w.place && w'.own == w.own
    requires |w'.cpus| == |w.cpus| && w'.cpus == w.cpus[c := w'.cpus[c]] && w'.cpus[c].slab == w.cpus[c].slab
    requires w'.hand == w.hand[c := w'.hand[c]] && w'.nodes == w.nodes
    requires a in w'.spot && w'.spot == w.spot[a := w'.spot[a]]
    requires (w'.mem == w.mem || (a in w'.mem && w'.mem == w.mem[a := w'.mem[a]]))
    ensures Around(w, w', s, {c})
  {
    OnlyCpu(w, seed, per, c, s);
    hide SlabOk, CpuOk, NodeOk, Inv;
  }

  lemma GiveSlab(w: World, w': World, seed: Addr, per: nat, s: nat, a: Addr)
    requires Sized(w) && Sized(w') && s in w.slabs && SlabOk(w, seed, per, s) && a in w.home && w.home[a] == s
    requires w.spot[a] == Hand
    requires w'.slabs == w.slabs[s := w.slabs[s].(inuse := w.slabs[s].inuse + 1)] && w'.mem == w.mem
    requires w'.home == w.home
    requires w'.spot == w.spot[a := Live] && w'.place == w.place && w'.own == w.own && |w'.nodes| == |w.nodes|
    requires |w'.cpus| == |w.cpus|
    requires forall d: nat | d < |w.cpus| :: w'.cpus[d].slab == w.cpus[d].slab
    ensures SlabOk(w', seed, per, s)
  {
    LiveMore(w, w', s, a);
    forall x {:trigger x in w'.own[s]}
      ensures x in w'.own[s] <==> x in w'.home && w'.home[x] == s && w'.spot[x] == Own
    {
      assert x in w.own[s] <==> x in w.home && w.home[x] == s && w.spot[x] == Own;
    }
  }

  lemma GiveCpu(w: World, w': World, seed: Addr, c: nat, a: Addr)
    requires Sized(w) && c < |w.cpus| && CpuOk(w, seed, c) && Sized(w') && w.hand[c] != []
    requires a == w.hand[c][0] == w.cpus[c].free && a in w.mem
    requires List(w.mem, seed, Next(w.mem, seed, a), w.hand[c][1..])
    requires w'.cpus == w.cpus[c := w.cpus[c].(free := Next(w.mem, seed, a))] && w'.hand == w.hand[c := w.hand[c][1..]]
    requires w'.spot == w.spot[a := Live] && w'.home == w.home && w'.mem == w.mem && w'.place == w.place
    requires w'.slabs.Keys == w.slabs.Keys
    ensures CpuOk(w', seed, c)
  {
    hide Decode, Encode;
    forall x {:trigger x in w'.hand[c]}
      ensures x in w'.hand[c] <==> x in w'.home && w'.spot[x] == Hand && w'.cpus[c].slab == Some(w'.home[x])
    {
      assert x in w.hand[c] <==> x in w.home && w.spot[x] == Hand && w.cpus[c].slab == Some(w.home[x]);
      assert x in w.hand[c] <==> x == a || x in w.hand[c][1..];
    }
    forall s {:trigger s in w'.cpus[c].partial}
      ensures s in w'.cpus[c].partial <==> s in w'.slabs && w'.place[s] == CpuPartial(c)
    {
      assert s in w.cpus[c].partial <==> s in w.slabs && w.place[s] == CpuPartial(c);
    }
  }

  /** An object comes back to the list of the CPU that has its slab. */
  ghost function TakenBack(w: World, seed: Addr, c: nat, a: Addr): World
    requires c < |w.cpus| == |w.hand| && w.cpus[c].slab.Some? && w.cpus[c].slab.value in w.slabs
    requires w.slabs[w.cpus[c].slab.value].inuse > 0
  {
    var k := w.cpus[c];
    var s := k.slab.value;
    w.(cpus := w.cpus[c := k.(free := a)], hand := w.hand[c := [a] + w.hand[c]], spot := w.spot[a := Hand],
       mem := w.mem[a := Encode(seed, a, k.free)], slabs := w.slabs[s := w.slabs[s].(inuse := w.slabs[s].inuse - 1)])
  }

  /** A live object is counted: the traps for a count of zero are out of reach. */
  lemma LiveCounted(w: World, seed: Addr, per: nat, a: Addr)
    requires Inv(w, seed, per) && a in w.home && w.spot[a] == Live
    ensures w.home[a] in w.slabs && w.slabs[w.home[a]].inuse > 0
  {
    var s := w.home[a];
    assert SlabOk(w, seed, per, s);
    assert a in LiveOf(w, s);
  }

  /** kmem_free on its fast path */
  lemma TakeBackKeeps(w: World, seed: Addr, per: nat, c: nat, a: Addr)
    requires Inv(w, seed, per) && c < |w.cpus| && a in w.home && w.spot[a] == Live && w.cpus[c].slab == Some(w.home[a])
    ensures |w.hand| == |w.cpus| && w.home[a] in w.slabs && w.slabs[w.home[a]].inuse > 0
    ensures Inv(TakenBack(w, seed, c, a), seed, per)
  {
    hide *;
    LiveCounted(w, seed, per, a);
    InvSized(w, seed, per);
    var s := w.home[a];
    var w' := TakenBack(w, seed, c, a);
    Parts(w, seed, per, s, c);
    BackIs(w, seed, per, c, a);
    GiveAround(w, w', seed, per, c, s, a);
    BackLists(w, seed, per, c, a);
    BackSlab(w, w', seed, per, s, a);
    BackCpu(w, w', seed, c, a);
    StepOn(w, w', seed, per, s, {c}, {});
  }

  lemma BackIs(w: World, seed: Addr, per: nat, c: nat, a: Addr)
    requires Inv(w, seed, per) && c < |w.cpus| && a in w.home && w.cpus[c].slab == Some(w.home[a])
    requires w.home[a] in w.slabs && w.slabs[w.home[a]].inuse > 0
    ensures |w.hand| == |w.cpus| && w.place[w.home[a]] == Active(c)
    ensures var w', k, s := TakenBack(w, seed, c, a), w.cpus[c], w.home[a];
            && Sized(w') && w'.cpus == w.cpus[c := k.(free := a)] && w'.hand == w.hand[c := [a] + w.hand[c]]
            && w'.spot == w.spot[a := Hand] && w'.slabs == w.slabs[s := w.slabs[s].(inuse := w.slabs[s].inuse - 1)]
            && w'.mem == w.mem[a := Encode(seed, a, k.free)] && w'.home == w.home && w'.place == w.place
            && w'.own == w.own && w'.nodes == w.nodes
  {
    hide Encode, Decode;
    assert CpuOk(w, seed, c);
  }

  lemma BackLists(w: World, seed: Addr, per: nat, c: nat, a: Addr)
    requires Inv(w, seed, per) && c < |w.cpus| && a in w.home && w.spot[a] == Live && w.home[a] in w.slabs
    ensures var mem, s := w.mem[a := Encode(seed, a, w.cpus[c].free)], w.home[a];
            List(mem, seed, w.slabs[s].free, w.own[s]) && List(mem, seed, a, [a] + w.hand[c])
  {
    hide Encode, Decode;
    var s := w.home[a];
    assert SlabOk(w, seed, per, s) && CpuOk(w, seed, c);
    assert a !in w.hand[c] && a !in w.own[s];
    OtherList(w.mem, seed, w.slabs[s].free, w.own[s], a, Encode(seed, a, w.cpus[c].free));
    PushList(w.mem, seed, w.cpus[c].free, w.hand[c], a);
  }

  lemma BackSlab(w: World, w': World, seed: Addr, per: nat, s: nat, a: Addr)
    requires Sized(w) && Sized(w') && s in w.slabs && SlabOk(w, seed, per, s) && a in w.home && w.home[a] == s
    requires w.spot[a] == Live
    requires w.slabs[s].inuse > 0 && w.place[s].Active?
    requires w'.slabs == w.slabs[s := w.slabs[s].(inuse := w.slabs[s].inuse - 1)] && w'.home == w.home
    requires List(w'.mem, seed, w.slabs[s].free, w.own[s])
    requires w'.spot == w.spot[a := Hand] && w'.place == w.place && w'.own == w.own && |w'.nodes| == |w.nodes|
    requires |w'.cpus| == |w.cpus|
    requires forall d: nat | d < |w.cpus| :: w'.cpus[d].slab == w.cpus[d].slab
    ensures SlabOk(w', seed, per, s)
  {
    LiveLess(w, w', s, a, Hand);
    forall x {:trigger x in w'.own[s]}
      ensures x in w'.own[s] <==> x in w'.home && w'.home[x] == s && w'.spot[x] == Own
    {
      assert x in w.own[s] <==> x in w.home && w.home[x] == s && w.spot[x] == Own;
    }
  }

  lemma BackCpu(w: World, w': World, seed: Addr, c: nat, a: Addr)
    requires Sized(w) && c < |w.cpus| && CpuOk(w, seed, c) && Sized(w') && a in w.home && w.spot[a] == Live
    requires w.cpus[c].slab == Some(w.home[a])
    requires w'.cpus == w.cpus[c := w.cpus[c].(free := a)] && w'.hand == w.hand[c := [a] + w.hand[c]]
    requires List(w'.mem, seed, a, [a] + w.hand[c])
    requires w'.spot == w.spot[a := Hand] && w'.home == w.home && w'.place == w.place && w'.slabs.Keys == w.slabs.Keys
    ensures CpuOk(w', seed, c)
  {
    forall x {:trigger x in w'.hand[c]}
      ensures x in w'.hand[c] <==> x in w'.home && w'.spot[x] == Hand && w'.cpus[c].slab == Some(w'.home[x])
    {
      assert x in w.hand[c] <==> x in w.home && w.spot[x] == Hand && w.cpus[c].slab == Some(w.home[x]);
      assert x in w'.hand[c] <==> x == a || x in w.hand[c];
    }
    forall s {:trigger s in w'.cpus[c].partial}
      ensures s in w'.cpus[c].partial <==> s in w'.slabs && w'.place[s] == CpuPartial(c)
    {
      assert s in w.cpus[c].partial <==> s in w.slabs && w.place[s] == CpuPartial(c);
    }
  }

  // ---- objects back to their slab ---------------------------------------------------------------------

  /** An object goes on the list of its slab, which has a place on a list or with a CPU. */
  ghost function Put(w: World, seed: Addr, a: Addr): World
    requires a in w.home && w.home[a] in w.slabs && w.home[a] in w.own && w.slabs[w.home[a]].inuse > 0
  {
    var s := w.home[a];
    var b := w.slabs[s];
    w.(slabs := w.slabs[s := b.(free := a, inuse := b.inuse - 1)], own := w.own[s := [a] + w.own[s]],
       spot := w.spot[a := Own],
       mem := w.mem[a := Encode(seed, a, b.free)])
  }

  /** The first object to come back to a full slab puts it on the list of its node. */
  ghost function PutFull(w: World, seed: Addr, a: Addr): World
    requires a in w.home && w.home[a] in w.slabs && w.home[a] in w.own && w.slabs[w.home[a]].inuse > 0
    requires w.slabs[w.home[a]].node < |w.nodes|
  {
    var s := w.home[a];
    var b := w.slabs[s];
    w.(slabs := w.slabs[s := b.(free := a, inuse := b.inuse - 1, listed := true)], own := w.own[s := [a] + w.own[s]],
       spot := w.spot[a := Own], mem := w.mem[a := Encode(seed, a, b.free)],
       place := w.place[s := NodePartial(b.node)], nodes := w.nodes[b.node := [s] + w.nodes[b.node]])
  }

  lemma PutLists(w: World, seed: Addr, per: nat, a: Addr)
    requires Inv(w, seed, per) && a in w.home && w.spot[a] == Live && w.home[a] in w.slabs
    ensures var mem, s := w.mem[a := Encode(seed, a, w.slabs[w.home[a]].free)], w.home[a];
            List(mem, seed, a, [a] + w.own[s])
  {
    hide Encode, Decode;
    var s := w.home[a];
    assert SlabOk(w, seed, per, s);
    assert a !in w.own[s];
    PushList(w.mem, seed, w.slabs[s].free, w.own[s], a);
  }

  lemma PutSlab(w: World, w': World, seed: Addr, per: nat, s: nat, a: Addr)
    requires Sized(w) && Sized(w') && s in w.slabs && SlabOk(w, seed, per, s) && a in w.home && w.home[a] == s
    requires w.spot[a] == Live
    requires w.slabs[s].inuse > 0 && s in w'.slabs && w'.slabs[s].free == a && w'.slabs[s].inuse == w.slabs[s].inuse - 1
    requires w'.slabs[s].node == w.slabs[s].node
    requires w'.slabs[s].frozen == w.slabs[s].frozen && w'.own[s] == [a] + w.own[s]
    requires List(w'.mem, seed, a, [a] + w.own[s])
    requires if w.place[s].Full? then w'.place[s] == NodePartial(w.slabs[s].node) && w'.slabs[s].listed
             else w'.place[s] == w.place[s] && w'.slabs[s].listed == w.slabs[s].listed
    requires w'.home == w.home && w'.spot == w.spot[a := Own] && |w'.nodes| == |w.nodes| && w'.cpus == w.cpus
    ensures SlabOk(w', seed, per, s)
  {
    LiveLess(w, w', s, a, Own);
    forall x {:trigger x in w'.own[s]}
      ensures x in w'.own[s] <==> x in w'.home && w'.home[x] == s && w'.spot[x] == Own
    {
      assert x in w.own[s] <==> x in w.home && w.home[x] == s && w.spot[x] == Own;
      assert x in w'.own[s] <==> x == a || x in w.own[s];
    }
  }

  lemma PutAround(w: World, w': World, seed: Addr, per: nat, s: nat, a: Addr)
    requires Inv(w, seed, per) && Sized(w) && Sized(w') && s in w.slabs && a in w.home && w.home[a] == s
    requires w.spot[a] == Live
    requires s in w'.slabs && w'.slabs == w.slabs[s := w'.slabs[s]] && w'.home == w.home && w'.cpus == w.cpus
    requires w'.hand == w.hand && |w'.nodes| == |w.nodes|
    requires w'.place == w.place[s := w'.place[s]] && (w.place[s].Full? || w'.place[s] == w.place[s])
    requires w'.own == w.own[s := w'.own[s]]
    requires w'.spot == w.spot[a := Own] && a in w'.mem && w'.mem == w.mem[a := w'.mem[a]]
    ensures Around(w, w', s, {})
  {
    if w.place[s].Full? {
      NoCpu(w, seed, per, s);
    }
    hide SlabOk, CpuOk, NodeOk, Inv, Sized;
    PutMemory(w, w', s, a);
    PutSpots(w, w', s, a);
  }

  lemma PutMemory(w: World, w': World, s: nat, a: Addr)
    requires Sized(w) && s in w.slabs && a in w.home && w.home[a] == s && w.spot[a] == Live && a in w'.mem
    requires w'.mem == w.mem[a := w'.mem[a]]
    ensures forall x | x in w.mem && !Loose(w, s, {}, x) :: x in w'.mem && w'.mem[x] == w.mem[x]
  {
  }

  lemma PutSpots(w: World, w': World, s: nat, a: Addr)
    requires Sized(w) && a in w.home && w.home[a] == s && w.spot[a] == Live && w'.spot == w.spot[a := Own]
    ensures forall x | x in w.home && w.home[x] != s :: w'.spot[x] == w.spot[x]
    ensures forall x | x in w.home && w.home[x] == s :: w'.spot[x] == Hand <==> w.spot[x] == Hand
  {
  }

  /** free_slow on a slab that is with a CPU or listed */
  lemma PutKeeps(w: World, seed: Addr, per: nat, a: Addr)
    requires Inv(w, seed, per) && a in w.home && w.spot[a] == Live && w.home[a] in w.slabs && w.home[a] in w.place
    requires !w.place[w.home[a]].Full?
    ensures w.home[a] in w.own && w.slabs[w.home[a]].inuse > 0 && Inv(Put(w, seed, a), seed, per)
  {
    hide *;
    LiveCounted(w, seed, per, a);
    var s := w.home[a];
    Parts(w, seed, per, s, 0);
    SizedHas(w, s);
    var w' := Put(w, seed, a);
    PutIs(w, seed, a);
    PutLists(w, seed, per, a);
    PutSlab(w, w', seed, per, s, a);
    PutAround(w, w', seed, per, s, a);
    StepOn(w, w', seed, per, s, {}, {});
  }

  lemma SizedHas(w: World, s: nat)
    requires Sized(w) && s in w.slabs
    ensures s in w.own && s in w.place && |w.hand| == |w.cpus|
  {
  }

  lemma PutIs(w: World, seed: Addr, a: Addr)
    requires Sized(w) && a in w.home && w.home[a] in w.slabs && w.home[a] in w.own && w.slabs[w.home[a]].inuse > 0
    ensures var w', s := Put(w, seed, a), w.home[a];
            && Sized(w') && w'.slabs == w.slabs[s := w.slabs[s].(free := a, inuse := w.slabs[s].inuse - 1)]
            && w'.own == w.own[s := [a] + w.own[s]] && w'.spot == w.spot[a := Own]
            && w'.mem == w.mem[a := Encode(seed, a, w.slabs[s].free)]
            && w'.home == w.home && w'.place == w.place && w'.cpus == w.cpus && w'.hand == w.hand && w'.nodes == w.nodes
            && w.place == w.place[s := w.place[s]]
  {
    hide Encode;
  }

  lemma PutFullIs(w: World, seed: Addr, a: Addr)
    requires Sized(w) && a in w.home && w.home[a] in w.slabs && w.home[a] in w.own && w.slabs[w.home[a]].inuse > 0
    requires w.slabs[w.home[a]].node < |w.nodes|
    ensures var w', s, b := PutFull(w, seed, a), w.home[a], w.slabs[w.home[a]];
            && Sized(w') && w'.slabs == w.slabs[s := b.(free := a, inuse := b.inuse - 1, listed := true)]
            && w'.own == w.own[s := [a] + w.own[s]] && w'.spot == w.spot[a := Own]
            && w'.mem == w.mem[a := Encode(seed, a, b.free)]
            && w'.home == w.home && w'.place == w.place[s := NodePartial(b.node)] && w'.cpus == w.cpus
            && w'.hand == w.hand
            && w'.nodes == w.nodes[b.node := [s] + w.nodes[b.node]]
  {
    hide Encode;
  }

  /** A slab that was on no list goes to the front of a node's. */
  lemma PushedNode(w: World, w': World, n: nat, s: nat)
    requires Sized(w) && Sized(w') && n < |w.nodes| && NodeOk(w, n) && s in w.slabs && w.place[s] != NodePartial(n)
    requires w'.slabs.Keys == w.slabs.Keys && w'.place == w.place[s := NodePartial(n)] && |w'.nodes| == |w.nodes|
    requires w'.nodes[n] == [s] + w.nodes[n]
    ensures NodeOk(w', n)
  {
    assert s !in w.nodes[n];
    forall t {:trigger t in w'.nodes[n]} ensures t in w'.nodes[n] <==> t in w'.slabs && w'.place[t] == NodePartial(n) {
      assert t in w.nodes[n] <==> t in w.slabs && w.place[t] == NodePartial(n);
      assert t in w'.nodes[n] <==> t == s || t in w.nodes[n];
    }
  }

  /** free_slow on a full slab */
  lemma PutFullKeeps(w: World, seed: Addr, per: nat, a: Addr)
    requires Inv(w, seed, per) && a in w.home && w.spot[a] == Live && w.home[a] in w.slabs && w.home[a] in w.place
    requires w.place[w.home[a]].Full?
    ensures w.home[a] in w.own && w.slabs[w.home[a]].inuse > 0 && w.slabs[w.home[a]].node < |w.nodes|
    ensures Inv(PutFull(w, seed, a), seed, per)
  {
    hide *;
    LiveCounted(w, seed, per, a);
    var s := w.home[a];
    Parts(w, seed, per, s, 0);
    SizedHas(w, s);
    NodeOf(w, seed, per, s);
    var w' := PutFull(w, seed, a);
    PutFullIs(w, seed, a);
    PutLists(w, seed, per, a);
    PutSlab(w, w', seed, per, s, a);
    PutAround(w, w', seed, per, s, a);
    PushedNode(w, w', w.slabs[s].node, s);
    StepOn(w, w', seed, per, s, {}, {w.slabs[s].node});
  }

  lemma NodeOf(w: World, seed: Addr, per: nat, s: nat)
    requires Inv(w, seed, per) && s in w.slabs
    ensures w.slabs[s].node < |w.nodes| && NodeOk(w, w.slabs[s].node)
  {
    assert SlabOk(w, seed, per, s);
  }

  // ---- slabs from place to place ------------------------------------------------------------------------

  /** A slab changes its place; its objects, their spots and the lists stay. */
  ghost predicate Relocated(w: World, w': World, s: nat)
    requires Sized(w) && Sized(w')
  {
    && s in w.slabs && s in w'.slabs && w'.slabs == w.slabs[s := w'.slabs[s]] && w'.place == w.place[s := w'.place[s]]
    && w'.slabs[s].free == w.slabs[s].free && w'.slabs[s].inuse == w.slabs[s].inuse
    && w'.slabs[s].node == w.slabs[s].node
    && w'.home == w.home && w'.spot == w.spot && w'.mem == w.mem && w'.own == w.own && w'.hand == w.hand
    && |w'.cpus| == |w.cpus| && |w'.nodes| == |w.nodes|
    && (forall c: nat | c < |w.cpus| :: w'.cpus[c].slab == w.cpus[c].slab && w'.cpus[c].free == w.cpus[c].free)
    && !w.place[s].Active? && !w'.place[s].Active?
  }

  lemma RelocatedSlab(w: World, w': World, seed: Addr, per: nat, s: nat)
    requires Inv(w, seed, per) && Sized(w') && Relocated(w, w', s)
    requires var b, p := w'.slabs[s], w'.place[s];
             && b.frozen == (p.CpuPartial? || p.Detached?) && b.listed == p.NodePartial? && (p.Full? ==> b.inuse == per)
             && (p.NodePartial? ==> b.inuse < per && p.node == b.node)
             && (p.CpuPartial? ==> b.inuse < per && p.cpu < |w.cpus|)
             && (p.Detached? ==> b.inuse < per)
    ensures SlabOk(w', seed, per, s)
  {
    NoCpu(w, seed, per, s);
    assert SlabOk(w, seed, per, s);
    assert Objects(w', s) == Objects(w, s) && LiveOf(w', s) == LiveOf(w, s);
    forall x {:trigger x in w'.own[s]}
      ensures x in w'.own[s] <==> x in w'.home && w'.home[x] == s && w'.spot[x] == Own
    {
      assert x in w.own[s] <==> x in w.home && w.home[x] == s && w.spot[x] == Own;
    }
  }

  lemma RelocatedAround(w: World, w': World, seed: Addr, per: nat, s: nat, cpus: set<nat>)
    requires Inv(w, seed, per) && Sized(w') && Relocated(w, w', s)
    requires forall c: nat | c < |w.cpus| && c !in cpus :: w'.cpus[c] == w.cpus[c]
    ensures Around(w, w', s, cpus)
  {
    NoCpu(w, seed, per, s);
    hide SlabOk, CpuOk, NodeOk, Inv;
  }

  /** Taking the first slab off a CPU's partial list, or putting one there. */
  lemma PoppedCpu(w: World, w': World, seed: Addr, c: nat, s: nat)
    requires Sized(w) && Sized(w') && c < |w.cpus| && CpuOk(w, seed, c) && Relocated(w, w', s)
    requires w.place[s] == CpuPartial(c) && w'.place[s] != CpuPartial(c)
    requires w.cpus[c].partial != [] && w.cpus[c].partial[0] == s
    requires w'.cpus[c] == w.cpus[c].(partial := w.cpus[c].partial[1..])
    ensures CpuOk(w', seed, c)
  {
    SameHand(w, w', c);
    var l := w.cpus[c].partial;
    forall t {:trigger t in w'.cpus[c].partial}
      ensures t in w'.cpus[c].partial <==> t in w'.slabs && w'.place[t] == CpuPartial(c)
    {
      assert t in l <==> t in w.slabs && w.place[t] == CpuPartial(c);
      RestOf(l, t);
    }
  }

  lemma RestOf(l: seq<nat>, t: nat)
    requires NoDup(l) && l != []
    ensures NoDup(l[1..]) && (t in l[1..] <==> t in l && t != l[0])
  {
    assert l == [l[0]] + l[1..];
  }

  lemma SameHand(w: World, w': World, c: nat)
    requires Sized(w) && Sized(w') && c < |w.cpus| == |w'.cpus| && w'.home == w.home && w'.spot == w.spot
    requires w'.hand == w.hand && w'.cpus[c].slab == w.cpus[c].slab
    requires forall a {:trigger a in w.hand[c]} ::
              a in w.hand[c] <==> a in w.home && w.spot[a] == Hand && w.cpus[c].slab == Some(w.home[a])
    ensures forall a {:trigger a in w'.hand[c]} ::
              a in w'.hand[c] <==> a in w'.home && w'.spot[a] == Hand && w'.cpus[c].slab == Some(w'.home[a])
  {
  }

  lemma PushedCpu(w: World, w': World, seed: Addr, c: nat, s: nat)
    requires Sized(w) && Sized(w') && c < |w.cpus| && CpuOk(w, seed, c) && Relocated(w, w', s)
    requires w.place[s] != CpuPartial(c) && w'.place[s] == CpuPartial(c)
    requires w'.cpus[c] == w.cpus[c].(partial := [s] + w.cpus[c].partial)
    ensures CpuOk(w', seed, c)
  {
    SameHand(w, w', c);
    var l := w.cpus[c].partial;
    assert s in l <==> w.place[s] == CpuPartial(c);
    forall t {:trigger t in w'.cpus[c].partial}
      ensures t in w'.cpus[c].partial <==> t in w'.slabs && w'.place[t] == CpuPartial(c)
    {
      assert t in l <==> t in w.slabs && w.place[t] == CpuPartial(c);
      assert t in w'.cpus[c].partial <==> t == s || t in l;
    }
  }

  function Cut(l: seq<nat>, k: nat): seq<nat>
    requires k < |l|
  {
    l[..k] + l[k + 1..]
  }

  lemma CutHas(l: seq<nat>, k: nat)
    requires NoDup(l) && k < |l|
    ensures NoDup(Cut(l, k)) && forall t :: t in Cut(l, k) <==> t in l && t != l[k]
  {
    var m := Cut(l, k);
    assert forall i | 0 <= i < |m| :: m[i] == l[if i < k then i else i + 1];
    assert l == l[..k] + [l[k]] + l[k + 1..];
    forall t | t in m ensures t != l[k] {
      var i :| 0 <= i < |m| && m[i] == t;
    }
  }

  lemma PoppedNode(w: World, w': World, n: nat, s: nat, k: nat)
    requires Sized(w) && Sized(w') && n < |w.nodes| && NodeOk(w, n) && s in w.slabs && w.place[s] == NodePartial(n)
    requires k < |w.nodes[n]| && w.nodes[n][k] == s && |w'.nodes| == |w.nodes| && w'.nodes[n] == Cut(w.nodes[n], k)
    requires w'.slabs.Keys == w.slabs.Keys && s in w'.place && w'.place == w.place[s := w'.place[s]]
    requires w'.place[s] != NodePartial(n)
    ensures NodeOk(w', n)
  {
    var l := w.nodes[n];
    CutHas(l, k);
    forall t {:trigger t in w'.nodes[n]} ensures t in w'.nodes[n] <==> t in w'.slabs && w'.place[t] == NodePartial(n) {
      assert t in l <==> t in w.slabs && w.place[t] == NodePartial(n);
    }
  }

  /** The first slab of a CPU's partial list, taken in hand. */
  ghost function Unparked(w: World, c: nat): World
    requires c < |w.cpus| && w.cpus[c].partial != []
  {
    var k := w.cpus[c];
    w.(cpus := w.cpus[c := k.(partial := k.partial[1..])], place := w.place[k.partial[0] := Detached])
  }

  lemma UnparkKeeps(w: World, seed: Addr, per: nat, c: nat)
    requires Inv(w, seed, per) && c < |w.cpus| && w.cpus[c].partial != []
    ensures Inv(Unparked(w, c), seed, per) && w.cpus[c].partial[0] in w.slabs
    ensures w.place[w.cpus[c].partial[0]] == CpuPartial(c)
  {
    var s := w.cpus[c].partial[0];
    assert CpuOk(w, seed, c);
    assert s in w.cpus[c].partial;
    assert SlabOk(w, seed, per, s);
    var w' := Unparked(w, c);
    assert w'.slabs == w.slabs[s := w'.slabs[s]];
    hide SlabOk, CpuOk, NodeOk, Inv;
    RelocatedSlab(w, w', seed, per, s);
    RelocatedAround(w, w', seed, per, s, {c});
    PoppedCpu(w, w', seed, c, s);
    StepOn(w, w', seed, per, s, {c}, {});
  }

  /** A slab in hand put on a CPU's partial list. */
  ghost function Parked(w: World, c: nat, s: nat): World
    requires c < |w.cpus|
  {
    w.(cpus := w.cpus[c := w.cpus[c].(partial := [s] + w.cpus[c].partial)], place := w.place[s := CpuPartial(c)])
  }

  lemma ParkKeeps(w: World, seed: Addr, per: nat, c: nat, s: nat)
    requires Inv(w, seed, per) && c < |w.cpus| && s in w.slabs && s in w.place && w.place[s] == Detached
    ensures Inv(Parked(w, c, s), seed, per)
  {
    assert CpuOk(w, seed, c);
    assert SlabOk(w, seed, per, s);
    var w' := Parked(w, c, s);
    assert w'.slabs == w.slabs[s := w'.slabs[s]];
    hide SlabOk, CpuOk, NodeOk, Inv;
    RelocatedSlab(w, w', seed, per, s);
    RelocatedAround(w, w', seed, per, s, {c});
    PushedCpu(w, w', seed, c, s);
    StepOn(w, w', seed, per, s, {c}, {});
  }

  /** node_remove_partial: a slab of a node's list, taken in hand. */
  ghost function Unlisted(w: World, n: nat, k: nat): World
    requires n < |w.nodes| && k < |w.nodes[n]| && w.nodes[n][k] in w.slabs
  {
    var s := w.nodes[n][k];
    w.(nodes := w.nodes[n := Cut(w.nodes[n], k)], place := w.place[s := Detached],
       slabs := w.slabs[s := w.slabs[s].(frozen := true, listed := false)])
  }

  /** Its trap, for a slab that is not listed, is out of reach. */
  lemma UnlistKeeps(w: World, seed: Addr, per: nat, n: nat, k: nat)
    requires Inv(w, seed, per) && n < |w.nodes| && k < |w.nodes[n]|
    ensures w.nodes[n][k] in w.slabs && w.nodes[n][k] in w.place && w.place[w.nodes[n][k]] == NodePartial(n)
    ensures w.slabs[w.nodes[n][k]].listed
    ensures Inv(Unlisted(w, n, k), seed, per)
  {
    var s := w.nodes[n][k];
    assert NodeOk(w, n);
    assert s in w.nodes[n];
    assert SlabOk(w, seed, per, s);
    var w' := Unlisted(w, n, k);
    hide SlabOk, CpuOk, NodeOk, Inv;
    RelocatedSlab(w, w', seed, per, s);
    RelocatedAround(w, w', seed, per, s, {});
    PoppedNode(w, w', n, s, k);
    StepOn(w, w', seed, per, s, {}, {n});
  }

  /** A slab in hand put on the list of its node, no longer frozen. */
  ghost function Listed(w: World, s: nat): World
    requires s in w.slabs && w.slabs[s].node < |w.nodes|
  {
    var b := w.slabs[s];
    w.(nodes := w.nodes[b.node := [s] + w.nodes[b.node]], place := w.place[s := NodePartial(b.node)],
       slabs := w.slabs[s := b.(frozen := false, listed := true)])
  }

  lemma ListKeeps(w: World, seed: Addr, per: nat, s: nat)
    requires Inv(w, seed, per) && s in w.slabs && s in w.place && w.place[s] == Detached
    ensures w.slabs[s].node < |w.nodes| && Inv(Listed(w, s), seed, per)
  {
    assert SlabOk(w, seed, per, s);
    var n := w.slabs[s].node;
    assert NodeOk(w, n);
    var w' := Listed(w, s);
    hide SlabOk, CpuOk, NodeOk, Inv;
    RelocatedSlab(w, w', seed, per, s);
    RelocatedAround(w, w', seed, per, s, {});
    PushedNode(w, w', n, s);
    StepOn(w, w', seed, per, s, {}, {n});
  }

  /** Objects of a list moved to another spot. */
  ghost function Respot(spot: map<Addr, Spot>, l: seq<Addr>, p: Spot): map<Addr, Spot> {
    map a | a in spot :: if a in l then p else spot[a]
  }

  /** activate_slab: the CPU takes over the slab's list. */
  ghost function Activated(w: World, c: nat, s: nat): World
    requires c < |w.cpus| == |w.hand| && s in w.slabs && s in w.own
  {
    var b := w.slabs[s];
    w.(slabs := w.slabs[s := b.(frozen := true, free := NULL)],
       cpus := w.cpus[c := w.cpus[c].(slab := Some(s), free := b.free)],
       own := w.own[s := []], hand := w.hand[c := w.own[s]], spot := Respot(w.spot, w.own[s], Hand),
           place := w.place[s := Active(c)])
  }

  lemma ActivateSlab(w: World, w': World, seed: Addr, per: nat, c: nat, s: nat)
    requires Inv(w, seed, per) && c < |w.cpus| && s in w.slabs && w.place[s] == Detached && |w.hand| == |w.cpus|
    requires s in w.own
    requires w' == Activated(w, c, s) && Sized(w')
    ensures SlabOk(w', seed, per, s)
  {
    assert SlabOk(w, seed, per, s);
    NoCpu(w, seed, per, s);
    assert Objects(w', s) == Objects(w, s);
    assert LiveOf(w', s) == LiveOf(w, s);
    forall x {:trigger x in w'.own[s]}
      ensures x in w'.own[s] <==> x in w'.home && w'.home[x] == s && w'.spot[x] == Own
    {
      assert x in w.own[s] <==> x in w.home && w.home[x] == s && w.spot[x] == Own;
    }
  }

  lemma ActivateCpu(w: World, w': World, seed: Addr, per: nat, c: nat, s: nat)
    requires Inv(w, seed, per) && c < |w.cpus| && s in w.slabs && w.place[s] == Detached && |w.hand| == |w.cpus|
    requires s in w.own
    requires w' == Activated(w, c, s) && Sized(w') && w.cpus[c].slab == None
    ensures CpuOk(w', seed, c)
  {
    assert SlabOk(w, seed, per, s) && CpuOk(w, seed, c);
    NoCpu(w, seed, per, s);
    forall x {:trigger x in w'.hand[c]}
      ensures x in w'.hand[c] <==> x in w'.home && w'.spot[x] == Hand && w'.cpus[c].slab == Some(w'.home[x])
    {
      assert x in w.own[s] <==> x in w.home && w.home[x] == s && w.spot[x] == Own;
    }
    forall t {:trigger t in w'.cpus[c].partial}
      ensures t in w'.cpus[c].partial <==> t in w'.slabs && w'.place[t] == CpuPartial(c)
    {
      assert t in w.cpus[c].partial <==> t in w.slabs && w.place[t] == CpuPartial(c);
    }
  }

  lemma ActivateAround(w: World, w': World, seed: Addr, per: nat, c: nat, s: nat)
    requires Inv(w, seed, per) && c < |w.cpus| && s in w.slabs && w.place[s] == Detached && |w.hand| == |w.cpus|
    requires s in w.own
    requires w' == Activated(w, c, s) && Sized(w') && w.cpus[c].slab == None
    ensures Around(w, w', s, {c})
  {
    NoCpu(w, seed, per, s);
    ActivateSpots(w, seed, per, s);
    hide SlabOk, CpuOk, NodeOk, Inv, Respot, Loose;
  }

  lemma ActivateSpots(w: World, seed: Addr, per: nat, s: nat)
    requires Inv(w, seed, per) && s in w.slabs && s in w.own
    ensures forall a | a in w.home && w.home[a] != s ::
              a in Respot(w.spot, w.own[s], Hand) && Respot(w.spot, w.own[s], Hand)[a] == w.spot[a]
  {
    assert SlabOk(w, seed, per, s);
    forall a | a in w.home && w.home[a] != s
      ensures a in Respot(w.spot, w.own[s], Hand) && Respot(w.spot, w.own[s], Hand)[a] == w.spot[a]
    {
      assert a !in w.own[s];
    }
  }

  /** A CPU without a slab may take one over. */
  lemma ActivateKeeps(w: World, seed: Addr, per: nat, c: nat, s: nat)
    requires Inv(w, seed, per) && c < |w.cpus| && s in w.slabs && s in w.place && w.place[s] == Detached
    requires w.cpus[c].slab == None
    ensures |w.hand| == |w.cpus| && s in w.own && Inv(Activated(w, c, s), seed, per)
    ensures Activated(w, c, s).cpus[c].free != NULL
  {
    hide *;
    InvSized(w, seed, per);
    SizedHas(w, s);
    var w' := Activated(w, c, s);
    ActivateIs(w, seed, per, c, s);
    ParkedSome(w, seed, per, s);
    ActivateSlab(w, w', seed, per, c, s);
    ActivateCpu(w, w', seed, per, c, s);
    ActivateAround(w, w', seed, per, c, s);
    StepOn(w, w', seed, per, s, {c}, {});
  }

  lemma ParkedSome(w: World, seed: Addr, per: nat, s: nat)
    requires Inv(w, seed, per) && s in w.slabs && s in w.place && w.place[s] == Detached
    ensures w.slabs[s].free != NULL
  {
    assert SlabOk(w, seed, per, s);
    ParkedHasFree(w, seed, per, s);
  }

  lemma ActivateIs(w: World, seed: Addr, per: nat, c: nat, s: nat)
    requires Sized(w) && c < |w.cpus| == |w.hand| && s in w.slabs && s in w.own
    ensures var w' := Activated(w, c, s);
            && Sized(w') && w'.nodes == w.nodes && w'.place == w.place[s := Active(c)]
            && w'.cpus[c].free == w.slabs[s].free && |w'.cpus| == |w.cpus|
  {
  }

  /**
    alloc_slow lets other work in between retiring the CPU's slab and activating another.  Taking a slab
    over loses nothing exactly if the CPU still has no slab by then.
   */
  lemma ActivateConserves(w: World, seed: Addr, per: nat, c: nat, s: nat)
    requires Inv(w, seed, per) && c < |w.cpus| && s in w.slabs && s in w.place && w.place[s] == Detached
    ensures |w.hand| == |w.cpus| && s in w.own && Sized(Activated(w, c, s))
    ensures Conserved(Activated(w, c, s)) <==> w.cpus[c].slab == None
  {
    InvSized(w, seed, per);
    SizedHas(w, s);
    ActivateIs(w, seed, per, c, s);
    if w.cpus[c].slab == None {
      ActivateKeeps(w, seed, per, c, s);
      InvConserves(Activated(w, c, s), seed, per);
    } else {
      Overrun(w, seed, per, c, s, w.cpus[c].slab.value);
    }
  }

  /** The slab that the CPU had is on no list and stays frozen: nobody will find it again. */
  lemma Overrun(w: World, seed: Addr, per: nat, c: nat, s: nat, t: nat)
    requires Inv(w, seed, per) && c < |w.cpus| == |w.hand| && s in w.slabs && s in w.place && w.place[s] == Detached
    requires s in w.own
    requires w.cpus[c].slab == Some(t) && Sized(Activated(w, c, s))
    ensures t in w.slabs && t != s && !Found(Activated(w, c, s), t)
  {
    var w' := Activated(w, c, s);
    assert CpuOk(w, seed, c);
    assert SlabOk(w, seed, per, t) && w.place[t] == Active(c);
    forall d: nat | d < |w.cpus| ensures w'.cpus[d].slab != Some(t) && t !in w'.cpus[d].partial {
      assert CpuOk(w, seed, d);
      assert t in w.cpus[d].partial <==> t in w.slabs && w.place[t] == CpuPartial(d);
    }
    forall n: nat | n < |w.nodes| ensures t !in w'.nodes[n] {
      assert NodeOk(w, n);
    }
    assert w'.slabs[t].frozen && w'.place[t] == Active(c);
  }

  // ---- retiring a slab ------------------------------------------------------------------------------------

  /** deactivate_cpu_slab: the CPU's list goes in front of the slab's; the slab is listed unless it is full. */
  ghost function Retired(w: World, seed: Addr, per: nat, c: nat, mem: Memory, head: Addr): World
    requires c < |w.cpus| == |w.hand| && w.cpus[c].slab.Some? && w.cpus[c].slab.value in w.slabs
    requires w.cpus[c].slab.value in w.own
    requires w.slabs[w.cpus[c].slab.value].node < |w.nodes|
  {
    var s := w.cpus[c].slab.value;
    var b := w.slabs[s];
    var full := b.inuse >= per;
    w.(slabs := w.slabs[s := b.(free := head, frozen := false, listed := !full)],
       cpus := w.cpus[c := w.cpus[c].(slab := None, free := NULL)],
       own := w.own[s := w.hand[c] + w.own[s]], hand := w.hand[c := []], spot := Respot(w.spot, w.hand[c], Own),
           mem := mem,
       place := w.place[s := if full then Full else NodePartial(b.node)],
       nodes := if full then w.nodes else w.nodes[b.node := [s] + w.nodes[b.node]])
  }

  /** What the splicing has done to the links. */
  ghost predicate Spliced(w: World, seed: Addr, c: nat, s: nat, mem: Memory, head: Addr)
    requires Sized(w) && c < |w.cpus| && s in w.slabs
  {
    && List(mem, seed, head, w.hand[c] + w.own[s])
    && (forall a | a in w.mem && a !in w.hand[c] :: a in mem && mem[a] == w.mem[a])
  }

  lemma RetireSlab(w: World, w': World, seed: Addr, per: nat, c: nat, s: nat, mem: Memory, head: Addr)
    requires Inv(w, seed, per) && c < |w.cpus| == |w.hand| && w.cpus[c].slab == Some(s) && s in w.slabs && s in w.own
    requires w.slabs[s].node < |w.nodes|
    requires w' == Retired(w, seed, per, c, mem, head) && Sized(w') && Spliced(w, seed, c, s, mem, head)
    ensures SlabOk(w', seed, per, s)
  {
    hide Decode, Encode;
    assert SlabOk(w, seed, per, s) && CpuOk(w, seed, c);
    assert Objects(w', s) == Objects(w, s);
    forall x ensures x in LiveOf(w', s) <==> x in LiveOf(w, s) {
      assert x in w.hand[c] <==> x in w.home && w.spot[x] == Hand && w.cpus[c].slab == Some(w.home[x]);
    }
    assert LiveOf(w', s) == LiveOf(w, s);
    LiveBound(w, s);
    forall x {:trigger x in w'.own[s]}
      ensures x in w'.own[s] <==> x in w'.home && w'.home[x] == s && w'.spot[x] == Own
    {
      assert x in w.own[s] <==> x in w.home && w.home[x] == s && w.spot[x] == Own;
      assert x in w.hand[c] <==> x in w.home && w.spot[x] == Hand && w.cpus[c].slab == Some(w.home[x]);
      assert x in w'.own[s] <==> x in w.hand[c] || x in w.own[s];
    }
    forall x | x in w'.home && w'.home[x] == s ensures w'.spot[x] != Hand {
      assert x in w.hand[c] <==> x in w.home && w.spot[x] == Hand && w.cpus[c].slab == Some(w.home[x]);
    }
  }

  lemma {:induction false} SubsetCard(x: set<Addr>, y: set<Addr>)
    requires x <= y
    ensures |x| <= |y|
    decreases |x|
  {
    if x != {} {
      var a :| a in x;
      SubsetCard(x - {a}, y - {a});
    }
  }

  lemma LiveBound(w: World, s: nat)
    requires Sized(w)
    ensures |LiveOf(w, s)| <= |Objects(w, s)|
  {
    SubsetCard(LiveOf(w, s), Objects(w, s));
  }

  lemma RetireCpu(w: World, w': World, seed: Addr, per: nat, c: nat, s: nat, mem: Memory, head: Addr)
    requires Inv(w, seed, per) && c < |w.cpus| == |w.hand| && w.cpus[c].slab == Some(s) && s in w.slabs && s in w.own
    requires w.slabs[s].node < |w.nodes|
    requires w' == Retired(w, seed, per, c, mem, head) && Sized(w')
    ensures CpuOk(w', seed, c)
  {
    assert CpuOk(w, seed, c);
    forall t {:trigger t in w'.cpus[c].partial}
      ensures t in w'.cpus[c].partial <==> t in w'.slabs && w'.place[t] == CpuPartial(c)
    {
      assert t in w.cpus[c].partial <==> t in w.slabs && w.place[t] == CpuPartial(c);
    }
  }

  lemma RetireAround(w: World, w': World, seed: Addr, per: nat, c: nat, s: nat, mem: Memory, head: Addr)
    requires Inv(w, seed, per) && c < |w.cpus| == |w.hand| && w.cpus[c].slab == Some(s) && s in w.slabs && s in w.own
    requires w.slabs[s].node < |w.nodes|
    requires w' == Retired(w, seed, per, c, mem, head) && Sized(w') && Spliced(w, seed, c, s, mem, head)
    ensures Around(w, w', s, {c})
  {
    assert CpuOk(w, seed, c);
    OnlyCpu(w, seed, per, c, s);
    forall a | a in w.hand[c] ensures a in w.home && w.home[a] == s && Loose(w, s, {c}, a) {
      assert a in w.hand[c] <==> a in w.home && w.spot[a] == Hand && w.cpus[c].slab == Some(w.home[a]);
    }
    hide SlabOk, CpuOk, NodeOk, Inv, List;
  }

  lemma RetireIs(w: World, seed: Addr, per: nat, c: nat, s: nat, mem: Memory, head: Addr)
    requires Inv(w, seed, per) && c < |w.cpus| && w.cpus[c].slab == Some(s)
    ensures Sized(w) && c < |w.hand| == |w.cpus| && s in w.slabs && s in w.own && w.slabs[s].node < |w.nodes|
    ensures w.place[s] == Active(c)
    ensures NodeOk(w, w.slabs[s].node)
    ensures var w', b := Retired(w, seed, per, c, mem, head), w.slabs[s];
            && Sized(w') && w'.slabs.Keys == w.slabs.Keys && |w'.nodes| == |w.nodes|
            && w'.place == w.place[s := if b.inuse >= per then Full else NodePartial(b.node)]
            && w'.nodes == if b.inuse >= per then w.nodes else w.nodes[b.node := [s] + w.nodes[b.node]]
  {
    assert CpuOk(w, seed, c);
    assert SlabOk(w, seed, per, s);
  }

  lemma RetireKeeps(w: World, seed: Addr, per: nat, c: nat, s: nat, mem: Memory, head: Addr)
    requires Inv(w, seed, per) && c < |w.cpus| && w.cpus[c].slab == Some(s) && Sized(w) && s in w.slabs
    requires Spliced(w, seed, c, s, mem, head)
    ensures c < |w.hand| == |w.cpus| && s in w.own && w.slabs[s].node < |w.nodes|
    ensures Inv(Retired(w, seed, per, c, mem, head), seed, per)
  {
    hide *;
    RetireIs(w, seed, per, c, s, mem, head);
    var w' := Retired(w, seed, per, c, mem, head);
    RetireSlab(w, w', seed, per, c, s, mem, head);
    RetireCpu(w, w', seed, per, c, s, mem, head);
    RetireAround(w, w', seed, per, c, s, mem, head);
    var n := w.slabs[s].node;
    if w.slabs[s].inuse >= per {
      StepOn(w, w', seed, per, s, {c}, {});
    } else {
      PushedNode(w, w', n, s);
      StepOn(w, w', seed, per, s, {c}, {n});
    }
  }

  // ---- slabs come and go ------------------------------------------------------------------------------------

  ghost predicate AllDiffer(l: seq<Addr>) {
    forall i, j | 0 <= i < j < |l| :: l[i] != l[j]
  }

  function SetOf(l: seq<Addr>): set<Addr> {
    set a | a in l
  }

  lemma {:induction false} SetOfSize(l: seq<Addr>)
    requires AllDiffer(l)
    ensures |SetOf(l)| == |l|
    decreases |l|
  {
    if l != [] {
      var m := l[..|l| - 1];
      SetOfSize(m);
      assert SetOf(l) == SetOf(m) + {l[|l| - 1]};
      assert l[|l| - 1] !in SetOf(m);
    }
  }

  /** alloc_new_slab: a slab in hand whose objects l are all free. */
  ghost function Made(w: World, s: nat, n: nat, l: seq<Addr>, mem: Memory): World
    requires l != []
  {
    w.(slabs := w.slabs[s := Slab(l[0], 0, true, false, n)], place := w.place[s := Detached], own := w.own[s := l],
       mem := mem,
       home := map a | a in w.home.Keys + SetOf(l) :: if a in l then s else w.home[a],
       spot := map a | a in w.spot.Keys + SetOf(l) :: if a in l then Own else w.spot[a])
  }

  /** Memory for a new slab: no object in it is known, and its links make the list. */
  ghost predicate FreshSlab(w: World, seed: Addr, per: nat, s: nat, n: nat, l: seq<Addr>, mem: Memory) {
    && s !in w.slabs && n < |w.nodes| && 0 < per == |l| && (forall a | a in l :: a !in w.home && a != NULL)
    && AllDiffer(l)
    && List(mem, seed, l[0], l) && (forall a | a in w.mem && a !in l :: a in mem && mem[a] == w.mem[a])
  }

  lemma MadeIs(w: World, seed: Addr, per: nat, s: nat, n: nat, l: seq<Addr>, mem: Memory)
    requires Sized(w) && FreshSlab(w, seed, per, s, n, l, mem)
    ensures l != [] && Sized(Made(w, s, n, l, mem))
    ensures var w' := Made(w, s, n, l, mem);
            && w'.slabs == w.slabs[s := Slab(l[0], 0, true, false, n)] && w'.place == w.place[s := Detached]
            && w'.own == w.own[s := l]
            && w'.mem == mem && w'.nodes == w.nodes && w'.cpus == w.cpus && w'.hand == w.hand
            && w'.slabs.Keys == w.slabs.Keys + {s} && s !in w.slabs
            && (forall a :: a in w'.home <==> a in w.home || a in l)
            && (forall a | a in w'.home :: if a in l then w'.home[a] == s && w'.spot[a] == Own
                else w'.home[a] == w.home[a] && w'.spot[a] == w.spot[a])
  {
    hide List;
  }

  lemma MadeObjects(w': World, s: nat, l: seq<Addr>)
    requires Sized(w') && AllDiffer(l)
    requires forall a {:trigger w'.home[a]} {:trigger a in l} :: a in l <==> a in w'.home && w'.home[a] == s
    requires forall a | a in l && a in w'.spot :: w'.spot[a] == Own
    ensures |Objects(w', s)| == |l| && |LiveOf(w', s)| == 0
    ensures forall a {:trigger a in l} :: a in l <==> a in w'.home && w'.home[a] == s && w'.spot[a] == Own
    ensures forall a | a in w'.home && w'.home[a] == s :: w'.spot[a] == Own
  {
    SetOfSize(l);
    assert Objects(w', s) == SetOf(l);
    assert LiveOf(w', s) == {};
  }

  lemma MadeSlab(w: World, w': World, seed: Addr, per: nat, s: nat, n: nat, l: seq<Addr>, mem: Memory)
    requires Sized(w) && FreshSlab(w, seed, per, s, n, l, mem) && l != [] && w' == Made(w, s, n, l, mem) && Sized(w')
    ensures SlabOk(w', seed, per, s)
  {
    MadeIs(w, seed, per, s, n, l, mem);
    hide Made, List, LinkOk, Decode, Objects, LiveOf;
    MadeObjects(w', s, l);
  }

  lemma MadeOthers(w: World, w': World, seed: Addr, per: nat, s: nat, n: nat, l: seq<Addr>, mem: Memory, t: nat)
    requires Inv(w, seed, per) && FreshSlab(w, seed, per, s, n, l, mem) && l != [] && w' == Made(w, s, n, l, mem)
    requires Sized(w') && t in w.slabs
    ensures SameSlab(w, w', t)
  {
    assert SlabOk(w, seed, per, t);
    forall a | a in w.own[t] && a in w.mem ensures a in w'.mem && w'.mem[a] == w.mem[a] {
      assert a in w.home;
    }
  }

  lemma MadeCpus(w: World, w': World, seed: Addr, per: nat, s: nat, n: nat, l: seq<Addr>, mem: Memory, c: nat)
    requires Inv(w, seed, per) && FreshSlab(w, seed, per, s, n, l, mem) && l != [] && w' == Made(w, s, n, l, mem)
    requires Sized(w') && c < |w.cpus|
    ensures SameCpu(w, w', c)
  {
    assert CpuOk(w, seed, c);
    forall a | a in w.hand[c] && a in w.mem ensures a in w'.mem && w'.mem[a] == w.mem[a] {
      assert a in w.home;
    }
  }

  lemma MadeNodes(w: World, w': World, s: nat, m: nat)
    requires Sized(w) && Sized(w') && s !in w.slabs && w'.slabs.Keys == w.slabs.Keys + {s}
    requires w'.place == w.place[s := Detached] && w'.nodes == w.nodes && m < |w.nodes|
    ensures SameNode(w, w', m)
  {
  }

  lemma MakeKeeps(w: World, seed: Addr, per: nat, s: nat, n: nat, l: seq<Addr>, mem: Memory)
    requires Inv(w, seed, per) && FreshSlab(w, seed, per, s, n, l, mem)
    ensures l != [] && Inv(Made(w, s, n, l, mem), seed, per)
  {
    hide *;
    InvSized(w, seed, per);
    MadeIs(w, seed, per, s, n, l, mem);
    var w' := Made(w, s, n, l, mem);
    MadeSlab(w, w', seed, per, s, n, l, mem);
    forall t | t in w'.slabs && t != s ensures SameSlab(w, w', t) {
      MadeOthers(w, w', seed, per, s, n, l, mem, t);
    }
    forall c: nat | c < |w.cpus| ensures SameCpu(w, w', c) {
      MadeCpus(w, w', seed, per, s, n, l, mem, c);
    }
    forall m: nat | m < |w.nodes| ensures SameNode(w, w', m) {
      MadeNodes(w, w', s, m);
    }
    Assemble(w, w', seed, per, {s}, {}, {});
  }

  /** free_slab: a slab in hand without users goes back to the page allocator. */
  ghost function Discarded(w: World, s: nat): World {
    w.(slabs := w.slabs - {s}, place := w.place - {s}, own := w.own - {s},
       home := map a | a in w.home && w.home[a] != s :: w.home[a],
       spot := map a | a in w.spot && (a !in w.home || w.home[a] != s) :: w.spot[a])
  }

  lemma DiscardKeeps(w: World, seed: Addr, per: nat, s: nat)
    requires Inv(w, seed, per) && s in w.slabs && s in w.place && w.place[s] == Detached
    ensures Inv(Discarded(w, s), seed, per)
  {
    InvSized(w, seed, per);
    var w' := Discarded(w, s);
    NoCpu(w, seed, per, s);
    forall t | t in w'.slabs ensures SameSlab(w, w', t) {
    }
    forall c: nat | c < |w.cpus| ensures SameCpu(w, w', c) {
      assert CpuOk(w, seed, c);
      DiscardCpu(w, w', s, c);
    }
    hide SlabOk, CpuOk, NodeOk, Inv;
    forall m: nat | m < |w.nodes| ensures SameNode(w, w', m) {
    }
    hide SameSlab, SameCpu, SameNode;
    Assemble(w, w', seed, per, {}, {}, {});
  }

  lemma DiscardCpu(w: World, w': World, s: nat, c: nat)
    requires Sized(w) && s in w.slabs && w.place[s] == Detached && w' == Discarded(w, s) && Sized(w') && c < |w.cpus|
    requires w.cpus[c].slab != Some(s)
    requires w.cpus[c].slab.Some? ==> w.cpus[c].slab.value in w.slabs
    ensures SameCpu(w, w', c)
  {
  }

  /** When its last object comes back, a slab with no CPU is listed exactly if slabs hold more than one object. */
  lemma EmptyIsListed(w: World, seed: Addr, per: nat, s: nat)
    requires Inv(w, seed, per) && s in w.slabs && !w.slabs[s].frozen && w.slabs[s].inuse == 1
    ensures w.slabs[s].listed <==> per != 1
  {
    assert SlabOk(w, seed, per, s);
  }
}
