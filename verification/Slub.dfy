/** The slab allocator: fast and slow allocation and release, slab by slab, and teardown of a cache. */
module Slub {
  import opened Wrappers
  import opened FreeList
  import opened SlubState
  import opened SlubSteps

  const SLUB_MAX_PARTIAL: nat := 20

  class Cache {
    /** The key of the stored links, and the number of objects in a slab. */
    const seed: Addr
    const per: nat
    const bulkLimit: nat

    var slabs: map<nat, Slab>
    var cpus: seq<Cpu>
    var nodes: seq<seq<nat>>
    var mem: Memory
    /** The slab that an object lies in, which the program finds from the address. */
    var home: map<Addr, nat>

    ghost var spot: map<Addr, Spot>
    ghost var place: map<nat, Place>
    ghost var own: map<nat, seq<Addr>>
    ghost var hand: seq<seq<Addr>>

    ghost function W(): World
      reads this
    {
      World(slabs, cpus, nodes, mem, home, spot, place, own, hand)
    }

    ghost predicate Valid()
      reads this
    {
      Inv(W(), seed, per) && 0 < per
    }

    constructor (seed: Addr, per: nat, bulkLimit: nat, cpus: nat, nodes: nat)
      requires per > 0
      ensures Valid() && this.per == per && slabs == map[] && |this.cpus| == cpus && |this.nodes| == nodes
    {
      this.seed, this.per, this.bulkLimit := seed, per, bulkLimit;
      slabs, mem, home := map[], map[], map[];
      this.cpus := seq(cpus, i => Cpu(None, NULL, []));
      this.nodes := seq(nodes, i => []);
      spot, place, own, hand := map[], map[], map[], seq(cpus, i => []);
    }

    // ---- allocation ---------------------------------------------------------------------------------

    /** kmem_alloc without the slow path: an object that no user has, or none. */
    method AllocFast(c: nat) returns (a: Addr)
      requires Valid() && c < |cpus|
      modifies this`cpus, this`slabs, this`hand, this`spot
      ensures Valid() && |cpus| == |old(cpus)|
      ensures a == NULL <==> old(cpus)[c].free == NULL
      ensures a == NULL ==> W() == old(W())
      ensures a != NULL ==> a in old(spot) && old(spot)[a] != Live && spot == old(spot)[a := Live]
    {
      hide Inv, Encode, Decode;
      a := cpus[c].free;
      if a == NULL {
        return;
      }
      GiveKeeps(W(), seed, per, c);
      var s := cpus[c].slab.value;
      ghost var w' := Given(W(), seed, c);
      cpus := cpus[c := cpus[c].(free := Next(mem, seed, a))];
      slabs := slabs[s := slabs[s].(inuse := slabs[s].inuse + 1)];
      hand := hand[c := hand[c][1..]];
      spot := spot[a := Live];
      assert W() == w';
    }

    /** The CPU's list walked to its end and put in front of the slab's. */
    method Splice(c: nat, s: nat) returns (mem': Memory, head: Addr)
      requires Valid() && c < |cpus| && cpus[c].slab == Some(s) && Sized(W()) && s in slabs
      ensures Spliced(W(), seed, c, s, mem', head)
    {
      hide Inv, Encode, Decode, List, Sized, Spliced;
      HandFacts(W(), seed, per, c);
      IsSpliced(W(), seed, per, c, s);
      head, mem' := slabs[s].free, mem;
      if cpus[c].free != NULL {
        var tail := Tail(mem, seed, cpus[c].free, hand[c]);
        mem' := mem[tail := Encode(seed, tail, slabs[s].free)];
        head := cpus[c].free;
      }
    }

    /** deactivate_cpu_slab on a CPU that has a slab */
    method RetireSlab(c: nat, s: nat) returns (ghost mem': Memory, ghost head: Addr)
      requires Valid() && c < |cpus| && cpus[c].slab == Some(s)
      modifies this`mem, this`cpus, this`slabs, this`nodes, this`spot, this`own, this`hand, this`place
      ensures Valid() && |old(hand)| == |old(cpus)| && s in old(slabs) && s in old(own)
      ensures old(slabs)[s].node < |old(nodes)|
      ensures W() == Retired(old(W()), seed, per, c, mem', head)
    {
      hide Inv, Encode, Decode, List, Spliced, Sized, Respot, NodeOk, Retired, SlabOk, CpuOk;
      ghost var w := W();
      ActiveFacts(w, seed, per, c, s);
      var m, h := Splice(c, s);
      mem', head := m, h;
      RetireKeeps(w, seed, per, c, s, m, h);
      RetiredIs(w, seed, per, c, s, m, h);
      ghost var w' := Retired(w, seed, per, c, m, h);
      PutDown(c, s, m, h);
      spot, own, hand, place := w'.spot, w'.own, w'.hand, w'.place;
    }

    /** The stores of deactivate_cpu_slab. */
    method PutDown(c: nat, s: nat, m: Memory, h: Addr)
      requires c < |cpus| && s in slabs && slabs[s].node < |nodes|
      modifies this`mem, this`cpus, this`slabs, this`nodes
      ensures var b := old(slabs)[s];
              && mem == m && cpus == old(cpus)[c := old(cpus)[c].(slab := None, free := NULL)]
              && slabs == old(slabs)[s := b.(free := h, frozen := false, listed := b.inuse < per)]
              && nodes == if b.inuse < per then old(nodes)[b.node := [s] + old(nodes)[b.node]] else old(nodes)
    {
      var b := slabs[s];
      mem := m;
      cpus := cpus[c := cpus[c].(slab := None, free := NULL)];
      slabs := slabs[s := b.(free := h, frozen := false, listed := b.inuse < per)];
      if b.inuse < per {
        nodes := nodes[b.node := [s] + nodes[b.node]];
      }
    }

    /** deactivate_cpu_slab */
    method Retire(c: nat)
      requires Valid() && c < |cpus|
      modifies this`mem, this`cpus, this`slabs, this`nodes, this`spot, this`own, this`hand, this`place
      ensures Valid() && |cpus| == |old(cpus)|
      ensures cpus == old(cpus)[c := old(cpus)[c].(slab := None, free := cpus[c].free)] && |nodes| == |old(nodes)|
      ensures slabs.Keys == old(slabs).Keys
      ensures SameUsers(old(spot), spot) && SameHeld(old(place), place)
    {
      hide Inv, Encode, Decode, List;
      if cpus[c].slab == None {
        return;
      }
      var s := cpus[c].slab.value;
      ghost var w := W();
      ghost var m, h;
      m, h := RetireSlab(c, s);
      RetiredUsers(w, seed, per, c, s, m, h);
    }

    /** activate_slab for a slab in hand, and the first object of it; the CPU has no slab of its own. */
    method Activate(c: nat, s: nat) returns (a: Addr)
      requires Valid() && c < |cpus| && s in slabs && s in place && place[s] == Detached && cpus[c].slab == None
      modifies this
      ensures Valid() && |cpus| == |old(cpus)| && |nodes| == |old(nodes)| && a != NULL
      ensures OneMoreUser(old(spot), spot, a)
    {
      hide Inv, Encode, Decode;
      ActivateKeeps(W(), seed, per, c, s);
      ghost var w' := Activated(W(), c, s);
      var b := slabs[s];
      slabs := slabs[s := b.(frozen := true, free := NULL)];
      cpus := cpus[c := cpus[c].(slab := Some(s), free := b.free)];
      spot := Respot(spot, own[s], Hand);
      hand := hand[c := own[s]];
      own := own[s := []];
      place := place[s := Active(c)];
      assert W() == w';
      OwnNotLive(old(W()), seed, per, s);
      a := AllocFast(c);
    }

    /** The slab at the front of the CPU's partial list taken over. */
    method FromCpuPartial(c: nat) returns (a: Addr)
      requires Valid() && c < |cpus| && cpus[c].slab == None && cpus[c].partial != []
      modifies this
      ensures Valid() && |cpus| == |old(cpus)| && |nodes| == |old(nodes)| && a != NULL
      ensures OneMoreUser(old(spot), spot, a)
    {
      hide Inv, Encode, Decode;
      UnparkKeeps(W(), seed, per, c);
      var s := cpus[c].partial[0];
      InvSized(W(), seed, per);
      cpus := cpus[c := cpus[c].(partial := cpus[c].partial[1..])];
      place := place[s := Detached];
      a := Activate(c, s);
    }

    /** The slab at the front of a node's list taken in hand; its trap is out of reach. */
    method Unlist(n: nat, k: nat) returns (s: nat)
      requires Valid() && n < |nodes| && k < |nodes[n]|
      modifies this`slabs, this`nodes, this`place
      ensures Valid() && s == old(nodes)[n][k] && s in old(slabs) && W() == Unlisted(old(W()), n, k)
      ensures s in slabs && s in place && place[s] == Detached && s in old(place) && old(place)[s] == NodePartial(n)
      ensures |nodes| == |old(nodes)| && |nodes[n]| == |old(nodes)[n]| - 1
    {
      hide Inv;
      UnlistKeeps(W(), seed, per, n, k);
      s := nodes[n][k];
      assert slabs[s].listed;
      slabs := slabs[s := slabs[s].(frozen := true, listed := false)];
      nodes := nodes[n := Cut(nodes[n], k)];
      place := place[s := Detached];
    }

    /** The path of alloc_slow through a node's list: one slab is taken over, some more go to the CPU's list. */
    method FromNode(c: nat, n: nat) returns (a: Addr)
      requires Valid() && c < |cpus| && cpus[c].slab == None && n < |nodes| && nodes[n] != []
      modifies this
      ensures Valid() && |cpus| == |old(cpus)| && |nodes| == |old(nodes)| && a != NULL
      ensures OneMoreUser(old(spot), spot, a)
    {
      hide Inv, Encode, Decode;
      var s := Unlist(n, 0);
      var bulk := 0;
      while nodes[n] != [] && bulk < bulkLimit
        invariant Valid() && |cpus| == |old(cpus)| && |nodes| == |old(nodes)| && cpus[c].slab == None
        invariant spot == old(spot)
        invariant s in slabs && s in place && place[s] == Detached
        decreases |nodes[n]|
      {
        var extra := Unlist(n, 0);
        ParkKeeps(W(), seed, per, c, extra);
        InvSized(W(), seed, per);
        bulk := bulk + (if slabs[extra].inuse < per then per - slabs[extra].inuse else 0);
        cpus := cpus[c := cpus[c].(partial := [extra] + cpus[c].partial)];
        place := place[extra := CpuPartial(c)];
      }
      a := Activate(c, s);
    }

    /** The links of a new slab written one after the other. */
    method WriteLinks(objs: seq<Addr>) returns (mem': Memory)
      requires objs != [] && AllDiffer(objs) && forall a | a in objs :: a != NULL
      ensures List(mem', seed, objs[0], objs)
      ensures forall a | a in mem && a !in objs :: a in mem' && mem'[a] == mem[a]
    {
      hide Encode, Decode;
      mem' := mem;
      var i := 0;
      while i < |objs|
        invariant i <= |objs|
        invariant forall k | 0 <= k < i :: LinkOk(mem', seed, objs, k)
        invariant forall a | a in mem && a !in objs :: a in mem' && mem'[a] == mem[a]
      {
        var next := if i + 1 < |objs| then objs[i + 1] else NULL;
        DecodeEncode(seed, objs[i], next);
        ghost var before := mem';
        mem' := mem'[objs[i] := Encode(seed, objs[i], next)];
        forall k | 0 <= k < i ensures LinkOk(mem', seed, objs, k) {
          assert LinkOk(before, seed, objs, k);
        }
        assert objs[i] in objs && LinkOk(mem', seed, objs, i);
        i := i + 1;
      }
    }

    /** alloc_new_slab, for memory that the page allocator has given; the slab is in the caller's hands. */
    method NewSlab(s: nat, n: nat, objs: seq<Addr>)
      requires Valid() && s !in slabs && n < |nodes| && |objs| == per && AllDiffer(objs)
      requires forall a | a in objs :: a !in home && a != NULL
      modifies this
      ensures Valid() && s in slabs && s in place && place[s] == Detached && cpus == old(cpus) && nodes == old(nodes)
      ensures spot == map a | a in old(spot).Keys + SetOf(objs) :: if a in objs then Own else old(spot)[a]
    {
      hide Inv, Encode, Decode, List;
      var mem' := WriteLinks(objs);
      MakeKeeps(W(), seed, per, s, n, objs, mem');
      ghost var w' := Made(W(), s, n, objs, mem');
      mem := mem';
      slabs := slabs[s := Slab(objs[0], 0, true, false, n)];
      home := map a | a in home.Keys + SetOf(objs) :: if a in objs then s else home[a];
      spot, place, own := w'.spot, w'.place, w'.own;
      assert W() == w';
    }

    /**
      kmem_alloc without interruption on one CPU.  visit lists the nodes in the order in which they are
      tried; memory tells whether the page allocator has a slab, which would be s on node n with objects objs.
     */
    method Alloc(c: nat, visit: seq<nat>, memory: bool, s: nat, n: nat, objs: seq<Addr>) returns (a: Addr)
      requires Valid() && c < |cpus| && forall k | 0 <= k < |visit| :: visit[k] < |nodes|
      requires s !in slabs && n < |nodes| && |objs| == per && AllDiffer(objs)
      requires forall x | x in objs :: x !in home && x != NULL
      modifies this
      ensures Valid()
      ensures a == NULL ==> !memory && SameUsers(old(spot), spot)
      ensures a == NULL ==>
                && |cpus| == |old(cpus)| && |nodes| == |old(nodes)| && old(cpus)[c].free == NULL
                && cpus[c].partial == []
                && forall k | 0 <= k < |visit| :: nodes[visit[k]] == []
      ensures a != NULL ==>
                && (a !in old(spot) || old(spot)[a] != Live) && a in spot && spot[a] == Live
                && forall x | x in old(spot) :: x in spot && (spot[x] == Live <==> old(spot)[x] == Live || x == a)
    {
      hide Inv, Encode, Decode, List;
      a := AllocFast(c);
      if a != NULL {
        return;
      }
      Retire(c);
      if cpus[c].partial != [] {
        a := FromCpuPartial(c);
        return;
      }
      var m := NextNode(visit);
      if m < |nodes| {
        a := FromNode(c, m);
        return;
      }
      if !memory {
        return NULL;
      }
      HomeIsSpot(W(), seed, per);
      NewSlab(s, n, objs);
      a := Activate(c, s);
    }

    /** The first node, in the order of visits, that has a slab to offer. */
    method NextNode(visit: seq<nat>) returns (m: nat)
      requires forall k | 0 <= k < |visit| :: visit[k] < |nodes|
      ensures m < |nodes| ==> m in visit && nodes[m] != []
      ensures m >= |nodes| ==> forall k | 0 <= k < |visit| :: nodes[visit[k]] == []
    {
      var i := 0;
      while i < |visit|
        invariant i <= |visit| && forall k | 0 <= k < i :: nodes[visit[k]] == []
      {
        if nodes[visit[i]] != [] {
          return visit[i];
        }
        i := i + 1;
      }
      return |nodes|;
    }

    // ---- release ---------------------------------------------------------------------------------------

    /** kmem_free: to the CPU's list if the CPU has the slab, otherwise by the slow path, where it may trap. */
    method Free(c: nat, a: Addr) returns (trapped: bool)
      requires Valid() && c < |cpus| && a in home && a in spot && spot[a] == Live
      modifies this
      ensures old(home)[a] in old(slabs) && old(slabs)[old(home)[a]].node < |old(nodes)|
      ensures trapped <==> old(cpus)[c].slab != Some(old(home)[a]) && Traps(old(slabs)[old(home)[a]], per, old(nodes))
      ensures !trapped ==> Valid() && |cpus| == |old(cpus)| && OneUserLess(old(spot), spot, a)
    {
      hide Inv, Encode, Decode;
      LiveCounted(W(), seed, per, a);
      var s := home[a];
      FreeFacts(W(), seed, per, s);
      if cpus[c].slab == Some(s) {
        TakeBackKeeps(W(), seed, per, c, a);
        ghost var w' := TakenBack(W(), seed, c, a);
        mem := mem[a := Encode(seed, a, cpus[c].free)];
        cpus := cpus[c := cpus[c].(free := a)];
        slabs := slabs[s := slabs[s].(inuse := slabs[s].inuse - 1)];
        hand := hand[c := [a] + hand[c]];
        spot := spot[a := Hand];
        assert W() == w';
        return false;
      }
      trapped := FreeSlow(a);
    }

    /** The object goes on its slab's list, and the slab on its node's if it was full. */
    method PutObject(a: Addr)
      requires Valid() && a in home && a in spot && spot[a] == Live && home[a] in slabs && slabs[home[a]].inuse > 0
      requires home[a] in place && home[a] in own
      modifies this`mem, this`slabs, this`own, this`spot, this`nodes, this`place
      ensures Valid() && old(slabs)[home[a]].node < |old(nodes)|
      ensures W() == if old(place)[home[a]].Full? then PutFull(old(W()), seed, a) else Put(old(W()), seed, a)
    {
      hide Inv, Encode, Decode;
      var s := home[a];
      var b := slabs[s];
      PlaceMarks(W(), seed, per, s);
      if place[s].Full? {
        PutFullKeeps(W(), seed, per, a);
      } else {
        PutKeeps(W(), seed, per, a);
      }
      ghost var w' := if place[s].Full? then PutFull(W(), seed, a) else Put(W(), seed, a);
      mem := mem[a := Encode(seed, a, b.free)];
      slabs := slabs[s := b.(free := a, inuse := b.inuse - 1)];
      own := own[s := [a] + own[s]];
      spot := spot[a := Own];
      if !b.frozen && !b.listed {
        slabs := slabs[s := slabs[s].(listed := true)];
        nodes := nodes[b.node := [s] + nodes[b.node]];
        place := place[s := NodePartial(b.node)];
      }
      assert W() == w';
    }

    /**
      free_slow.  It takes an empty slab off its node's list without asking whether the slab is on it, and
      traps if it is not.  That happens exactly to slabs of one object, whose last object is also the first
      to come back, on a node with more than the allowed number of partial slabs.
     */
    method FreeSlow(a: Addr) returns (trapped: bool)
      requires Valid() && a in home && a in spot && spot[a] == Live && home[a] in slabs && slabs[home[a]].inuse > 0
      modifies this
      ensures old(slabs)[old(home)[a]].node < |old(nodes)|
      ensures trapped <==> Traps(old(slabs)[old(home)[a]], per, old(nodes))
      ensures !trapped ==> Valid() && cpus == old(cpus) && OneUserLess(old(spot), spot, a)
      ensures !trapped ==>
                var s := old(home)[a];
                slabs.Keys == if Crowded(old(slabs)[s], old(nodes)) then old(slabs).Keys - {s} else old(slabs).Keys
    {
      hide Inv, Encode, Decode, Sized, OneUserLess;
      FreeFacts(W(), seed, per, home[a]);
      var s := home[a];
      var b := slabs[s];
      if b.inuse == 1 && !b.frozen && |nodes[b.node]| > SLUB_MAX_PARTIAL {
        if !b.listed {
          mem := mem[a := Encode(seed, a, b.free)];
          slabs := slabs[s := b.(free := a, inuse := b.inuse - 1)];
          return true;
        }
        PutBack(a);
        DropEmpty(s, b.node);
        LessUsers(old(spot), old(spot)[a := Own], spot, a);
        return false;
      }
      PutBack(a);
      LessUsers(old(spot), spot, spot, a);
      return false;
    }

    /** What a release leaves as it was. */
    method PutBack(a: Addr)
      requires Valid() && a in home && a in spot && spot[a] == Live && home[a] in slabs && slabs[home[a]].inuse > 0
      modifies this`mem, this`slabs, this`own, this`spot, this`nodes, this`place
      ensures Valid() && slabs.Keys == old(slabs).Keys && spot == old(spot)[a := Own]
      ensures home[a] in old(place) && (!old(place)[home[a]].Full? ==>
                place == old(place) && nodes == old(nodes) && slabs[home[a]].inuse == old(slabs)[home[a]].inuse - 1)
    {
      InvSized(W(), seed, per);
      PlaceMarks(W(), seed, per, home[a]);
      PutFacts(W(), seed, a);
      hide Inv, Encode, Decode, Put, PutFull;
      PutObject(a);
    }

    /** An empty slab of a node's list goes back to the page allocator. */
    method DropEmpty(s: nat, n: nat)
      requires Valid() && n < |nodes| && s in slabs && s in place && place[s] == NodePartial(n) && slabs[s].inuse == 0
      modifies this
      ensures Valid() && cpus == old(cpus) && slabs.Keys == old(slabs).Keys - {s}
      ensures spot.Keys <= old(spot).Keys
      ensures forall x | x in old(spot) :: if x in spot then spot[x] == old(spot)[x] else old(spot)[x] != Live
    {
      hide Inv, Encode, Decode;
      InvSized(W(), seed, per);
      NoOneLeft(W(), seed, per, s);
      var k := IndexIn(s, n);
      var t := Unlist(n, k);
      Discard(s);
    }

    /** The place of a slab in the list of its node; the program follows the links of the slab itself. */
    method IndexIn(s: nat, n: nat) returns (k: nat)
      requires Valid() && n < |nodes| && s in slabs && s in place && place[s] == NodePartial(n)
      ensures k < |nodes[n]| && nodes[n][k] == s
    {
      IsListed(W(), seed, per, s, n);
      k := 0;
      while nodes[n][k] != s
        invariant k < |nodes[n]| && forall i | 0 <= i < k :: nodes[n][i] != s
        decreases |nodes[n]| - k
      {
        k := k + 1;
        assert k < |nodes[n]|;
      }
    }

    /** free_slab for a slab in hand */
    method Discard(s: nat)
      requires Valid() && s in slabs && s in place && place[s] == Detached
      modifies this
      ensures Valid() && W() == Discarded(old(W()), s)
    {
      hide Inv;
      DiscardKeeps(W(), seed, per, s);
      ghost var w' := Discarded(W(), s);
      slabs := slabs - {s};
      spot := map a | a in spot && (a !in home || home[a] != s) :: spot[a];
      home := map a | a in home && home[a] != s :: home[a];
      place := place - {s};
      own := own - {s};
      assert W() == w';
    }

    // ---- teardown ----------------------------------------------------------------------------------------

    /** All slabs of a CPU go to the lists of their nodes. */
    method DrainCpu(c: nat)
      requires Valid() && c < |cpus| && Quiet()
      modifies this`mem, this`cpus, this`slabs, this`nodes, this`spot, this`own, this`hand, this`place
      ensures Valid() && Quiet() && |nodes| == |old(nodes)|
      ensures |cpus| == |old(cpus)| && cpus == old(cpus)[c := Cpu(None, cpus[c].free, [])]
    {
      hide Inv, Encode, Decode, List;
      Retire(c);
      while cpus[c].partial != []
        invariant c < |cpus| && |nodes| == |old(nodes)| && Valid() && Quiet()
        invariant cpus == old(cpus)[c := Cpu(None, cpus[c].free, cpus[c].partial)]
        decreases |cpus[c].partial|
      {
        ParkedToNode(c);
      }
    }

    /** The slab at the front of the CPU's partial list goes to the list of its node. */
    method ParkedToNode(c: nat)
      requires Valid() && c < |cpus| && cpus[c].partial != []
      modifies this`cpus, this`slabs, this`nodes, this`place
      ensures Valid() && |nodes| == |old(nodes)| && SameHeld(old(place), place)
      ensures cpus == old(cpus)[c := old(cpus)[c].(partial := old(cpus)[c].partial[1..])]
    {
      hide Inv, Encode, Decode, List;
      UnparkKeeps(W(), seed, per, c);
      var s := cpus[c].partial[0];
      InvSized(W(), seed, per);
      ghost var w := W();
      cpus := cpus[c := cpus[c].(partial := cpus[c].partial[1..])];
      place := place[s := Detached];
      assert W() == Unparked(w, c);
      ListKeeps(W(), seed, per, s);
      ghost var w' := Listed(W(), s);
      var n := slabs[s].node;
      slabs := slabs[s := slabs[s].(frozen := false, listed := true)];
      nodes := nodes[n := [s] + nodes[n]];
      place := place[s := NodePartial(n)];
      assert W() == w';
    }

    /** All slabs of a node's list go back to the page allocator; none of them is in use. */
    method DrainNode(n: nat)
      requires Valid() && n < |nodes| && Quiet()
      modifies this
      ensures Valid() && Quiet() && cpus == old(cpus) && nodes == old(nodes)[n := []]
    {
      hide Inv;
      while nodes[n] != []
        invariant n < |nodes| == |old(nodes)| && Valid() && Quiet() && cpus == old(cpus)
        invariant nodes == old(nodes)[n := nodes[n]]
        decreases |nodes[n]|
      {
        var s := Unlist(n, 0);
        NoUsers(W(), seed, per, s);
        // nobody uses the slab
        assert slabs[s].inuse == 0;
        Discard(s);
      }
    }

    /** kmem_cache_destroy with no object in use: every slab goes back, and no trap is reached. */
    method Destroy()
      requires Valid() && Quiet()
      modifies this
      ensures Valid() && slabs == map[]
    {
      hide Inv;
      var c := 0;
      while c < |cpus|
        invariant c <= |cpus| == |old(cpus)| && |nodes| == |old(nodes)| && Valid() && Quiet()
        invariant forall d: nat | d < c :: cpus[d].slab == None && cpus[d].partial == []
      {
        DrainCpu(c);
        c := c + 1;
      }
      var n := 0;
      while n < |nodes|
        invariant n <= |nodes| == |old(nodes)| && Valid() && Quiet() && |cpus| == |old(cpus)|
        invariant forall d: nat | d < |cpus| :: cpus[d].slab == None && cpus[d].partial == []
        invariant forall m: nat | m < n :: nodes[m] == []
      {
        DrainNode(n);
        n := n + 1;
      }
      AllGone(W(), seed, per);
    }

    /** No object is in use and no slab in anybody's hands. */
    ghost predicate Quiet()
      reads this
    {
      (forall x | x in spot :: spot[x] != Live) && forall s | s in place :: place[s] != Detached
    }
  }

  /** The same objects are in use. */
  ghost predicate SameUsers(before: map<Addr, Spot>, spot: map<Addr, Spot>) {
    spot.Keys == before.Keys && forall x | x in spot :: spot[x] == Live <==> before[x] == Live
  }

  /** Object a has come into use, which it was not. */
  ghost predicate OneMoreUser(before: map<Addr, Spot>, spot: map<Addr, Spot>, a: Addr) {
    && spot.Keys == before.Keys && a in spot && before[a] != Live
    && forall x | x in spot :: spot[x] == Live <==> before[x] == Live || x == a
  }

  /** Object a, and no other, is in use no more. */
  ghost predicate OneUserLess(before: map<Addr, Spot>, spot: map<Addr, Spot>, a: Addr) {
    && (a in spot ==> spot[a] != Live)
    && (forall x | x in spot && x != a :: x in before && (spot[x] == Live <==> before[x] == Live))
    && (forall x | x in before && x !in spot :: x == a || before[x] != Live)
  }

  /** The same slabs are in the hands of somebody. */
  ghost predicate SameHeld(before: map<nat, Place>, place: map<nat, Place>) {
    place.Keys == before.Keys && forall t | t in place :: place[t] == Detached <==> before[t] == Detached
  }

  lemma ActiveFacts(w: World, seed: Addr, per: nat, c: nat, s: nat)
    requires Inv(w, seed, per) && c < |w.cpus| && w.cpus[c].slab == Some(s)
    ensures Sized(w) && |w.hand| == |w.cpus| && s in w.slabs && s in w.own && s in w.place
    ensures w.slabs[s].node < |w.nodes|
  {
    assert CpuOk(w, seed, c);
    assert SlabOk(w, seed, per, s);
  }

  lemma RetiredIs(w: World, seed: Addr, per: nat, c: nat, s: nat, m: Memory, h: Addr)
    requires c < |w.cpus| == |w.hand| && w.cpus[c].slab == Some(s) && s in w.slabs && s in w.own
    requires w.slabs[s].node < |w.nodes|
    ensures var w', b := Retired(w, seed, per, c, m, h), w.slabs[s];
            && w'.mem == m && w'.home == w.home && w'.cpus == w.cpus[c := w.cpus[c].(slab := None, free := NULL)]
            && w'.slabs == w.slabs[s := b.(free := h, frozen := false, listed := b.inuse < per)]
            && w'.nodes == if b.inuse < per then w.nodes[b.node := [s] + w.nodes[b.node]] else w.nodes
  {
  }

  lemma RetiredUsers(w: World, seed: Addr, per: nat, c: nat, s: nat, m: Memory, h: Addr)
    requires Inv(w, seed, per) && c < |w.cpus| == |w.hand| && w.cpus[c].slab == Some(s) && s in w.slabs && s in w.own
    requires w.slabs[s].node < |w.nodes|
    ensures var w' := Retired(w, seed, per, c, m, h);
            SameUsers(w.spot, w'.spot) && SameHeld(w.place, w'.place) && w'.slabs.Keys == w.slabs.Keys
                && |w'.nodes| == |w.nodes|
  {
    assert CpuOk(w, seed, c);
    forall x | x in w.hand[c] ensures x in w.home && w.spot[x] == Hand {
      assert x in w.hand[c] <==> x in w.home && w.spot[x] == Hand && w.cpus[c].slab == Some(w.home[x]);
    }
  }

  /** The object coming back is the last one out of a slab that is on no CPU, and its node has partial slabs enough. */
  predicate Crowded(b: Slab, nodes: seq<seq<nat>>)
    requires b.node < |nodes|
  {
    b.inuse == 1 && !b.frozen && |nodes[b.node]| > SLUB_MAX_PARTIAL
  }

  predicate Traps(b: Slab, per: nat, nodes: seq<seq<nat>>)
    requires b.node < |nodes|
  {
    per == 1 && Crowded(b, nodes)
  }

  lemma FreeFacts(w: World, seed: Addr, per: nat, s: nat)
    requires Inv(w, seed, per) && s in w.slabs
    ensures s in w.place && w.slabs[s].node < |w.nodes|
    ensures w.slabs[s].inuse == 1 && !w.slabs[s].frozen ==> (w.slabs[s].listed <==> per != 1)
    ensures !w.slabs[s].frozen && w.slabs[s].listed ==> w.place[s] == NodePartial(w.slabs[s].node)
  {
    InvSized(w, seed, per);
    PlaceMarks(w, seed, per, s);
    if w.slabs[s].inuse == 1 && !w.slabs[s].frozen {
      EmptyIsListed(w, seed, per, s);
    }
  }

  lemma LessUsers(before: map<Addr, Spot>, put: map<Addr, Spot>, spot: map<Addr, Spot>, a: Addr)
    requires a in before && put == before[a := Own] && spot.Keys <= put.Keys
    requires forall x | x in put :: if x in spot then spot[x] == put[x] else put[x] != Live
    ensures OneUserLess(before, spot, a)
  {
  }

  lemma PutFacts(w: World, seed: Addr, a: Addr)
    requires a in w.home && w.home[a] in w.slabs && w.home[a] in w.own && w.slabs[w.home[a]].inuse > 0
    requires w.slabs[w.home[a]].node < |w.nodes|
    ensures var s := w.home[a];
            var w1, w2 := Put(w, seed, a), PutFull(w, seed, a);
            && w1.slabs.Keys == w2.slabs.Keys == w.slabs.Keys && w1.spot == w2.spot == w.spot[a := Own]
            && w1.cpus == w2.cpus == w.cpus
            && w1.slabs[s].inuse == w.slabs[s].inuse - 1 && w1.place == w.place && w1.nodes == w.nodes
  {
  }

  /** Discarding a slab without users takes no object from anybody. */
  lemma NoOneLeft(w: World, seed: Addr, per: nat, s: nat)
    requires Inv(w, seed, per) && s in w.slabs && w.slabs[s].inuse == 0
    ensures forall x | x in w.home && w.home[x] == s :: x in w.spot && w.spot[x] != Live
  {
    assert SlabOk(w, seed, per, s);
    forall x | x in w.home && w.home[x] == s ensures x in w.spot && w.spot[x] != Live {
      assert x in LiveOf(w, s) <==> w.spot[x] == Live;
    }
  }

  lemma HandFacts(w: World, seed: Addr, per: nat, c: nat)
    requires Inv(w, seed, per) && c < |w.cpus|
    ensures Sized(w) && |w.hand| == |w.cpus| && List(w.mem, seed, w.cpus[c].free, w.hand[c])
    ensures (w.cpus[c].free != NULL <==> w.hand[c] != [])
  {
    hide Decode;
    assert CpuOk(w, seed, c);
    NonNull(w.mem, seed, w.cpus[c].free, w.hand[c]);
  }

  /** The splice of deactivate_cpu_slab. */
  lemma IsSpliced(w: World, seed: Addr, per: nat, c: nat, s: nat)
    requires Inv(w, seed, per) && Sized(w) && c < |w.cpus| && w.cpus[c].slab == Some(s) && s in w.slabs
    ensures w.hand[c] == [] ==> Spliced(w, seed, c, s, w.mem, w.slabs[s].free)
    ensures w.hand[c] != [] ==>
              var tail := w.hand[c][|w.hand[c]| - 1];
              Spliced(w, seed, c, s, w.mem[tail := Encode(seed, tail, w.slabs[s].free)], w.cpus[c].free)
  {
    hide Encode, Decode;
    assert CpuOk(w, seed, c) && SlabOk(w, seed, per, s);
    if w.hand[c] == [] {
      assert w.hand[c] + w.own[s] == w.own[s];
    } else {
      var tail := w.hand[c][|w.hand[c]| - 1];
      assert tail in w.hand[c];
      SpliceLists(w.mem, seed, w.cpus[c].free, w.hand[c], w.slabs[s].free, w.own[s]);
    }
  }

  lemma OwnNotLive(w: World, seed: Addr, per: nat, s: nat)
    requires Inv(w, seed, per) && s in w.slabs && s in w.own
    ensures forall x | x in w.own[s] :: x in w.spot && w.spot[x] == Own
  {
    assert SlabOk(w, seed, per, s);
  }

  lemma HomeIsSpot(w: World, seed: Addr, per: nat)
    requires Inv(w, seed, per)
    ensures w.home.Keys == w.spot.Keys
  {
  }

  lemma PlaceMarks(w: World, seed: Addr, per: nat, s: nat)
    requires Inv(w, seed, per) && s in w.slabs && s in w.place
    ensures !w.slabs[s].frozen && !w.slabs[s].listed <==> w.place[s].Full?
    ensures !w.slabs[s].frozen && w.slabs[s].listed <==> w.place[s].NodePartial?
    ensures w.place[s].NodePartial? ==> w.place[s].node == w.slabs[s].node
    ensures w.slabs[s].node < |w.nodes| && (w.place[s].Full? ==> w.slabs[s].inuse == per)
  {
    assert SlabOk(w, seed, per, s);
  }

  lemma IsListed(w: World, seed: Addr, per: nat, s: nat, n: nat)
    requires Inv(w, seed, per) && n < |w.nodes| && s in w.slabs && s in w.place && w.place[s] == NodePartial(n)
    ensures s in w.nodes[n]
  {
    assert NodeOk(w, n);
  }

  lemma NoUsers(w: World, seed: Addr, per: nat, s: nat)
    requires Inv(w, seed, per) && s in w.slabs && forall x | x in w.spot :: w.spot[x] != Live
    ensures w.slabs[s].inuse == 0
  {
    assert SlabOk(w, seed, per, s);
    assert LiveOf(w, s) == {};
  }

  /** With all lists empty, nothing in use and nothing in hand, there is no slab. */
  lemma AllGone(w: World, seed: Addr, per: nat)
    requires Inv(w, seed, per) && 0 < per && (forall x | x in w.spot :: w.spot[x] != Live)
    requires (forall s | s in w.place :: w.place[s] != Detached)
    requires (forall d: nat | d < |w.cpus| :: w.cpus[d].slab == None && w.cpus[d].partial == [])
    requires forall m: nat | m < |w.nodes| :: w.nodes[m] == []
    ensures w.slabs == map[]
  {
    forall s | s in w.slabs ensures false {
      NoUsers(w, seed, per, s);
      Somewhere(w, seed, per, s);
    }
  }
}
