/** One slab cache as a value: where every slab and every object is, and the steps that move them. */
module SlubState {
  import opened Wrappers
  import opened FreeList

  /** Where an object is: with a user, on the list of its slab, or on that of the CPU that has the slab. */
  datatype Spot = Live | Own | Hand

  /** Where a slab is; a detached one is in the hands of a thread that has just taken or made it. */
  datatype Place = Active(cpu: nat) | CpuPartial(cpu: nat) | NodePartial(node: nat) | Full | Detached

  datatype Slab = Slab(free: Addr, inuse: nat, frozen: bool, listed: bool, node: nat)
  datatype Cpu = Cpu(slab: Option<nat>, free: Addr, partial: seq<nat>)

  /**
    Slabs, CPU and node structures, and the links stored in objects; then, as the proof sees them, the
    slab each object belongs to, the spot of each object, the place of each slab, and the free lists.
   */
  datatype World = World(
    slabs: map<nat, Slab>, cpus: seq<Cpu>, nodes: seq<seq<nat>>, mem: Memory,
    home: map<Addr, nat>, spot: map<Addr, Spot>, place: map<nat, Place>,
    own: map<nat, seq<Addr>>, hand: seq<seq<Addr>>)

  ghost predicate NoDup(l: seq<nat>) {
    forall i, j | 0 <= i < j < |l| :: l[i] != l[j]
  }

  ghost predicate Sized(w: World) {
    && w.slabs.Keys == w.place.Keys == w.own.Keys && w.home.Keys == w.spot.Keys && |w.hand| == |w.cpus|
    && (forall a | a in w.home :: w.home[a] in w.slabs && a != NULL)
  }

  ghost function Objects(w: World, s: nat): set<Addr> {
    set a | a in w.home && w.home[a] == s
  }

  ghost function LiveOf(w: World, s: nat): set<Addr> {
    set a | a in w.home && a in w.spot && w.home[a] == s && w.spot[a] == Live
  }

  /** The free list of a slab is what its objects say; the counters and marks are those of its place. */
  ghost predicate SlabOk(w: World, seed: Addr, per: nat, s: nat)
    requires Sized(w) && s in w.slabs
  {
    var b, p := w.slabs[s], w.place[s];
    && List(w.mem, seed, b.free, w.own[s])
    && (forall a {:trigger a in w.own[s]} :: a in w.own[s] <==> a in w.home && w.home[a] == s && w.spot[a] == Own)
    && (forall a | a in w.home && w.home[a] == s && w.spot[a] == Hand :: p.Active?)
    && |Objects(w, s)| == per && |LiveOf(w, s)| == b.inuse
    && b.frozen == (p.Active? || p.CpuPartial? || p.Detached?) && b.listed == p.NodePartial?
    && (p.Full? ==> b.inuse == per) && (p.NodePartial? ==> b.inuse < per && p.node == b.node)
    && (p.CpuPartial? || p.Detached? ==> b.inuse < per)
    && (p.Active? ==> p.cpu < |w.cpus| && w.cpus[p.cpu].slab == Some(s))
    && (p.CpuPartial? ==> p.cpu < |w.cpus|) && b.node < |w.nodes|
  }

  ghost predicate CpuOk(w: World, seed: Addr, c: nat)
    requires Sized(w) && c < |w.cpus|
  {
    var k := w.cpus[c];
    && List(w.mem, seed, k.free, w.hand[c])
    && (k.slab.Some? ==> k.slab.value in w.slabs && w.place[k.slab.value] == Active(c))
    && (forall a {:trigger a in w.hand[c]} :: a in w.hand[c] <==>
        a in w.home && w.spot[a] == Hand && k.slab == Some(w.home[a]))
    && NoDup(k.partial)
    && forall s {:trigger s in k.partial} :: s in k.partial <==> s in w.slabs && w.place[s] == CpuPartial(c)
  }

  ghost predicate NodeOk(w: World, n: nat)
    requires Sized(w) && n < |w.nodes|
  {
    NoDup(w.nodes[n]) && forall s {:trigger s in w.nodes[n]} :: s in w.nodes[n] <==>
        s in w.slabs && w.place[s] == NodePartial(n)
  }

  ghost predicate Inv(w: World, seed: Addr, per: nat) {
    && Sized(w)
    && (forall s {:trigger SlabOk(w, seed, per, s)} | s in w.slabs :: SlabOk(w, seed, per, s))
    && (forall c: nat {:trigger CpuOk(w, seed, c)} | c < |w.cpus| :: CpuOk(w, seed, c))
    && (forall n: nat {:trigger NodeOk(w, n)} | n < |w.nodes| :: NodeOk(w, n))
  }

  // ---- lists are apart -------------------------------------------------------------------------

  lemma NoneFree(w: World, seed: Addr, per: nat, s: nat)
    requires Sized(w) && s in w.slabs && SlabOk(w, seed, per, s) && !w.place[s].Active? && w.own[s] == []
    ensures Objects(w, s) == LiveOf(w, s)
  {
    forall a | a in Objects(w, s) ensures a in LiveOf(w, s) {
      assert a in w.own[s] <==> w.spot[a] == Own;
    }
  }

  /** A slab that is on no CPU and not full has an object to give. */
  lemma ParkedHasFree(w: World, seed: Addr, per: nat, s: nat)
    requires Inv(w, seed, per) && s in w.slabs && !w.place[s].Active? && w.slabs[s].inuse < per
    ensures w.own[s] != [] && w.slabs[s].free != NULL
  {
    assert SlabOk(w, seed, per, s);
    if w.own[s] == [] {
      NoneFree(w, seed, per, s);
    } else {
      assert w.own[s][0] in w.own[s];
    }
  }

  /**
    A slab that somebody can find again: it is on a CPU, on a list of a CPU or a node, or in the hands of a
    thread; or it is full and not frozen, so that the first object to come back puts it on a list.
   */
  ghost predicate Found(w: World, s: nat)
    requires Sized(w) && s in w.slabs
  {
    || (exists c: nat :: c < |w.cpus| && (w.cpus[c].slab == Some(s) || s in w.cpus[c].partial))
    || (exists n: nat :: n < |w.nodes| && s in w.nodes[n])
    || w.place[s] == Detached
    || (!w.slabs[s].frozen && forall a | a in w.home && w.home[a] == s :: w.spot[a] == Live)
  }

  /**
    Every slab can be found; every object is with a user, on its slab's list, or on the list of the CPU with
    its slab.
   */
  ghost predicate Conserved(w: World)
    requires Sized(w)
  {
    && (forall s {:trigger Found(w, s)} | s in w.slabs :: Found(w, s))
    && (forall a | a in w.home && w.spot[a] != Live ::
          a in w.own[w.home[a]] || exists c: nat :: c < |w.cpus| && w.cpus[c].slab == Some(w.home[a]) && a in w.hand[c])
  }

  /** Every slab is on a CPU, on a list, full, or in somebody's hands. */
  lemma Somewhere(w: World, seed: Addr, per: nat, s: nat)
    requires Inv(w, seed, per) && s in w.slabs
    ensures s in w.place
    ensures match w.place[s]
            case Active(c) => c < |w.cpus| && w.cpus[c].slab == Some(s)
            case CpuPartial(c) => c < |w.cpus| && s in w.cpus[c].partial
            case NodePartial(n) => n < |w.nodes| && s in w.nodes[n]
            case Full => w.slabs[s].inuse == per && !w.slabs[s].frozen
            case Detached => true
  {
    assert SlabOk(w, seed, per, s);
    if w.place[s].CpuPartial? {
      assert CpuOk(w, seed, w.place[s].cpu);
    } else if w.place[s].NodePartial? {
      assert NodeOk(w, w.place[s].node);
    }
  }

  /** All objects of a full slab are with users. */
  lemma FullIsLive(w: World, seed: Addr, per: nat, s: nat)
    requires Inv(w, seed, per) && s in w.slabs && w.slabs[s].inuse == per
    ensures forall a | a in w.home && w.home[a] == s :: w.spot[a] == Live
  {
    assert SlabOk(w, seed, per, s);
    SameSize(LiveOf(w, s), Objects(w, s));
    forall a | a in w.home && w.home[a] == s ensures w.spot[a] == Live {
      assert a in Objects(w, s);
    }
  }

  lemma SameSize<T>(x: set<T>, y: set<T>)
    requires x <= y && |x| == |y|
    ensures x == y
  {
    if a :| a in y && a !in x {
      assert x <= y - {a};
      Smaller(x, y - {a});
    }
  }

  lemma {:induction false} Smaller<T>(x: set<T>, y: set<T>)
    requires x <= y
    ensures |x| <= |y|
    decreases x
  {
    if a :| a in x {
      Smaller(x - {a}, y - {a});
    }
  }

  lemma InvConserves(w: World, seed: Addr, per: nat)
    requires Inv(w, seed, per)
    ensures Conserved(w)
  {
    forall s {:trigger Found(w, s)} | s in w.slabs ensures Found(w, s) {
      Somewhere(w, seed, per, s);
      if w.place[s].Full? {
        FullIsLive(w, seed, per, s);
      }
    }
    forall a | a in w.home && w.spot[a] != Live
      ensures a in w.own[w.home[a]] || exists c: nat ::
          c < |w.cpus| && w.cpus[c].slab == Some(w.home[a]) && a in w.hand[c] {
      var s := w.home[a];
      assert SlabOk(w, seed, per, s);
      if w.spot[a] == Own {
        assert a in w.own[s];
      } else {
        var c := w.place[s].cpu;
        assert CpuOk(w, seed, c);
        assert a in w.hand[c];
      }
    }
  }

  // ---- what a step leaves alone ------------------------------------------------------------------

  /** A slab, its objects and its list are as before. */
  ghost predicate SameSlab(w: World, w': World, s: nat)
    requires Sized(w) && Sized(w')
  {
    && s in w.slabs && s in w'.slabs && w'.slabs[s] == w.slabs[s] && w'.place[s] == w.place[s] && w'.own[s] == w.own[s]
    && (forall a {:trigger w'.home[a]} {:trigger w.home[a]} :: a in w'.home && w'.home[a] == s <==>
        a in w.home && w.home[a] == s)
    && (forall a | a in w.home && w.home[a] == s && a in w'.spot :: w'.spot[a] == w.spot[a])
    && (forall a | a in w.own[s] && a in w.mem :: a in w'.mem && w'.mem[a] == w.mem[a])
    && |w'.cpus| == |w.cpus| && |w'.nodes| == |w.nodes|
    && (w.place[s].Active? && w.place[s].cpu < |w.cpus| ==> w'.cpus[w.place[s].cpu].slab == w.cpus[w.place[s].cpu].slab)
  }

  lemma SameList(mem: Memory, mem': Memory, seed: Addr, head: Addr, l: seq<Addr>)
    requires List(mem, seed, head, l) && forall a | a in l && a in mem :: a in mem' && mem'[a] == mem[a]
    ensures List(mem', seed, head, l)
  {
    hide Decode;
    forall k | 0 <= k < |l| ensures LinkOk(mem', seed, l, k) {
      assert LinkOk(mem, seed, l, k) && l[k] in l;
    }
  }

  lemma OtherSlab(w: World, w': World, seed: Addr, per: nat, s: nat)
    requires Sized(w) && Sized(w') && SameSlab(w, w', s) && SlabOk(w, seed, per, s)
    ensures SlabOk(w', seed, per, s)
  {
    SameList(w.mem, w'.mem, seed, w.slabs[s].free, w.own[s]);
    assert Objects(w', s) == Objects(w, s);
    forall a ensures a in LiveOf(w', s) <==> a in LiveOf(w, s) {
      assert a in w'.home && w'.home[a] == s <==> a in w.home && w.home[a] == s;
    }
    assert LiveOf(w', s) == LiveOf(w, s);
    forall a {:trigger a in w'.own[s]}
      ensures a in w'.own[s] <==> a in w'.home && w'.home[a] == s && w'.spot[a] == Own
    {
      assert a in w.own[s] <==> a in w.home && w.home[a] == s && w.spot[a] == Own;
      assert a in w'.home && w'.home[a] == s <==> a in w.home && w.home[a] == s;
    }
  }

  /** A CPU, its list and the slabs it has are as before. */
  ghost predicate SameCpu(w: World, w': World, c: nat)
    requires Sized(w) && Sized(w')
  {
    && c < |w.cpus| && |w'.cpus| == |w.cpus| && w'.cpus[c] == w.cpus[c] && w'.hand[c] == w.hand[c]
    && (forall a | a in w.hand[c] && a in w.mem :: a in w'.mem && w'.mem[a] == w.mem[a])
    && (forall s {:trigger w'.place[s]} {:trigger w.place[s]} :: s in w'.slabs && w'.place[s] == CpuPartial(c) <==>
        s in w.slabs && w.place[s] == CpuPartial(c))
    && (w.cpus[c].slab.Some? ==>
          && var s := w.cpus[c].slab.value;
          && s in w'.slabs && s in w.slabs && w'.place[s] == w.place[s]
          && (forall a {:trigger w'.home[a]} {:trigger w.home[a]} :: a in w'.home && w'.home[a] == s <==>
              a in w.home && w.home[a] == s)
          && (forall a | a in w.home && w.home[a] == s && a in w'.spot :: w'.spot[a] == Hand <==> w.spot[a] == Hand))
  }

  lemma OtherCpu(w: World, w': World, seed: Addr, c: nat)
    requires Sized(w) && Sized(w') && SameCpu(w, w', c) && CpuOk(w, seed, c)
    ensures CpuOk(w', seed, c)
  {
    SameList(w.mem, w'.mem, seed, w.cpus[c].free, w.hand[c]);
    var k := w.cpus[c];
    forall a {:trigger a in w'.hand[c]}
      ensures a in w'.hand[c] <==> a in w'.home && w'.spot[a] == Hand && k.slab == Some(w'.home[a])
    {
      assert a in w.hand[c] <==> a in w.home && w.spot[a] == Hand && k.slab == Some(w.home[a]);
      if k.slab.Some? {
        assert a in w'.home && w'.home[a] == k.slab.value <==> a in w.home && w.home[a] == k.slab.value;
      }
    }
    forall s {:trigger s in w'.cpus[c].partial}
      ensures s in w'.cpus[c].partial <==> s in w'.slabs && w'.place[s] == CpuPartial(c)
    {
      assert s in w.cpus[c].partial <==> s in w.slabs && w.place[s] == CpuPartial(c);
    }
  }

  ghost predicate SameNode(w: World, w': World, n: nat)
    requires Sized(w) && Sized(w')
  {
    && n < |w.nodes| && |w'.nodes| == |w.nodes| && w'.nodes[n] == w.nodes[n]
    && (forall s {:trigger w'.place[s]} {:trigger w.place[s]} :: s in w'.slabs && w'.place[s] == NodePartial(n) <==>
        s in w.slabs && w.place[s] == NodePartial(n))
  }

  lemma OtherNode(w: World, w': World, n: nat)
    requires Sized(w) && Sized(w') && SameNode(w, w', n) && NodeOk(w, n)
    ensures NodeOk(w', n)
  {
    forall s {:trigger s in w'.nodes[n]} ensures s in w'.nodes[n] <==> s in w'.slabs && w'.place[s] == NodePartial(n) {
      assert s in w.nodes[n] <==> s in w.slabs && w.place[s] == NodePartial(n);
    }
  }

  /** All that a step did not touch is right; so is the rest. */
  lemma Assemble(w: World, w': World, seed: Addr, per: nat, slabs: set<nat>, cpus: set<nat>, nodes: set<nat>)
    requires Inv(w, seed, per) && Sized(w') && |w'.cpus| == |w.cpus| && |w'.nodes| == |w.nodes|
    requires forall t | t in w'.slabs && t !in slabs :: SameSlab(w, w', t)
    requires forall t | t in w'.slabs && t in slabs :: SlabOk(w', seed, per, t)
    requires forall c: nat | c < |w.cpus| && c !in cpus :: SameCpu(w, w', c)
    requires forall c: nat | c < |w.cpus| && c in cpus :: CpuOk(w', seed, c)
    requires forall n: nat | n < |w.nodes| && n !in nodes :: SameNode(w, w', n)
    requires forall n: nat | n < |w.nodes| && n in nodes :: NodeOk(w', n)
    ensures Inv(w', seed, per)
  {
    hide SlabOk, CpuOk, NodeOk, SameSlab, SameCpu, SameNode, Sized;
    InvSized(w, seed, per);
    forall t {:trigger SlabOk(w', seed, per, t)} | t in w'.slabs ensures SlabOk(w', seed, per, t) {
      if t !in slabs {
        SameSlabIn(w, w', t);
        assert SlabOk(w, seed, per, t);
        OtherSlab(w, w', seed, per, t);
      }
    }
    forall c: nat {:trigger CpuOk(w', seed, c)} | c < |w'.cpus| ensures CpuOk(w', seed, c) {
      if c !in cpus {
        assert CpuOk(w, seed, c);
        OtherCpu(w, w', seed, c);
      }
    }
    forall n: nat {:trigger NodeOk(w', n)} | n < |w'.nodes| ensures NodeOk(w', n) {
      if n !in nodes {
        assert NodeOk(w, n);
        OtherNode(w, w', n);
      }
    }
  }

  lemma InvSized(w: World, seed: Addr, per: nat)
    requires Inv(w, seed, per)
    ensures Sized(w)
  {
  }

  lemma SameSlabIn(w: World, w': World, s: nat)
    requires Sized(w) && Sized(w') && SameSlab(w, w', s)
    ensures s in w.slabs
  {
  }

  /** Objects of slab s whose link a step may change: all but those in the hand of a CPU not concerned. */
  ghost predicate Loose(w: World, s: nat, cpus: set<nat>, a: Addr)
    requires Sized(w) && s in w.slabs
  {
    a in w.home && w.home[a] == s && (w.spot[a] != Hand || (w.place[s].Active? && w.place[s].cpu in cpus))
  }

  /**
    A step on slab s: other slabs keep their record, place, list and objects; other CPUs keep what they have
    in hand.
   */
  ghost predicate Around(w: World, w': World, s: nat, cpus: set<nat>)
    requires Sized(w) && Sized(w')
  {
    && |w'.cpus| == |w.cpus| && |w'.nodes| == |w.nodes| && w'.home == w.home
    && s in w.slabs && w'.slabs.Keys == w.slabs.Keys
    && (forall t | t in w.slabs && t != s ::
        w'.slabs[t] == w.slabs[t] && w'.place[t] == w.place[t] && w'.own[t] == w.own[t])
    && (forall a | a in w.home && w.home[a] != s :: w'.spot[a] == w.spot[a])
    && (forall a | a in w.mem && !Loose(w, s, cpus, a) :: a in w'.mem && w'.mem[a] == w.mem[a])
    && (forall c: nat | c < |w.cpus| && c !in cpus :: w'.cpus[c] == w.cpus[c] && w'.hand[c] == w.hand[c])
    && (forall c: nat | c < |w.cpus| && c !in cpus && w.cpus[c].slab == Some(s) ::
          && w'.place[s] == w.place[s]
          && forall a | a in w.home && w.home[a] == s :: w'.spot[a] == Hand <==> w.spot[a] == Hand)
    && (forall c: nat | c in cpus && c < |w.cpus| && w.cpus[c].slab.Some? && w.cpus[c].slab.value != s ::
        w'.cpus[c].slab == w.cpus[c].slab)
  }

  lemma AroundSlab(w: World, w': World, seed: Addr, per: nat, s: nat, cpus: set<nat>, t: nat)
    requires Inv(w, seed, per) && Sized(w') && Around(w, w', s, cpus) && t in w'.slabs && t != s
    ensures SameSlab(w, w', t)
  {
    assert SlabOk(w, seed, per, t);
    forall a | a in w.own[t] && a in w.mem ensures a in w'.mem && w'.mem[a] == w.mem[a] {
      assert a in w.home && w.home[a] == t;
    }
    if w.place[t].Active? {
      var c := w.place[t].cpu;
      assert c !in cpus ==> w'.cpus[c] == w.cpus[c];
    }
  }

  lemma AroundCpu(w: World, w': World, seed: Addr, per: nat, s: nat, cpus: set<nat>, c: nat)
    requires Inv(w, seed, per) && Sized(w') && Around(w, w', s, cpus) && c < |w.cpus| && c !in cpus
    requires w.place[s] == CpuPartial(c) <==> w'.place[s] == CpuPartial(c)
    ensures SameCpu(w, w', c)
  {
    assert CpuOk(w, seed, c);
    assert SlabOk(w, seed, per, s);
    forall a | a in w.hand[c] && a in w.mem ensures a in w'.mem && w'.mem[a] == w.mem[a] {
      assert a in w.home && w.spot[a] == Hand && w.cpus[c].slab == Some(w.home[a]);
      assert w.home[a] == s ==> w.place[s] == Active(c);
    }
    forall t {:trigger w'.place[t]} {:trigger w.place[t]}
      ensures t in w'.slabs && w'.place[t] == CpuPartial(c) <==> t in w.slabs && w.place[t] == CpuPartial(c) {
    }
  }

  lemma AroundNode(w: World, w': World, s: nat, cpus: set<nat>, n: nat)
    requires Sized(w) && Sized(w') && Around(w, w', s, cpus) && n < |w.nodes| && w'.nodes[n] == w.nodes[n]
    requires w.place[s] == NodePartial(n) <==> w'.place[s] == NodePartial(n)
    ensures SameNode(w, w', n)
  {
    forall t {:trigger w'.place[t]} {:trigger w.place[t]}
      ensures t in w'.slabs && w'.place[t] == NodePartial(n) <==> t in w.slabs && w.place[t] == NodePartial(n) {
    }
  }

  /** A step on one slab is right if it is right for that slab, the CPUs and the nodes it touches. */
  lemma StepOn(w: World, w': World, seed: Addr, per: nat, s: nat, cpus: set<nat>, nodes: set<nat>)
    requires Inv(w, seed, per) && Sized(w') && Around(w, w', s, cpus) && SlabOk(w', seed, per, s)
    requires forall c: nat | c < |w.cpus| && c in cpus :: CpuOk(w', seed, c)
    requires forall c: nat | c < |w.cpus| && c !in cpus :: w.place[s] == CpuPartial(c) <==> w'.place[s] == CpuPartial(c)
    requires forall n: nat | n < |w.nodes| && n in nodes :: NodeOk(w', n)
    requires forall n: nat | n < |w.nodes| && n !in nodes ::
               w'.nodes[n] == w.nodes[n] && (w.place[s] == NodePartial(n) <==> w'.place[s] == NodePartial(n))
    ensures Inv(w', seed, per)
  {
    AroundSizes(w, w', s, cpus);
    hide SlabOk, CpuOk, NodeOk, SameSlab, SameCpu, SameNode, Sized, Around, Inv;
    InvSized(w, seed, per);
    forall t | t in w'.slabs && t != s ensures SameSlab(w, w', t) {
      AroundSlab(w, w', seed, per, s, cpus, t);
    }
    forall c: nat | c < |w.cpus| && c !in cpus ensures SameCpu(w, w', c) {
      AroundCpu(w, w', seed, per, s, cpus, c);
    }
    forall n: nat | n < |w.nodes| && n !in nodes ensures SameNode(w, w', n) {
      AroundNode(w, w', s, cpus, n);
    }
    Assemble(w, w', seed, per, {s}, cpus, nodes);
  }

  lemma AroundSizes(w: World, w': World, s: nat, cpus: set<nat>)
    requires Sized(w) && Sized(w') && Around(w, w', s, cpus)
    ensures |w'.cpus| == |w.cpus| && |w'.nodes| == |w.nodes| && w'.slabs.Keys == w.slabs.Keys && s in w.slabs
  {
  }
}
