/** Any number of CPUs at work on one slab cache: their critical sections interleave in any way. */
module SlubInterleave {
  import opened Wrappers
  import opened FreeList
  import opened SlubState
  import opened SlubSteps

  /**
    What one critical section, or a part of one, does.  An allocation is a Give, or a Retire, perhaps some Unlist and
    Park, and then an Unpark, Unlist or Make, an Activate and a Give; other CPUs and interrupts may come between.
    A release is a Return to the CPU's list, or a Release to the slab's, perhaps with an Unlist and a Discard.
    The trap of free_slow, of which FreeSlow tells, would end the run.
   */
  datatype Step =
    | Give(cpu: nat)
    | Return(cpu: nat, obj: Addr)
    | Release(obj: Addr)
    | Unpark(cpu: nat)
    | Park(cpu: nat, slab: nat)
    | Unlist(node: nat, k: nat)
    | Enlist(slab: nat)
    | Activate(cpu: nat, slab: nat)
    | Retire(cpu: nat, mem: Memory, head: Addr)
    | Make(slab: nat, node: nat, objs: seq<Addr>, mem: Memory)
    | Discard(slab: nat)

  ghost predicate InHand(w: World, s: nat) {
    s in w.slabs && s in w.place && w.place[s] == Detached
  }

  ghost predicate InUse(w: World, a: Addr) {
    a in w.home && a in w.spot && w.spot[a] == Live
  }

  /** What the code has tested, or its callers have promised, when it takes the step. */
  ghost predicate May(w: World, seed: Addr, per: nat, step: Step) {
    match step
    case Give(c) => c < |w.cpus| && w.cpus[c].free != NULL
    case Return(c, a) => c < |w.cpus| && InUse(w, a) && w.cpus[c].slab == Some(w.home[a])
    case Release(a) => InUse(w, a)
    case Unpark(c) => c < |w.cpus| && w.cpus[c].partial != []
    case Park(c, s) => c < |w.cpus| && InHand(w, s)
    case Unlist(n, k) => n < |w.nodes| && k < |w.nodes[n]|
    case Enlist(s) => InHand(w, s)
    case Activate(c, s) => c < |w.cpus| && InHand(w, s)
    case Retire(c, mem, head) =>
      && c < |w.cpus| && w.cpus[c].slab.Some? && w.cpus[c].slab.value in w.slabs && Sized(w)
      && Spliced(w, seed, c, w.cpus[c].slab.value, mem, head)
    case Make(s, n, objs, mem) => FreshSlab(w, seed, per, s, n, objs, mem)
    case Discard(s) => InHand(w, s) && w.slabs[s].inuse == 0
  }

  /** Everything that the step reads is there. */
  ghost predicate Defined(w: World, step: Step) {
    match step
    case Give(c) =>
      && c < |w.cpus| == |w.hand| && w.hand[c] != [] && w.cpus[c].slab.Some? && w.cpus[c].slab.value in w.slabs
      && w.cpus[c].free in w.mem
    case Return(c, a) =>
      && c < |w.cpus| == |w.hand| && w.cpus[c].slab.Some? && w.cpus[c].slab.value in w.slabs
      && w.slabs[w.cpus[c].slab.value].inuse > 0
    case Release(a) =>
      && a in w.home && w.home[a] in w.slabs && w.home[a] in w.own && w.home[a] in w.place
      && w.slabs[w.home[a]].inuse > 0 && w.slabs[w.home[a]].node < |w.nodes|
    case Unpark(c) => c < |w.cpus| && w.cpus[c].partial != []
    case Park(c, s) => c < |w.cpus|
    case Unlist(n, k) => n < |w.nodes| && k < |w.nodes[n]| && w.nodes[n][k] in w.slabs
    case Enlist(s) => s in w.slabs && w.slabs[s].node < |w.nodes|
    case Activate(c, s) => c < |w.cpus| == |w.hand| && s in w.slabs && s in w.own
    case Retire(c, mem, head) =>
      && c < |w.cpus| == |w.hand| && w.cpus[c].slab.Some? && w.cpus[c].slab.value in w.slabs
      && w.cpus[c].slab.value in w.own && w.slabs[w.cpus[c].slab.value].node < |w.nodes|
    case Make(s, n, objs, mem) => objs != []
    case Discard(s) => true
  }

  ghost function After(w: World, seed: Addr, per: nat, step: Step): World
    requires Defined(w, step)
  {
    match step
    case Give(c) => Given(w, seed, c)
    case Return(c, a) => TakenBack(w, seed, c, a)
    case Release(a) => if w.place[w.home[a]].Full? then PutFull(w, seed, a) else Put(w, seed, a)
    case Unpark(c) => Unparked(w, c)
    case Park(c, s) => Parked(w, c, s)
    case Unlist(n, k) => Unlisted(w, n, k)
    case Enlist(s) => Listed(w, s)
    case Activate(c, s) => Activated(w, c, s)
    case Retire(c, mem, head) => Retired(w, seed, per, c, mem, head)
    case Make(s, n, objs, mem) => Made(w, s, n, objs, mem)
    case Discard(s) => Discarded(w, s)
  }

  /** A slab is not activated over another one. */
  ghost predicate Orderly(w: World, step: Step) {
    step.Activate? && step.cpu < |w.cpus| ==> w.cpus[step.cpu].slab == None
  }

  lemma MayIsDefined(w: World, seed: Addr, per: nat, step: Step)
    requires Inv(w, seed, per) && May(w, seed, per, step)
    ensures Defined(w, step)
  {
    InvSized(w, seed, per);
    match step
    case Give(c) => GiveKeeps(w, seed, per, c);
    case Return(c, a) => TakeBackKeeps(w, seed, per, c, a);
    case Release(a) => ReleaseKeeps(w, seed, per, a);
    case Unpark(c) =>
    case Park(c, s) =>
    case Unlist(n, k) => UnlistKeeps(w, seed, per, n, k);
    case Enlist(s) => ListKeeps(w, seed, per, s);
    case Activate(c, s) =>
    case Retire(c, mem, head) => RetireKeeps(w, seed, per, c, w.cpus[c].slab.value, mem, head);
    case Make(s, n, objs, mem) => MakeKeeps(w, seed, per, s, n, objs, mem);
    case Discard(s) =>
  }

  lemma ReleaseKeeps(w: World, seed: Addr, per: nat, a: Addr)
    requires Inv(w, seed, per) && InUse(w, a)
    ensures Defined(w, Release(a)) && Inv(After(w, seed, per, Release(a)), seed, per)
  {
    InvSized(w, seed, per);
    LiveCounted(w, seed, per, a);
    assert SlabOk(w, seed, per, w.home[a]);
    hide Inv, SlabOk;
    if w.place[w.home[a]].Full? {
      PutFullKeeps(w, seed, per, a);
    } else {
      PutKeeps(w, seed, per, a);
    }
  }

  /** Every orderly step of whatever CPU, in any consistent state, leaves a consistent state. */
  lemma StepKeeps(w: World, seed: Addr, per: nat, step: Step)
    requires Inv(w, seed, per) && May(w, seed, per, step) && Orderly(w, step)
    ensures Defined(w, step) && Inv(After(w, seed, per, step), seed, per)
  {
    MayIsDefined(w, seed, per, step);
    hide Inv, Given, TakenBack, Unparked, Parked, Unlisted, Listed, Activated, Retired, Made, Discarded, FreshSlab,
        Spliced;
    match step
    case Give(c) => GiveKeeps(w, seed, per, c);
    case Return(c, a) => TakeBackKeeps(w, seed, per, c, a);
    case Release(a) => ReleaseKeeps(w, seed, per, a);
    case Unpark(c) => UnparkKeeps(w, seed, per, c);
    case Park(c, s) => ParkKeeps(w, seed, per, c, s);
    case Unlist(n, k) => UnlistKeeps(w, seed, per, n, k);
    case Enlist(s) => ListKeeps(w, seed, per, s);
    case Activate(c, s) => ActivateKeeps(w, seed, per, c, s);
    case Retire(c, mem, head) => RetireKeeps(w, seed, per, c, w.cpus[c].slab.value, mem, head);
    case Make(s, n, objs, mem) => MakeKeeps(w, seed, per, s, n, objs, mem);
    case Discard(s) => DiscardKeeps(w, seed, per, s);
  }

  // ---- runs --------------------------------------------------------------------------------------------

  ghost predicate Run(w: World, seed: Addr, per: nat, steps: seq<Step>)
    decreases |steps|
  {
    steps != [] ==>
      May(w, seed, per, steps[0]) && Defined(w, steps[0]) && Run(After(w, seed, per, steps[0]), seed, per, steps[1..])
  }

  ghost predicate OrderlyRun(w: World, seed: Addr, per: nat, steps: seq<Step>)
    requires Run(w, seed, per, steps)
    decreases |steps|
  {
    steps != [] ==> Orderly(w, steps[0]) && OrderlyRun(After(w, seed, per, steps[0]), seed, per, steps[1..])
  }

  ghost function Last(w: World, seed: Addr, per: nat, steps: seq<Step>): World
    requires Run(w, seed, per, steps)
    decreases |steps|
  {
    if steps == [] then w else Last(After(w, seed, per, steps[0]), seed, per, steps[1..])
  }

  /** Nothing is lost in any state of the run. */
  ghost predicate LosesNothing(w: World, seed: Addr, per: nat, steps: seq<Step>)
    requires Run(w, seed, per, steps)
    decreases |steps|
  {
    && Sized(w) && Conserved(w)
    && (steps != [] ==> LosesNothing(After(w, seed, per, steps[0]), seed, per, steps[1..]))
  }

  /** Every state of an orderly run is consistent. */
  lemma {:induction false} RunsKeep(w: World, seed: Addr, per: nat, steps: seq<Step>)
    requires Inv(w, seed, per) && Run(w, seed, per, steps) && OrderlyRun(w, seed, per, steps)
    ensures Inv(Last(w, seed, per, steps), seed, per)
    decreases |steps|
  {
    hide Inv, May, Defined, After;
    if steps != [] {
      StepKeeps(w, seed, per, steps[0]);
      RunsKeep(After(w, seed, per, steps[0]), seed, per, steps[1..]);
    }
  }

  /**
    However the sections of any number of CPUs interleave: no slab and no object is ever lost if and only if no CPU
    activates a slab while it has one.
   */
  lemma {:induction false} RunsConserveExactly(w: World, seed: Addr, per: nat, steps: seq<Step>)
    requires Inv(w, seed, per) && Run(w, seed, per, steps)
    ensures LosesNothing(w, seed, per, steps) <==> OrderlyRun(w, seed, per, steps)
    decreases |steps|
  {
    InvSized(w, seed, per);
    InvConserves(w, seed, per);
    hide Inv, Conserved, Sized;
    if steps != [] {
      var step, rest := steps[0], steps[1..];
      if Orderly(w, step) {
        StepKeeps(w, seed, per, step);
        RunsConserveExactly(After(w, seed, per, step), seed, per, rest);
      } else {
        ActivateConserves(w, seed, per, step.cpu, step.slab);
      }
    }
  }

  /** An object that is given out was with no user, and only a Give brings an object to a user. */
  lemma GiveIsFresh(w: World, seed: Addr, per: nat, step: Step)
    requires Inv(w, seed, per) && May(w, seed, per, step) && Orderly(w, step) && Defined(w, step)
    ensures step.Give? ==> var a := w.cpus[step.cpu].free; !InUse(w, a) && InUse(After(w, seed, per, step), a)
    ensures forall a: Addr | InUse(After(w, seed, per, step), a) && !InUse(w, a) ::
              step.Give? && a == w.cpus[step.cpu].free
  {
    InvSized(w, seed, per);
    if step.Give? {
      GiveKeeps(w, seed, per, step.cpu);
      CpuFirst(w, seed, per, step.cpu);
    }
  }
}
