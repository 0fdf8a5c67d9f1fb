/** What holds in every run of the call queue. */
module CsdSafety {
  import opened Csd
  import opened CsdFrame
  import opened CsdSteps
  import opened CsdLists

  lemma StepInv(s: State, step: Step)
    requires Inv(s) && Enabled(s, step) && Orderly(s, step)
    ensures Inv(Apply(s, step))
  {
    hide Inv, Enabled, Apply, Orderly;
    match step
    case Spawn(t, self) => StartInv(s, step);
    case TakeIpi(t, cpu) => StartInv(s, step);
    case Begin(t, n, cpu, kind, waits) => BeginInv(s, t, n, cpu, kind, waits);
    case Refuse(t) => RefuseInv(s, t);
    case LeaseAcquire(t) => AcquireInv(s, t);
    case MarkLease(t) => MarkLeaseInv(s, t);
    case LinkNext(t) => LinkNextInv(s, t);
    case Push(t) => PushInv(s, t);
    case MarkQueued(t) => MarkQueuedInv(s, t);
    case WaitDone(t, n) => WaitDoneInv(s, t, n);
    case DrainAll(t) => DrainInv(s, t);
    case Fetch(t) => FetchInv(s, t);
    case RunCallback(t) => RunInv(s, t);
    case Finish(t) => FinishInv(s, t);
    case ReleaseLease(t) => ReleaseInv(s, t);
    case _ => PcOnlyInv(s, step);
  }

  /** Boot state: empty queues, no leases, every node free. */
  ghost predicate Boot(s: State) {
    && Keys(s) && s.ipi == {} && s.threads == map[] && s.accepted == {} && s.dispatched == {}
    && (forall c | c in s.head :: s.head[c] == Null && s.queue[c] == [] && s.lease[c].count == 0)
    && (forall n | n in s.nodes :: s.nodes[n].loc == Free && s.nodes[n].waiter == NoWaiter)
  }

  lemma BootInv(s: State)
    requires Boot(s)
    ensures Inv(s)
  {
    forall c | c in s.lease ensures LeaseOk(s, c) {
      assert NodeHolders(s, c) == {} && ThreadHolders(s, c) == {};
    }
  }

  /** Every step of the sequence is enabled when its turn comes. */
  ghost predicate IsRun(s: State, steps: seq<Step>)
    decreases |steps|
  {
    steps == [] || (Enabled(s, steps[0]) && IsRun(Apply(s, steps[0]), steps[1..]))
  }

  /** A run in which no CPU is enabled while a lease on it is held. */
  ghost predicate OrderlyRun(s: State, steps: seq<Step>)
    decreases |steps|
  {
    steps == [] || (Enabled(s, steps[0]) && Orderly(s, steps[0]) && OrderlyRun(Apply(s, steps[0]), steps[1..]))
  }

  lemma {:induction false} OrderlyIsRun(s: State, steps: seq<Step>)
    requires OrderlyRun(s, steps)
    ensures IsRun(s, steps)
    decreases |steps|
  {
    if steps != [] {
      OrderlyIsRun(Apply(s, steps[0]), steps[1..]);
    }
  }

  ghost function After(s: State, steps: seq<Step>): State
    requires IsRun(s, steps)
    decreases |steps|
  {
    if steps == [] then s else After(Apply(s, steps[0]), steps[1..])
  }

  /** The invariant holds after every orderly run from every state that has it, so after every boot. */
  lemma {:induction false} RunsKeepInv(s: State, steps: seq<Step>)
    requires Inv(s) && OrderlyRun(s, steps)
    ensures IsRun(s, steps) && Inv(After(s, steps))
    decreases |steps|
  {
    OrderlyIsRun(s, steps);
    if steps != [] {
      StepInv(s, steps[0]);
      RunsKeepInv(Apply(s, steps[0]), steps[1..]);
    }
  }

  // ---- exactly once -----------------------------------------------------------------------

  /** A callback is dispatched only for an accepted call, on its own target, and never twice. */
  lemma DispatchIsFresh(s: State, t: Tid)
    requires Inv(s) && Enabled(s, RunCallback(t))
    ensures var n := s.threads[t].pc.cur;
            var call := CallOf(s.nodes, n);
            && call in s.accepted && call !in s.dispatched
            && s.nodes[n].target == s.threads[t].self
            && Apply(s, RunCallback(t)).dispatched == s.dispatched + {call}
  {
    InvParts(s);
    DispatcherFacts(s, t);
    RunHistory(s, t);
  }

  lemma OnlyRunDispatches(s: State, step: Step)
    requires Enabled(s, step) && !step.RunCallback?
    ensures Apply(s, step).dispatched == s.dispatched
  {
    hide Enabled;
    match step
    case Spawn(_, _) => case Begin(_, _, _, _, _) => case Refuse(_) => case CheckPassed(_) =>
    case LeaseRetry(_) => case LeaseAcquire(_) => case MarkLease(_) => case ReadHead(_) => case LinkNext(_) =>
    case PushRetry(_) => case Push(_) => case MarkQueued(_) => case FinishPush(_) => case WaitDone(_, _) =>
    case TakeIpi(_, _) => case DrainAll(_) => case Fetch(_) => case DrainEnd(_) => case Finish(_) =>
    case ReleaseLease(_) => case DisableBegin(_, _) => case DisableEnd(_) => case Enable(_, _) =>
  }

  /** When nothing is in flight, the calls dispatched are exactly the calls accepted. */
  lemma NothingLost(s: State)
    requires Inv(s) && forall n | n in s.nodes :: !Pending(s.nodes[n])
    ensures s.dispatched == s.accepted
  {
    InvParts(s);
    forall k | k in s.accepted ensures k in s.dispatched {
      assert !Pending(s.nodes[k.node]);
    }
  }

  // ---- disabling a CPU --------------------------------------------------------------------

  /** No call from another CPU is pending or running on c. */
  ghost predicate Quiet(s: State, c: Cpu) {
    && (forall n | n in s.nodes && s.nodes[n].from != c && s.nodes[n].target == c ::
          s.nodes[n].loc.Free? || s.nodes[n].loc.Held?)
    && (forall t | t in s.threads :: !ThreadHolds(s.threads[t], c))
  }

  predicate Closed(s: State, c: Cpu) {
    c in s.lease && s.lease[c].disabled && s.lease[c].count == 0
  }

  /** A lease count of zero means that no accepted remote call is left on the CPU. */
  lemma ZeroIsQuiet(s: State, c: Cpu)
    requires Inv(s) && c in s.lease && s.lease[c].count == 0
    ensures Quiet(s, c)
  {
    assert LeaseOk(s, c);
    assert NodeHolders(s, c) == {} && ThreadHolders(s, c) == {};
    forall t | t in s.threads ensures !ThreadHolds(s.threads[t], c) {
      assert t !in ThreadHolders(s, c);
    }
    forall n | n in s.nodes && s.nodes[n].from != c && s.nodes[n].target == c
      ensures s.nodes[n].loc.Free? || s.nodes[n].loc.Held?
    {
      assert NodeOk(s, n);
      assert n !in NodeHolders(s, c);
      if s.nodes[n].loc.Current? {
        assert ThreadOk(s, s.nodes[n].loc.owner);
      }
    }
  }

  /** Once closed, a CPU stays closed under every step but enabling it. */
  lemma ClosedStays(s: State, step: Step, c: Cpu)
    requires Inv(s) && Enabled(s, step) && Closed(s, c) && !(step.Enable? && step.cpu == c)
    ensures Closed(Apply(s, step), c)
  {
    hide Inv;
    if step.ReleaseLease? {
      if s.threads[step.t].pc.lease && s.threads[step.t].self == c {
        ZeroIsQuiet(s, c);
      }
    } else if !ChangesLease(step) {
      SameLease(s, step);
      hide Enabled, Apply;
    }
  }

  predicate ChangesLease(step: Step) {
    step.LeaseAcquire? || step.ReleaseLease? || step.DisableBegin? || step.Enable?
  }

  lemma SameLease(s: State, step: Step)
    requires Enabled(s, step) && !ChangesLease(step)
    ensures Apply(s, step).lease == s.lease
  {
    hide Enabled;
    match step
    case Spawn(_, _) => case Begin(_, _, _, _, _) => case Refuse(_) => case CheckPassed(_) =>
    case LeaseRetry(_) => case MarkLease(_) => case ReadHead(_) => case LinkNext(_) =>
    case PushRetry(_) => case Push(_) => case MarkQueued(_) => case FinishPush(_) => case WaitDone(_, _) =>
    case TakeIpi(_, _) => case DrainAll(_) => case Fetch(_) => case DrainEnd(_) =>
    case RunCallback(_) => case Finish(_) =>
    case DisableEnd(_) =>
  }

  /** A step moves its own thread only. */
  lemma OtherThread(s: State, step: Step, u: Tid)
    requires Enabled(s, step) && u in s.threads && u != step.t
    ensures u in Apply(s, step).threads && Apply(s, step).threads[u] == s.threads[u]
  {
    hide Enabled;
    match step
    case Spawn(_, _) => case Begin(_, _, _, _, _) => case Refuse(_) => case CheckPassed(_) =>
    case LeaseRetry(_) => case LeaseAcquire(_) => case MarkLease(_) => case ReadHead(_) => case LinkNext(_) =>
    case PushRetry(_) => case Push(_) => case MarkQueued(_) => case FinishPush(_) => case WaitDone(_, _) =>
    case TakeIpi(_, _) => case DrainAll(_) => case Fetch(_) => case DrainEnd(_) =>
    case RunCallback(_) => case Finish(_) =>
    case ReleaseLease(_) => case DisableBegin(_, _) => case DisableEnd(_) => case Enable(_, _) =>
  }

  /** While c is closed it accepts no call from another CPU. */
  lemma ClosedAcceptsNothing(s: State, step: Step, c: Cpu)
    requires Inv(s) && Enabled(s, step) && Closed(s, c)
    ensures forall k | k in Apply(s, step).accepted - s.accepted && k.cpu == c :: k.from == c
  {
    ZeroIsQuiet(s, c);
    if step.Push? {
      InvParts(s);
      CallerFacts(s, step.t);
      assert !ThreadHolds(s.threads[step.t], c);
    } else {
      OnlyPushAccepts(s, step);
    }
  }

  lemma OnlyPushAccepts(s: State, step: Step)
    requires Enabled(s, step) && !step.Push?
    ensures Apply(s, step).accepted == s.accepted
  {
    hide Enabled;
    match step
    case Begin(t, n, cpu, kind, waits) =>
    case _ =>
  }

  ghost predicate NeverEnables(steps: seq<Step>, c: Cpu) {
    forall i | 0 <= i < |steps| :: !(steps[i].Enable? && steps[i].cpu == c)
  }

  /** From the end of disable_cpu on, and until c is enabled again, c is quiet and accepts only calls from itself. */
  lemma {:induction false} DisabledIsQuiet(s: State, steps: seq<Step>, c: Cpu)
    requires Inv(s) && Closed(s, c) && OrderlyRun(s, steps) && NeverEnables(steps, c)
    ensures IsRun(s, steps) && Closed(After(s, steps), c) && Quiet(After(s, steps), c)
    ensures forall k | k in After(s, steps).accepted - s.accepted && k.cpu == c :: k.from == c
    decreases |steps|
  {
    OrderlyIsRun(s, steps);
    if steps == [] {
      ZeroIsQuiet(s, c);
    } else {
      StepInv(s, steps[0]);
      ClosedStays(s, steps[0], c);
      ClosedAcceptsNothing(s, steps[0], c);
      DisabledIsQuiet(Apply(s, steps[0]), steps[1..], c);
    }
  }

  /** A thread waiting in disable_cpu, on a CPU whose disable bit is on. */
  predicate Disabling(s: State, t: Tid, c: Cpu) {
    c in s.lease && s.lease[c].disabled && t in s.threads && s.threads[t].pc == DisableWait(c)
  }

  /** Nobody but enable_cpu turns the bit off, and a waiting thread stays where it is. */
  lemma DisablingStays(s: State, step: Step, t: Tid, c: Cpu)
    requires Enabled(s, step) && Disabling(s, t, c) && !(step.Enable? && step.cpu == c) && step != DisableEnd(t)
    ensures Disabling(Apply(s, step), t, c)
  {
    StaysWaiting(s, step, t);
    OtherThread(s, step, t);
    if !ChangesLease(step) {
      SameLease(s, step);
      hide Enabled, Apply;
    }
  }

  lemma StaysWaiting(s: State, step: Step, t: Tid)
    requires Enabled(s, step) && t in s.threads && s.threads[t].pc.DisableWait? && step != DisableEnd(t)
    ensures step.t != t
  {
  }

  lemma {:induction false} DisablingRun(s: State, steps: seq<Step>, t: Tid, c: Cpu)
    requires IsRun(s, steps) && Disabling(s, t, c) && NeverEnables(steps, c) && DisableEnd(t) !in steps
    ensures Disabling(After(s, steps), t, c)
    decreases |steps|
  {
    if steps != [] {
      assert steps[0] in steps;
      DisablingStays(s, steps[0], t, c);
      DisablingRun(Apply(s, steps[0]), steps[1..], t, c);
    }
  }

  /**
    disable_cpu, whatever else goes on meanwhile: if c is not enabled in between, then when the call returns
    no call from another CPU is pending or running on c, and until c is enabled again it stays so and c
    accepts calls from itself only.
   */
  lemma DisableCloses(s: State, t: Tid, c: Cpu, during: seq<Step>, later: seq<Step>)
    requires Inv(s) && Enabled(s, DisableBegin(t, c))
    requires var s1 := Apply(s, DisableBegin(t, c));
             && OrderlyRun(s1, during) && NeverEnables(during, c) && DisableEnd(t) !in during && IsRun(s1, during)
             && var s2 := After(s1, during);
             && Enabled(s2, DisableEnd(t)) && OrderlyRun(Apply(s2, DisableEnd(t)), later) && NeverEnables(later, c)
    ensures var s2 := After(Apply(s, DisableBegin(t, c)), during);
            var s3 := Apply(s2, DisableEnd(t));
            && Closed(s3, c) && Quiet(s3, c)
            && IsRun(s3, later) && Closed(After(s3, later), c) && Quiet(After(s3, later), c)
            && forall k | k in After(s3, later).accepted - s3.accepted && k.cpu == c :: k.from == c
  {
    hide *;
    var s1 := Apply(s, DisableBegin(t, c));
    DisableStarts(s, t, c);
    DisablingRun(s1, during, t, c);
    RunsKeepInv(s1, during);
    DisableEnds(After(s1, during), t, c);
    DisabledIsQuiet(Apply(After(s1, during), DisableEnd(t)), later, c);
  }

  lemma DisableStarts(s: State, t: Tid, c: Cpu)
    requires Inv(s) && Enabled(s, DisableBegin(t, c))
    ensures Inv(Apply(s, DisableBegin(t, c))) && Disabling(Apply(s, DisableBegin(t, c)), t, c)
  {
    StepInv(s, DisableBegin(t, c));
    hide Inv;
  }

  lemma DisableEnds(s: State, t: Tid, c: Cpu)
    requires Inv(s) && Enabled(s, DisableEnd(t)) && Disabling(s, t, c)
    ensures var s' := Apply(s, DisableEnd(t));
            Inv(s') && Closed(s', c) && Quiet(s', c)
  {
    StepInv(s, DisableEnd(t));
    ZeroIsQuiet(Apply(s, DisableEnd(t)), c);
    hide Inv, Quiet;
  }

  /** enable_cpu stores zero: that keeps the invariant if and only if no lease is held. */
  lemma EnableIsExact(s: State, t: Tid, c: Cpu)
    requires Inv(s) && Enabled(s, Enable(t, c))
    ensures Inv(Apply(s, Enable(t, c))) <==> s.lease[c].count == 0
  {
    if s.lease[c].count == 0 {
      StepInv(s, Enable(t, c));
    } else {
      assert LeaseOk(s, c);
      var s' := Apply(s, Enable(t, c));
      assert NodeHolders(s', c) == NodeHolders(s, c);
      ThreadHoldersAfter(s, s', t, c);
      assert !LeaseOk(s', c);
    }
  }

  // ---- completion and wake-up -------------------------------------------------------------

  /** A wait ends only after the callback ran, once, and when no drainer has the node any more. */
  lemma WaitEndsAfterRun(s: State, t: Tid, n: Node)
    requires Inv(s) && Enabled(s, WaitDone(t, n))
    ensures s.nodes[n].ran == 1 && s.nodes[n].loc == Free
    ensures forall u | u in s.threads :: n !in s.threads[u].rest
    ensures forall u | u in s.threads && (s.threads[u].pc.Invoke? || s.threads[u].pc.Complete?) ::
              s.threads[u].pc.cur != n
    ensures forall c | c in s.queue :: n !in s.queue[c]
  {
    assert NodeOk(s, n);
    FreeIsNowhere(s, n);
  }

  lemma FreeIsNowhere(s: State, n: Node)
    requires Inv(s) && n in s.nodes && s.nodes[n].loc == Free
    ensures forall u | u in s.threads :: n !in s.threads[u].rest
    ensures forall u | u in s.threads && (s.threads[u].pc.Invoke? || s.threads[u].pc.Complete?) ::
              s.threads[u].pc.cur != n
    ensures forall c | c in s.queue :: n !in s.queue[c]
  {
    forall u | u in s.threads ensures n !in s.threads[u].rest {
      assert ThreadOk(s, u);
    }
    forall u | u in s.threads && (s.threads[u].pc.Invoke? || s.threads[u].pc.Complete?)
      ensures s.threads[u].pc.cur != n
    {
      assert ThreadOk(s, u);
    }
    forall c | c in s.queue ensures n !in s.queue[c] {
      assert QueueOk(s, c);
    }
  }

  /** The node that a step of a drainer reads or writes, if any. */
  ghost function Touched(s: State, step: Step): Ptr
    requires Enabled(s, step)
  {
    match step
    case Fetch(t) => At(s.threads[t].pc.at.node)
    case RunCallback(t) => At(s.threads[t].pc.cur)
    case Finish(t) => At(s.threads[t].pc.cur)
    case _ => Null
  }

  /** No drainer touches a node whose completion was signalled. */
  lemma NoTouchAfterDone(s: State, step: Step)
    requires Inv(s) && Enabled(s, step) && Touched(s, step).At?
    ensures var n := Touched(s, step).node;
            n in s.nodes && !s.nodes[n].done && (s.nodes[n].loc == Batch(step.t) || s.nodes[n].loc == Current(step.t))
  {
    InvParts(s);
    if step.Fetch? {
      FetchFacts(s, step.t);
    } else {
      DispatcherFacts(s, step.t);
    }
  }

  /** A queue that is not empty has an interrupt outstanding or a thread about to send it or to drain. */
  lemma NoLostWakeup(s: State, c: Cpu)
    requires Inv(s) && c in s.queue && s.head[c] != Null
    ensures c in s.ipi || exists t | t in s.threads :: WillWake(s.threads[t], c)
  {
    assert QueueOk(s, c) && WakeOk(s, c);
  }

  /** The tests in the guards of fetch and release that the code does not make always succeed. */
  lemma GuardsAreFree(s: State, t: Tid)
    requires Inv(s) && t in s.threads
    ensures s.threads[t].pc.Walk? && s.threads[t].pc.at.At? ==> Enabled(s, Fetch(t))
    ensures s.threads[t].pc.Release? ==> Enabled(s, ReleaseLease(t))
    ensures s.threads[t].pc.CasHead? ==>
              var c := s.threads[t].cpu;
              c in s.head && (s.head[c] == s.threads[t].pc.expected ==> Enabled(s, Push(t)))
  {
    assert ThreadOk(s, t);
    if s.threads[t].pc.Release? && s.threads[t].pc.lease {
      assert LeaseOk(s, s.threads[t].self);
      assert t in ThreadHolders(s, s.threads[t].self);
    }
  }
}
