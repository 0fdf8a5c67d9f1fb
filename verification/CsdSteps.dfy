/** Every step keeps the invariant. */
module CsdSteps {
  import opened Csd
  import opened CsdFrame

  // ---- steps that move one thread ---------------------------------------------------------

  predicate CallerMove(step: Step) {
    step.CheckPassed? || step.LeaseRetry? || step.ReadHead? || step.PushRetry?
  }

  predicate PcOnly(step: Step) {
    || CallerMove(step) || step.FinishPush?
    || step.DrainEnd? || step.DisableBegin? || step.DisableEnd? || step.Enable?
  }

  lemma CallerMoveThread(s: State, step: Step)
    requires Shape(s) && CallerMove(step) && Enabled(s, step)
    ensures ThreadOk(Apply(s, step), step.t)
  {
    hide Shape;
    CallerFacts(s, step.t);
  }

  lemma OtherMoveThread(s: State, step: Step)
    requires Shape(s) && PcOnly(step) && !CallerMove(step) && Enabled(s, step)
    ensures ThreadOk(Apply(s, step), step.t)
  {
    hide Shape;
    CallerFacts(s, step.t);
  }

  /** s' differs from s in one pc, in disable bits and in an interrupt sent to the thread's target. */
  ghost predicate PcEffect(s: State, s': State, t: Tid) {
    && t in s.threads && t in s'.threads
    && s' == s.(threads := s.threads[t := s.threads[t].(pc := s'.threads[t].pc)], lease := s'.lease, ipi := s'.ipi)
    && s'.lease.Keys == s.lease.Keys && (forall c | c in s.lease :: s'.lease[c].count == s.lease[c].count)
    && (s'.ipi == s.ipi || (s'.ipi == s.ipi + {s.threads[t].cpu} && s.threads[t].pc.AfterPush?))
  }

  lemma CallerMoveEffect(s: State, step: Step)
    requires CallerMove(step) && Enabled(s, step)
    ensures PcEffect(s, Apply(s, step), step.t)
  {
  }

  lemma OtherMoveEffect(s: State, step: Step)
    requires PcOnly(step) && !CallerMove(step) && Enabled(s, step) && Orderly(s, step)
    ensures PcEffect(s, Apply(s, step), step.t)
  {
  }

  lemma CallerMoveHolds(s: State, step: Step)
    requires CallerMove(step) && Enabled(s, step)
    ensures var s', t := Apply(s, step), step.t;
            && SamePlace(s.threads[t], s'.threads[t])
            && forall c :: ThreadHolds(s'.threads[t], c) == ThreadHolds(s.threads[t], c)
  {
  }

  lemma OtherMoveHolds(s: State, step: Step)
    requires PcOnly(step) && !CallerMove(step) && Enabled(s, step)
    ensures var s', t := Apply(s, step), step.t;
            && SamePlace(s.threads[t], s'.threads[t])
            && forall c :: ThreadHolds(s'.threads[t], c) == ThreadHolds(s.threads[t], c)
  {
  }

  lemma PcOnlyWakes(s: State, step: Step)
    requires PcOnly(step) && Enabled(s, step)
    ensures var s', t := Apply(s, step), step.t;
            forall c :: WillWake(s.threads[t], c) ==> WillWake(s'.threads[t], c) || c in s'.ipi
  {
  }

  lemma PcOnlyInv(s: State, step: Step)
    requires Inv(s) && PcOnly(step) && Enabled(s, step) && Orderly(s, step)
    ensures Inv(Apply(s, step))
  {
    hide Shape, HistoryOk, Leases, Wakes, Inv, ThreadOk, Apply, Enabled, PcOnly, CallerMove, SamePlace, ThreadHolds,
        WillWake, Orderly;
    InvParts(s);
    PcOnlyWakes(s, step);
    var s', t := Apply(s, step), step.t;
    if CallerMove(step) {
      CallerMoveThread(s, step);
      CallerMoveHolds(s, step);
      CallerMoveEffect(s, step);
    } else {
      OtherMoveThread(s, step);
      OtherMoveHolds(s, step);
      OtherMoveEffect(s, step);
    }
    CallerFacts(s, t);
    IpiFacts(s, s', t);
    PcShape(s, s', t);
    HistoryFrame(s, s');
    PcLeases(s, s', t);
    WakeFrame(s, s', t);
    InvParts(s');
  }

  lemma IpiFacts(s: State, s': State, t: Tid)
    requires Shape(s) && PcEffect(s, s', t)
    ensures s'.ipi <= s.head.Keys
  {
    CallerFacts(s, t);
  }

  lemma AcquireInv(s: State, t: Tid)
    requires Inv(s) && Enabled(s, LeaseAcquire(t))
    ensures Inv(Apply(s, LeaseAcquire(t)))
  {
    hide Shape, HistoryOk, Leases, Wakes, Inv;
    var s' := Apply(s, LeaseAcquire(t));
    InvParts(s);
    CallerFacts(s, t);
    assert ThreadOk(s', t);
    PcShape(s, s', t);
    HistoryFrame(s, s');
    LeaseFacts(s, s.threads[t].cpu);
    LeaseMove(s, s', t, s.threads[t].cpu);
    WakeFrame(s, s', t);
    InvParts(s');
  }

  lemma LeaseFacts(s: State, c: Cpu)
    requires Leases(s) && c in s.lease
    ensures s.lease[c].count <= MAX_LEASES
  {
    assert LeaseOk(s, c);
  }

  lemma CallerFacts(s: State, t: Tid)
    requires Shape(s) && t in s.threads
    ensures ThreadOk(s, t) && Keys(s)
    ensures Calling(s.threads[t].pc) ==> CallerOk(s, t) && NodeOk(s, s.threads[t].node)
    ensures forall m | m in s.nodes && (s.nodes[m].loc == Held(t) || s.nodes[m].loc == Current(t)) ::
              NodeOk(s, m) && (Calling(s.threads[t].pc) ==> m == s.threads[t].node)
  {
    assert ThreadOk(s, t);
    if Calling(s.threads[t].pc) {
      assert NodeOk(s, s.threads[t].node);
    }
    forall m | m in s.nodes && (s.nodes[m].loc == Held(t) || s.nodes[m].loc == Current(t))
      ensures NodeOk(s, m) && (Calling(s.threads[t].pc) ==> m == s.threads[t].node)
    {
      assert NodeOk(s, m);
    }
  }

  // ---- steps of a caller on the node it holds ---------------------------------------------

  lemma BeginInv(s: State, t: Tid, n: Node, cpu: Cpu, kind: Kind, waits: bool)
    requires Inv(s) && Enabled(s, Begin(t, n, cpu, kind, waits))
    ensures Inv(Apply(s, Begin(t, n, cpu, kind, waits)))
  {
    hide Shape, HistoryOk, Leases, Wakes, Inv;
    var s' := Apply(s, Begin(t, n, cpu, kind, waits));
    InvParts(s);
    CallerFacts(s, t);
    assert ThreadOk(s', t) && NodeOk(s', n);
    LocalShape(s, s', t, n);
    BeginHistory(s, t, n, cpu, kind, waits);
    LeaseFrame(s, s');
    WakeFrame(s, s', t);
    InvParts(s');
  }

  lemma BeginHistory(s: State, t: Tid, n: Node, cpu: Cpu, kind: Kind, waits: bool)
    requires HistoryOk(s) && Enabled(s, Begin(t, n, cpu, kind, waits))
    ensures HistoryOk(Apply(s, Begin(t, n, cpu, kind, waits)))
  {
    var s' := Apply(s, Begin(t, n, cpu, kind, waits));
    forall k | k in s'.accepted
      ensures k.node in s'.nodes && k.inc <= s'.nodes[k.node].inc
      ensures k !in s'.dispatched <==> (k.inc == s'.nodes[k.node].inc && Pending(s'.nodes[k.node]))
      ensures k.inc == s'.nodes[k.node].inc ==> k == CallOf(s'.nodes, k.node) && !s'.nodes[k.node].loc.Held?
    {
      assert k.node in s.nodes && k.inc <= s.nodes[k.node].inc;
    }
  }

  lemma RefuseInv(s: State, t: Tid)
    requires Inv(s) && Enabled(s, Refuse(t))
    ensures Inv(Apply(s, Refuse(t)))
  {
    hide Shape, HistoryOk, Leases, Wakes, Inv;
    var s', n := Apply(s, Refuse(t)), s.threads[t].node;
    InvParts(s);
    CallerFacts(s, t);
    assert ThreadOk(s', t) && NodeOk(s', n);
    LocalShape(s, s', t, n);
    RefuseHistory(s, t);
    LeaseFrame(s, s');
    WakeFrame(s, s', t);
    InvParts(s');
  }

  lemma RefuseHistory(s: State, t: Tid)
    requires HistoryOk(s) && Enabled(s, Refuse(t)) && s.nodes[s.threads[t].node].loc.Held?
    ensures HistoryOk(Apply(s, Refuse(t)))
  {
    var s' := Apply(s, Refuse(t));
    forall k | k in s'.accepted
      ensures k.node in s'.nodes && k.inc <= s'.nodes[k.node].inc
      ensures k !in s'.dispatched <==> (k.inc == s'.nodes[k.node].inc && Pending(s'.nodes[k.node]))
      ensures k.inc == s'.nodes[k.node].inc ==> k == CallOf(s'.nodes, k.node) && !s'.nodes[k.node].loc.Held?
    {
      assert k.node in s.nodes && k.inc <= s.nodes[k.node].inc;
    }
  }

  lemma MarkLeaseInv(s: State, t: Tid)
    requires Inv(s) && Enabled(s, MarkLease(t))
    ensures Inv(Apply(s, MarkLease(t)))
  {
    hide Shape, HistoryOk, Leases, Wakes, Inv;
    var s', n := Apply(s, MarkLease(t)), s.threads[t].node;
    InvParts(s);
    CallerFacts(s, t);
    assert ThreadOk(s', t) && NodeOk(s', n);
    LocalShape(s, s', t, n);
    HistoryFrame(s, s');
    LeaseFrame(s, s');
    WakeFrame(s, s', t);
    InvParts(s');
  }

  lemma LinkNextInv(s: State, t: Tid)
    requires Inv(s) && Enabled(s, LinkNext(t))
    ensures Inv(Apply(s, LinkNext(t)))
  {
    hide Shape, HistoryOk, Leases, Wakes, Inv;
    var s', n := Apply(s, LinkNext(t)), s.threads[t].node;
    InvParts(s);
    CallerFacts(s, t);
    assert ThreadOk(s', t) && NodeOk(s', n);
    LocalShape(s, s', t, n);
    HistoryFrame(s, s');
    LeaseFrame(s, s');
    WakeFrame(s, s', t);
    InvParts(s');
  }

  // ---- steps that touch only the queued bit or the waiter ---------------------------------

  lemma MarkQueuedInv(s: State, t: Tid)
    requires Inv(s) && Enabled(s, MarkQueued(t))
    ensures Inv(Apply(s, MarkQueued(t)))
  {
    hide Shape, HistoryOk, Leases, Wakes, Inv;
    var s', n := Apply(s, MarkQueued(t)), s.threads[t].node;
    InvParts(s);
    CallerFacts(s, t);
    SimilarNode(s, s', t, n);
    LocalShape(s, s', t, n);
    HistoryFrame(s, s');
    LeaseFrame(s, s');
    WakeFrame(s, s', t);
    InvParts(s');
  }

  lemma SimilarNode(s: State, s': State, t: Tid, n: Node)
    requires Shape(s) && Local(s, s', t, n) && Similar(s.nodes[n], s'.nodes[n])
    requires s'.nodes[n].waiter == s.nodes[n].waiter || s'.nodes[n].waiter.NoWaiter?
    requires SamePlace(s.threads[t], s'.threads[t])
    ensures NodeOk(s', n)
  {
    assert NodeOk(s, n);
  }

  lemma WaitDoneInv(s: State, t: Tid, n: Node)
    requires Inv(s) && Enabled(s, WaitDone(t, n))
    ensures Inv(Apply(s, WaitDone(t, n)))
  {
    hide Shape, HistoryOk, Leases, Wakes, Inv;
    var s' := Apply(s, WaitDone(t, n));
    InvParts(s);
    CallerFacts(s, t);
    SimilarNode(s, s', t, n);
    assert ThreadOk(s', t);
    LocalShape(s, s', t, n);
    HistoryFrame(s, s');
    LeaseFrame(s, s');
    WakeFrame(s, s', t);
    InvParts(s');
  }

  // ---- steps of a drainer on the node it dispatches ---------------------------------------

  lemma RunInv(s: State, t: Tid)
    requires Inv(s) && Enabled(s, RunCallback(t))
    ensures Inv(Apply(s, RunCallback(t)))
  {
    hide Shape, HistoryOk, Leases, Wakes, Inv;
    var s', n := Apply(s, RunCallback(t)), s.threads[t].pc.cur;
    InvParts(s);
    DispatcherFacts(s, t);
    DispatcherShape(s, s', t, n);
    RunHistory(s, t);
    LeaseFrame(s, s');
    WakeFrame(s, s', t);
    InvParts(s');
  }

  lemma DispatcherFacts(s: State, t: Tid)
    requires Shape(s) && t in s.threads && (s.threads[t].pc.Invoke? || s.threads[t].pc.Complete?)
    ensures var pc := s.threads[t].pc;
            && ThreadOk(s, t) && BatchOk(s, t, pc.next) && DispatchOk(s, t, pc.cur, pc.kind, pc.lease)
            && NodeOk(s, pc.cur) && s.nodes[pc.cur].ran == (if pc.Invoke? then 0 else 1)
            && Keys(s)
            && forall m | m in s.nodes && (s.nodes[m].loc == Held(t) || s.nodes[m].loc == Current(t)) :: m == pc.cur
  {
    assert ThreadOk(s, t);
    assert NodeOk(s, s.threads[t].pc.cur);
    forall m | m in s.nodes && (s.nodes[m].loc == Held(t) || s.nodes[m].loc == Current(t))
      ensures m == s.threads[t].pc.cur
    {
      assert NodeOk(s, m);
    }
  }

  /** The batch of t does not contain the node it dispatches, so changing that node is harmless. */
  lemma DispatcherShape(s: State, s': State, t: Tid, n: Node)
    requires Shape(s) && t in s.threads && (s.threads[t].pc.Invoke? || s.threads[t].pc.Complete?)
    requires n == s.threads[t].pc.cur && Local(s, s', t, n)
    requires NodeOk(s', n)
    requires match s'.threads[t].pc
             case Complete(m, p, k, l) =>
               m == n && p == s.threads[t].pc.next && DispatchOk(s', t, n, k, l) && s'.nodes[n].ran == 1
             case Release(p, _) => p == s.threads[t].pc.next
             case _ => false
    ensures Shape(s')
  {
    DispatcherFacts(s, t);
    BatchFrame(s, s', t, s.threads[t].pc.next, n);
    LocalShape(s, s', t, n);
  }

  lemma BatchFrame(s: State, s': State, t: Tid, p: Ptr, n: Node)
    requires t in s.threads && BatchOk(s, t, p)
    requires t in s'.threads && s'.threads[t].rest == s.threads[t].rest
    requires n in s.nodes && s.nodes[n].loc != Batch(t) && n in s'.nodes && s'.nodes == s.nodes[n := s'.nodes[n]]
    ensures BatchOk(s', t, p)
  {
  }

  lemma RunHistory(s: State, t: Tid)
    requires HistoryOk(s) && Enabled(s, RunCallback(t))
    requires var n := s.threads[t].pc.cur;
             s.nodes[n].loc == Current(t) && s.nodes[n].ran == 0 && s.nodes[n].target == s.threads[t].self
    ensures HistoryOk(Apply(s, RunCallback(t)))
    ensures var n := s.threads[t].pc.cur;
            var k := CallOf(s.nodes, n);
            k in s.accepted && k !in s.dispatched
  {
    var s', n := Apply(s, RunCallback(t)), s.threads[t].pc.cur;
    var call := CallOf(s.nodes, n);
    assert call in s.accepted && Pending(s.nodes[n]);
    forall k | k in s'.accepted
      ensures k.node in s'.nodes && k.inc <= s'.nodes[k.node].inc
      ensures k !in s'.dispatched <==> (k.inc == s'.nodes[k.node].inc && Pending(s'.nodes[k.node]))
      ensures k.inc == s'.nodes[k.node].inc ==> k == CallOf(s'.nodes, k.node) && !s'.nodes[k.node].loc.Held?
    {
      assert k.node in s.nodes && k.inc <= s.nodes[k.node].inc;
      if k.node == n && k.inc == s.nodes[n].inc {
        assert k == call;
      }
    }
  }

  lemma FinishInv(s: State, t: Tid)
    requires Inv(s) && Enabled(s, Finish(t))
    ensures Inv(Apply(s, Finish(t)))
  {
    hide Shape, HistoryOk, Leases, Wakes, Inv;
    var s', n := Apply(s, Finish(t)), s.threads[t].pc.cur;
    InvParts(s);
    DispatcherFacts(s, t);
    assert NodeOk(s', n);
    DispatcherShape(s, s', t, n);
    HistoryFrame(s, s');
    LeaseFrame(s, s');
    WakeFrame(s, s', t);
    InvParts(s');
  }

  lemma ReleaseInv(s: State, t: Tid)
    requires Inv(s) && Enabled(s, ReleaseLease(t))
    ensures Inv(Apply(s, ReleaseLease(t)))
  {
    hide Shape, HistoryOk, Leases, Wakes, Inv;
    var s' := Apply(s, ReleaseLease(t));
    InvParts(s);
    CallerFacts(s, t);
    assert ThreadOk(s', t);
    PcShape(s, s', t);
    HistoryFrame(s, s');
    LeaseFacts(s, s.threads[t].self);
    LeaseMove(s, s', t, s.threads[t].self);
    WakeFrame(s, s', t);
    InvParts(s');
  }
}
