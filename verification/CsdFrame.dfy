/** Which parts of the invariant a step leaves alone. */
module CsdFrame {
  import opened Csd

  /** The structural part of the invariant: lists, threads and nodes. */
  ghost predicate Shape(s: State) {
    && Keys(s)
    && (forall c {:trigger QueueOk(s, c)} | c in s.head :: QueueOk(s, c))
    && (forall t {:trigger ThreadOk(s, t)} | t in s.threads :: ThreadOk(s, t))
    && (forall n {:trigger NodeOk(s, n)} | n in s.nodes :: NodeOk(s, n))
  }

  ghost predicate Leases(s: State) {
    forall c {:trigger LeaseOk(s, c)} | c in s.lease :: LeaseOk(s, c)
  }

  ghost predicate Wakes(s: State) {
    forall c {:trigger WakeOk(s, c)} | c in s.queue :: WakeOk(s, c)
  }

  lemma InvParts(s: State)
    ensures Inv(s) <==> Shape(s) && HistoryOk(s) && Leases(s) && Wakes(s)
  {
  }

  /** Equal but for the queued bit and the waiter. */
  ghost predicate Similar(a: NodeRec, b: NodeRec) {
    a.(queued := b.queued, waiter := b.waiter) == b
  }

  predicate Of(loc: Loc, t: Tid) {
    loc == Held(t) || loc == Batch(t) || loc == Current(t)
  }

  lemma ThreadFrame(s: State, s': State, t: Tid)
    requires t in s.threads && ThreadOk(s, t)
    requires t in s'.threads && s'.threads[t] == s.threads[t]
    requires s'.head.Keys == s.head.Keys && s'.nodes.Keys == s.nodes.Keys
    requires forall n {:trigger s'.nodes[n]} | n in s.nodes && Of(s.nodes[n].loc, t) :: Similar(s.nodes[n], s'.nodes[n])
    ensures ThreadOk(s', t)
  {
  }

  lemma QueueFrame(s: State, s': State, c: Cpu)
    requires c in s.head && c in s.queue && QueueOk(s, c)
    requires c in s'.head && c in s'.queue && s'.head[c] == s.head[c] && s'.queue[c] == s.queue[c]
    requires s'.nodes.Keys == s.nodes.Keys
    requires forall n {:trigger s'.nodes[n]} | n in s.nodes && s.nodes[n].loc == Queue(c) ::
              Similar(s.nodes[n], s'.nodes[n])
    ensures QueueOk(s', c)
  {
  }

  /** Node n and thread t may change; n was and is with t, or only its queued bit changes. */
  ghost predicate Local(s: State, s': State, t: Tid, n: Node) {
    && s'.head == s.head && s'.queue == s.queue && s'.lease.Keys == s.lease.Keys && s'.ipi <= s.head.Keys
    && t in s.threads && t in s'.threads && s'.threads == s.threads[t := s'.threads[t]]
    && s'.threads[t].self == s.threads[t].self && s'.threads[t].rest == s.threads[t].rest
    && n in s.nodes && n in s'.nodes && s'.nodes == s.nodes[n := s'.nodes[n]]
    && (|| (Similar(s.nodes[n], s'.nodes[n]) && SamePlace(s.threads[t], s'.threads[t]))
        || ((s.nodes[n].loc.Free? || s.nodes[n].loc == Held(t) || s.nodes[n].loc == Current(t))
            && (s'.nodes[n].loc.Free? || s'.nodes[n].loc == Held(t) || s'.nodes[n].loc == Current(t))))
  }

  /** The thread still has the same node in hand. */
  predicate SamePlace(a: Thread, b: Thread) {
    && (Calling(a.pc) ==> Calling(b.pc) && a.node == b.node)
    && (a.pc.Invoke? || a.pc.Complete? ==> (b.pc.Invoke? || b.pc.Complete?) && a.pc.cur == b.pc.cur)
  }

  lemma LocalShape(s: State, s': State, t: Tid, n: Node)
    requires Shape(s) && Local(s, s', t, n)
    requires ThreadOk(s', t) && NodeOk(s', n)
    requires forall m | m in s.nodes && m != n && (s.nodes[m].loc == Held(t) || s.nodes[m].loc == Current(t)) ::
               SamePlace(s.threads[t], s'.threads[t])
    ensures Shape(s')
  {
    hide QueueOk, ThreadOk, NodeOk;
    forall c | c in s'.head ensures QueueOk(s', c) {
      assert QueueOk(s, c);
      QueueFrame(s, s', c);
    }
    forall u | u in s'.threads ensures ThreadOk(s', u) {
      if u != t {
        assert ThreadOk(s, u);
        ThreadFrame(s, s', u);
      }
    }
    forall m | m in s'.nodes ensures NodeOk(s', m) {
      if m != n {
        assert NodeOk(s, m);
        NodeFrame(s, s', t, m);
      }
    }
  }

  lemma NodeFrame(s: State, s': State, t: Tid, m: Node)
    requires m in s.nodes && m in s'.nodes && s'.nodes[m] == s.nodes[m] && NodeOk(s, m)
    requires s'.queue == s.queue
    requires t in s.threads && t in s'.threads && s'.threads == s.threads[t := s'.threads[t]]
    requires s'.threads[t].self == s.threads[t].self && s'.threads[t].rest == s.threads[t].rest
    requires s.nodes[m].loc == Held(t) || s.nodes[m].loc == Current(t) ==> SamePlace(s.threads[t], s'.threads[t])
    ensures NodeOk(s', m)
  {
  }

  /** Only the pc of thread t changes, and it keeps what it has in hand. */
  lemma PcShape(s: State, s': State, t: Tid)
    requires Shape(s)
    requires s'.head == s.head && s'.queue == s.queue && s'.lease.Keys == s.lease.Keys && s'.ipi <= s.head.Keys
    requires t in s.threads && t in s'.threads && s'.threads == s.threads[t := s.threads[t].(pc := s'.threads[t].pc)]
    requires s'.nodes == s.nodes
    requires SamePlace(s.threads[t], s'.threads[t]) && ThreadOk(s', t)
    ensures Shape(s')
  {
    hide QueueOk, ThreadOk, NodeOk;
    forall c | c in s'.head ensures QueueOk(s', c) {
      assert QueueOk(s, c);
      QueueFrame(s, s', c);
    }
    forall u | u in s'.threads ensures ThreadOk(s', u) {
      if u != t {
        assert ThreadOk(s, u);
        ThreadFrame(s, s', u);
      }
    }
    forall m | m in s'.nodes ensures NodeOk(s', m) {
      assert NodeOk(s, m);
      NodeFrame(s, s', t, m);
    }
  }

  // ---- history ----------------------------------------------------------------------------

  lemma HistoryFrame(s: State, s': State)
    requires HistoryOk(s) && s'.accepted == s.accepted && s'.dispatched == s.dispatched
    requires s'.nodes.Keys == s.nodes.Keys
    requires forall n {:trigger s'.nodes[n]} {:trigger s.nodes[n]} | n in s.nodes ::
               && s'.nodes[n].inc == s.nodes[n].inc && s'.nodes[n].target == s.nodes[n].target
               && s'.nodes[n].from == s.nodes[n].from
               && Pending(s'.nodes[n]) == Pending(s.nodes[n]) && s'.nodes[n].loc.Held? == s.nodes[n].loc.Held?
    ensures HistoryOk(s')
  {
    forall k | k in s.accepted
      ensures k.node in s'.nodes && k.inc <= s'.nodes[k.node].inc
      ensures k !in s.dispatched <==> (k.inc == s'.nodes[k.node].inc && Pending(s'.nodes[k.node]))
      ensures k.inc == s'.nodes[k.node].inc ==> k == CallOf(s'.nodes, k.node) && !s'.nodes[k.node].loc.Held?
    {
      assert s'.nodes[k.node].inc == s.nodes[k.node].inc;
    }
  }

  // ---- leases -----------------------------------------------------------------------------

  /** No holder comes or goes on any CPU. */
  lemma LeaseFrame(s: State, s': State)
    requires Leases(s) && s'.lease.Keys == s.lease.Keys
    requires forall c | c in s.lease :: s'.lease[c].count == s.lease[c].count
    requires s'.nodes.Keys == s.nodes.Keys && s'.threads.Keys == s.threads.Keys
    requires forall n, c {:trigger NodeHolds(s', n, c)} | n in s.nodes :: NodeHolds(s', n, c) == NodeHolds(s, n, c)
    requires forall t, c {:trigger ThreadHolds(s'.threads[t], c)} | t in s.threads ::
               ThreadHolds(s'.threads[t], c) == ThreadHolds(s.threads[t], c)
    ensures Leases(s')
  {
    forall c | c in s'.lease ensures LeaseOk(s', c) {
      assert LeaseOk(s, c);
      assert NodeHolders(s', c) == NodeHolders(s, c);
      assert ThreadHolders(s', c) == ThreadHolders(s, c);
    }
  }

  /** The pc of thread t changes and keeps the lease it holds, if any. */
  lemma PcLeases(s: State, s': State, t: Tid)
    requires Leases(s) && s'.lease.Keys == s.lease.Keys
    requires forall c | c in s.lease :: s'.lease[c].count == s.lease[c].count
    requires s'.nodes == s.nodes
    requires t in s.threads && t in s'.threads && s'.threads == s.threads[t := s'.threads[t]]
    requires forall c :: ThreadHolds(s'.threads[t], c) == ThreadHolds(s.threads[t], c)
    ensures Leases(s')
  {
    hide NodeHolds, ThreadHolds, Leases;
    forall n, c | n in s.nodes ensures NodeHolds(s', n, c) == NodeHolds(s, n, c) {
      SameNodeHolds(s, s', n, c);
    }
    LeaseFrame(s, s');
  }

  lemma SameNodeHolds(s: State, s': State, n: Node, c: Cpu)
    requires n in s.nodes && s'.nodes == s.nodes
    ensures NodeHolds(s', n, c) == NodeHolds(s, n, c)
  {
  }

  /** Thread t alone comes or goes as a holder, on CPU c0 alone, and the count follows. */
  lemma LeaseMove(s: State, s': State, t: Tid, c0: Cpu)
    requires Leases(s) && s'.lease.Keys == s.lease.Keys && c0 in s.lease
    requires t in s.threads && t in s'.threads && s'.threads == s.threads[t := s'.threads[t]]
    requires forall c | c in s.lease && c != c0 :: s'.lease[c].count == s.lease[c].count
    requires s'.nodes.Keys == s.nodes.Keys
    requires forall n, c {:trigger NodeHolds(s', n, c)} | n in s.nodes :: NodeHolds(s', n, c) == NodeHolds(s, n, c)
    requires forall c | c != c0 :: ThreadHolds(s'.threads[t], c) == ThreadHolds(s.threads[t], c)
    requires s'.lease[c0].count - s.lease[c0].count ==
               (if ThreadHolds(s'.threads[t], c0) then 1 else 0) - (if ThreadHolds(s.threads[t], c0) then 1 else 0)
    requires s'.lease[c0].count <= MAX_LEASES
    ensures Leases(s')
  {
    forall c | c in s'.lease ensures LeaseOk(s', c) {
      assert LeaseOk(s, c);
      assert NodeHolders(s', c) == NodeHolders(s, c);
      ThreadHoldersAfter(s, s', t, c);
      hide NodeHolders, ThreadHolders, NodeHolds, ThreadHolds;
    }
  }

  /** The lease passes between node n and thread t. */
  lemma LeasePass(s: State, s': State, t: Tid, n: Node)
    requires Leases(s) && s'.lease == s.lease
    requires t in s.threads && t in s'.threads && s'.threads == s.threads[t := s'.threads[t]]
    requires n in s.nodes && n in s'.nodes && s'.nodes == s.nodes[n := s'.nodes[n]]
    requires forall c :: (ThreadHolds(s.threads[t], c) <==> NodeHolds(s', n, c))
    requires forall c :: (NodeHolds(s, n, c) <==> ThreadHolds(s'.threads[t], c))
    requires forall c :: !(ThreadHolds(s.threads[t], c) && NodeHolds(s, n, c))
    ensures Leases(s')
  {
    forall c | c in s'.lease ensures LeaseOk(s', c) {
      LeasePassAt(s, s', t, n, c);
    }
  }

  lemma LeasePassAt(s: State, s': State, t: Tid, n: Node, c: Cpu)
    requires c in s.lease && LeaseOk(s, c) && s'.lease == s.lease
    requires t in s.threads && t in s'.threads && s'.threads == s.threads[t := s'.threads[t]]
    requires n in s.nodes && n in s'.nodes && s'.nodes == s.nodes[n := s'.nodes[n]]
    requires ThreadHolds(s.threads[t], c) <==> NodeHolds(s', n, c)
    requires NodeHolds(s, n, c) <==> ThreadHolds(s'.threads[t], c)
    requires !(ThreadHolds(s.threads[t], c) && NodeHolds(s, n, c))
    ensures LeaseOk(s', c)
  {
    NodeHoldersAfter(s, s', n, c);
    ThreadHoldersAfter(s, s', t, c);
    hide *;
    LeaseOkIs(s, c);
    LeaseOkIs(s', c);
  }

  lemma LeaseOkIs(s: State, c: Cpu)
    requires c in s.lease
    ensures LeaseOk(s, c) <==> s.lease[c].count == |NodeHolders(s, c)| + |ThreadHolders(s, c)| <= MAX_LEASES
  {
  }

  /** One node changes: it alone joins or leaves the holders. */
  lemma NodeHoldersAfter(s: State, s': State, n: Node, c: Cpu)
    requires n in s.nodes && n in s'.nodes && s'.nodes == s.nodes[n := s'.nodes[n]]
    ensures |NodeHolders(s', c)| == |NodeHolders(s, c)|
              + (if NodeHolds(s', n, c) then 1 else 0) - (if NodeHolds(s, n, c) then 1 else 0)
  {
    var a := NodeHolders(s, c) - {n};
    forall m | m in s.nodes && m != n ensures NodeHolds(s', m, c) == NodeHolds(s, m, c) {
    }
    hide NodeHolds;
    assert NodeHolders(s, c) == if NodeHolds(s, n, c) then a + {n} else a;
    assert NodeHolders(s', c) == if NodeHolds(s', n, c) then a + {n} else a;
  }

  /** One thread moves: it alone joins or leaves the holders. */
  lemma ThreadHoldersAfter(s: State, s': State, t: Tid, c: Cpu)
    requires t in s.threads && t in s'.threads && s'.threads == s.threads[t := s'.threads[t]]
    ensures |ThreadHolders(s', c)| == |ThreadHolders(s, c)|
              + (if ThreadHolds(s'.threads[t], c) then 1 else 0) - (if ThreadHolds(s.threads[t], c) then 1 else 0)
  {
    hide ThreadHolds;
    var a := ThreadHolders(s, c) - {t};
    assert ThreadHolders(s, c) == if ThreadHolds(s.threads[t], c) then a + {t} else a;
    assert ThreadHolders(s', c) == if ThreadHolds(s'.threads[t], c) then a + {t} else a;
  }

  // ---- wake-ups ---------------------------------------------------------------------------

  /** Queues keep what they hold, and whoever was going to wake a CPU still is, or has done so. */
  lemma WakeFrame(s: State, s': State, t: Tid)
    requires Wakes(s) && s'.queue == s.queue
    requires t in s.threads && t in s'.threads && s'.threads == s.threads[t := s'.threads[t]]
    requires s.ipi <= s'.ipi
    requires forall c :: WillWake(s.threads[t], c) ==> WillWake(s'.threads[t], c) || c in s'.ipi
    ensures Wakes(s')
  {
    forall c | c in s'.queue ensures WakeOk(s', c) {
      assert WakeOk(s, c);
      if s.queue[c] != [] && c !in s.ipi {
        var u :| u in s.threads && WillWake(s.threads[u], c);
        assert u in s'.threads && (WillWake(s'.threads[u], c) || c in s'.ipi);
      }
    }
  }
}
