/** The steps that move nodes between lists: push, drain all and fetch; and new threads. */
module CsdLists {
  import opened Csd
  import opened CsdFrame
  import opened CsdSteps

  // ---- new threads ------------------------------------------------------------------------

  predicate Starts(step: Step) {
    step.Spawn? || step.TakeIpi?
  }

  lemma StartShape(s: State, step: Step)
    requires Shape(s) && Starts(step) && Enabled(s, step)
    ensures Shape(Apply(s, step))
  {
    var s' := Apply(s, step);
    hide QueueOk, NodeOk;
    forall c | c in s'.head ensures QueueOk(s', c) {
      assert QueueOk(s, c);
      QueueFrame(s, s', c);
    }
    forall u | u in s'.threads ensures ThreadOk(s', u) {
      if u in s.threads {
        assert ThreadOk(s, u);
        ThreadFrame(s, s', u);
      }
    }
    forall m | m in s'.nodes ensures NodeOk(s', m) {
      assert NodeOk(s, m);
      StartNode(s, step, m);
    }
  }

  lemma StartNode(s: State, step: Step, m: Node)
    requires Starts(step) && Enabled(s, step) && m in s.nodes && NodeOk(s, m)
    ensures NodeOk(Apply(s, step), m)
  {
  }

  lemma StartLeases(s: State, step: Step)
    requires Leases(s) && Starts(step) && Enabled(s, step)
    ensures Leases(Apply(s, step))
  {
    var s' := Apply(s, step);
    forall c | c in s'.lease ensures LeaseOk(s', c) {
      assert LeaseOk(s, c);
      assert NodeHolders(s', c) == NodeHolders(s, c);
      assert ThreadHolders(s', c) == ThreadHolders(s, c);
    }
  }

  lemma StartWakes(s: State, step: Step)
    requires Wakes(s) && Starts(step) && Enabled(s, step)
    ensures Wakes(Apply(s, step))
  {
    var s' := Apply(s, step);
    forall c | c in s'.queue ensures WakeOk(s', c) {
      assert WakeOk(s, c);
      if s.queue[c] != [] {
        if c in s.ipi {
          assert c in s'.ipi || WillWake(s'.threads[step.t], c);
        } else {
          var u :| u in s.threads && WillWake(s.threads[u], c);
          assert u in s'.threads && WillWake(s'.threads[u], c);
        }
      }
    }
  }

  lemma StartInv(s: State, step: Step)
    requires Inv(s) && Starts(step) && Enabled(s, step)
    ensures Inv(Apply(s, step))
  {
    hide Shape, HistoryOk, Leases, Wakes, Inv;
    InvParts(s);
    StartShape(s, step);
    HistoryFrame(s, Apply(s, step));
    StartLeases(s, step);
    StartWakes(s, step);
    InvParts(Apply(s, step));
  }

  // ---- push -------------------------------------------------------------------------------

  lemma PushQueue(s: State, t: Tid)
    requires Shape(s) && Enabled(s, Push(t))
    ensures QueueOk(Apply(s, Push(t)), s.threads[t].cpu)
  {
    CallerFacts(s, t);
    var s', n, c := Apply(s, Push(t)), s.threads[t].node, s.threads[t].cpu;
    assert QueueOk(s, c);
    var q, q' := s.queue[c], s'.queue[c];
    forall i | 0 <= i < |q'|
      ensures q'[i] in s'.nodes && s'.nodes[q'[i]].next == PtrAt(q', i + 1) && s'.nodes[q'[i]].loc == Queue(c)
    {
      if i > 0 {
        assert q'[i] == q[i - 1] && q[i - 1] != n;
      }
    }
  }

  lemma PushShape(s: State, t: Tid)
    requires Shape(s) && Enabled(s, Push(t))
    ensures Shape(Apply(s, Push(t)))
  {
    hide QueueOk, ThreadOk;
    CallerFacts(s, t);
    var s', n := Apply(s, Push(t)), s.threads[t].node;
    PushQueue(s, t);
    forall c | c in s'.head ensures QueueOk(s', c) {
      if c != s.threads[t].cpu {
        assert QueueOk(s, c);
        QueueFrame(s, s', c);
      }
    }
    PushThread(s, t);
    forall u | u in s'.threads ensures ThreadOk(s', u) {
      if u != t {
        assert ThreadOk(s, u);
        ThreadFrame(s, s', u);
      }
    }
    forall m | m in s'.nodes ensures NodeOk(s', m) {
      assert NodeOk(s, m);
    }
  }

  lemma PushThread(s: State, t: Tid)
    requires Shape(s) && Enabled(s, Push(t))
    ensures ThreadOk(Apply(s, Push(t)), t)
  {
    CallerFacts(s, t);
  }

  lemma PushHistory(s: State, t: Tid)
    requires HistoryOk(s) && Enabled(s, Push(t))
    requires var th := s.threads[t]; s.nodes[th.node].loc == Held(t) && s.nodes[th.node].target == th.cpu
    ensures HistoryOk(Apply(s, Push(t)))
  {
    var s', n := Apply(s, Push(t)), s.threads[t].node;
    var call := CallOf(s.nodes, n);
    assert call !in s.accepted;
    forall k | k in s'.accepted
      ensures k.node in s'.nodes && k.inc <= s'.nodes[k.node].inc
      ensures k !in s'.dispatched <==> (k.inc == s'.nodes[k.node].inc && Pending(s'.nodes[k.node]))
      ensures k.inc == s'.nodes[k.node].inc ==> k == CallOf(s'.nodes, k.node) && !s'.nodes[k.node].loc.Held?
    {
      if k != call {
        assert k in s.accepted && k.node in s.nodes && k.inc <= s.nodes[k.node].inc;
      }
    }
    forall m | m in s'.nodes && Pending(s'.nodes[m])
      ensures CallOf(s'.nodes, m) in s'.accepted
    {
      if m != n {
        assert CallOf(s.nodes, m) in s.accepted;
      }
    }
  }

  lemma PushWakes(s: State, t: Tid)
    requires Wakes(s) && Enabled(s, Push(t))
    requires var c := s.threads[t].cpu; c in s.queue && s.head[c] == PtrAt(s.queue[c], 0)
    ensures Wakes(Apply(s, Push(t)))
  {
    var s' := Apply(s, Push(t));
    forall c | c in s'.queue ensures WakeOk(s', c) {
      assert WakeOk(s, c);
      if s.queue[c] != [] && c !in s.ipi {
        var u :| u in s.threads && WillWake(s.threads[u], c);
        assert u in s'.threads && WillWake(s'.threads[u], c);
      } else if s.queue[c] == [] && c == s.threads[t].cpu {
        assert WillWake(s'.threads[t], c);
      }
    }
  }

  lemma PushFacts(s: State, t: Tid)
    requires Shape(s) && Enabled(s, Push(t))
    ensures var th := s.threads[t];
            && th.node in s.nodes && s.nodes[th.node].loc == Held(t) && s.nodes[th.node].target == th.cpu
            && s.nodes[th.node].lease == (th.cpu != th.self)
            && th.cpu in s.queue && s.head[th.cpu] == PtrAt(s.queue[th.cpu], 0)
  {
    CallerFacts(s, t);
    assert QueueOk(s, s.threads[t].cpu);
  }

  lemma PushInv(s: State, t: Tid)
    requires Inv(s) && Enabled(s, Push(t))
    ensures Inv(Apply(s, Push(t)))
  {
    hide Shape, HistoryOk, Leases, Wakes, Inv;
    InvParts(s);
    PushFacts(s, t);
    PushShape(s, t);
    PushHistory(s, t);
    LeasePass(s, Apply(s, Push(t)), t, s.threads[t].node);
    PushWakes(s, t);
    InvParts(Apply(s, Push(t)));
  }

  // ---- drain all --------------------------------------------------------------------------

  lemma DrainNode(s: State, t: Tid, m: Node)
    requires Shape(s) && Enabled(s, DrainAll(t)) && m in s.nodes
    ensures NodeOk(Apply(s, DrainAll(t)), m)
    ensures m in s.queue[s.threads[t].self] <==> s.nodes[m].loc == Queue(s.threads[t].self)
  {
    assert NodeOk(s, m) && QueueOk(s, s.threads[t].self);
    assert ThreadOk(s, t);
  }

  lemma DrainBatch(s: State, t: Tid)
    requires Shape(s) && Enabled(s, DrainAll(t))
    ensures ThreadOk(Apply(s, DrainAll(t)), t)
  {
    assert QueueOk(s, s.threads[t].self);
    assert ThreadOk(s, t);
  }

  lemma DrainShape(s: State, t: Tid)
    requires Shape(s) && Enabled(s, DrainAll(t))
    ensures Shape(Apply(s, DrainAll(t)))
  {
    hide ThreadOk, NodeOk;
    var s' := Apply(s, DrainAll(t));
    forall m | m in s'.nodes
      ensures NodeOk(s', m)
      ensures s.nodes[m].loc != Queue(s.threads[t].self) ==> s'.nodes[m] == s.nodes[m]
    {
      DrainNode(s, t, m);
    }
    forall c | c in s'.head ensures QueueOk(s', c) {
      assert QueueOk(s, c);
      if c != s.threads[t].self {
        QueueFrame(s, s', c);
      }
    }
    DrainThreads(s, t);
  }

  lemma DrainThreads(s: State, t: Tid)
    requires Shape(s) && Enabled(s, DrainAll(t))
    ensures forall u | u in s.threads :: ThreadOk(Apply(s, DrainAll(t)), u)
  {
    hide ThreadOk, NodeOk, QueueOk;
    var s' := Apply(s, DrainAll(t));
    forall m | m in s'.nodes
      ensures s.nodes[m].loc != Queue(s.threads[t].self) ==> s'.nodes[m] == s.nodes[m]
    {
      DrainNode(s, t, m);
    }
    DrainBatch(s, t);
    forall u | u in s'.threads ensures ThreadOk(s', u) {
      if u != t {
        assert ThreadOk(s, u);
        ThreadFrame(s, s', u);
      }
    }
  }

  lemma DrainNodes(s: State, t: Tid)
    requires Shape(s) && Enabled(s, DrainAll(t))
    ensures var s' := Apply(s, DrainAll(t));
            forall n | n in s.nodes ::
              && s'.nodes[n] == s.nodes[n].(loc := s'.nodes[n].loc)
              && (s'.nodes[n].loc == s.nodes[n].loc || (s.nodes[n].loc.Queue? && s'.nodes[n].loc.Batch?))
  {
    forall n | n in s.nodes && n in s.queue[s.threads[t].self] ensures s.nodes[n].loc.Queue? {
      DrainNode(s, t, n);
    }
  }

  lemma DrainWakes(s: State, t: Tid)
    requires Wakes(s) && Enabled(s, DrainAll(t))
    ensures Wakes(Apply(s, DrainAll(t)))
  {
    var s' := Apply(s, DrainAll(t));
    forall c | c in s'.queue ensures WakeOk(s', c) {
      if c != s.threads[t].self {
        assert WakeOk(s, c);
        if s.queue[c] != [] && c !in s.ipi {
          var u :| u in s.threads && WillWake(s.threads[u], c);
          assert u in s'.threads && WillWake(s'.threads[u], c);
        }
      }
    }
  }

  lemma DrainInv(s: State, t: Tid)
    requires Inv(s) && Enabled(s, DrainAll(t))
    ensures Inv(Apply(s, DrainAll(t)))
  {
    hide Shape, HistoryOk, Leases, Wakes, Inv;
    InvParts(s);
    DrainShape(s, t);
    DrainNodes(s, t);
    HistoryFrame(s, Apply(s, DrainAll(t)));
    LeaseFrame(s, Apply(s, DrainAll(t)));
    DrainWakes(s, t);
    InvParts(Apply(s, DrainAll(t)));
  }

  // ---- fetch ------------------------------------------------------------------------------

  lemma FetchFacts(s: State, t: Tid)
    requires Shape(s) && Enabled(s, Fetch(t))
    ensures var th := s.threads[t];
            var n := th.pc.at.node;
            && n == th.rest[0] && s.nodes[n].loc == Batch(t) && s.nodes[n].target == th.self
            && s.nodes[n].ran == 0 && NodeOk(s, n) && ThreadOk(s, t) && BatchOk(s, t, th.pc.at)
            && forall m | m in s.nodes :: s.nodes[m].loc != Held(t) && s.nodes[m].loc != Current(t)
  {
    assert ThreadOk(s, t);
    assert NodeOk(s, s.threads[t].rest[0]);
    forall m | m in s.nodes ensures s.nodes[m].loc != Held(t) && s.nodes[m].loc != Current(t) {
      assert NodeOk(s, m);
    }
  }

  lemma FetchThread(s: State, t: Tid)
    requires Shape(s) && Enabled(s, Fetch(t))
    ensures ThreadOk(Apply(s, Fetch(t)), t)
  {
    FetchFacts(s, t);
    var s', rest := Apply(s, Fetch(t)), s.threads[t].rest;
    forall i | 0 <= i < |rest| - 1
      ensures rest[1..][i] in s'.nodes && s'.nodes[rest[1..][i]].next == PtrAt(rest[1..], i + 1)
      ensures s'.nodes[rest[1..][i]].loc == Batch(t)
    {
      assert rest[1..][i] == rest[i + 1] && rest[i + 1] != rest[0];
    }
  }

  lemma FetchNode(s: State, t: Tid, m: Node)
    requires Shape(s) && Enabled(s, Fetch(t)) && m in s.nodes
    ensures NodeOk(Apply(s, Fetch(t)), m)
  {
    FetchFacts(s, t);
    assert NodeOk(s, m);
    var rest := s.threads[t].rest;
    assert rest == [rest[0]] + rest[1..];
  }

  lemma FetchShape(s: State, t: Tid)
    requires Shape(s) && Enabled(s, Fetch(t))
    ensures Shape(Apply(s, Fetch(t)))
  {
    FetchFacts(s, t);
    hide ThreadOk, NodeOk, QueueOk;
    var s' := Apply(s, Fetch(t));
    forall m | m in s'.nodes ensures NodeOk(s', m) {
      FetchNode(s, t, m);
    }
    forall c | c in s'.head ensures QueueOk(s', c) {
      assert QueueOk(s, c);
      QueueFrame(s, s', c);
    }
    FetchThread(s, t);
    forall u | u in s'.threads ensures ThreadOk(s', u) {
      if u != t {
        assert ThreadOk(s, u);
        ThreadFrame(s, s', u);
      }
    }
  }

  lemma FetchInv(s: State, t: Tid)
    requires Inv(s) && Enabled(s, Fetch(t))
    ensures Inv(Apply(s, Fetch(t)))
  {
    hide Shape, HistoryOk, Leases, Wakes, Inv;
    var s' := Apply(s, Fetch(t));
    InvParts(s);
    FetchFacts(s, t);
    FetchShape(s, t);
    HistoryFrame(s, s');
    LeasePass(s, s', t, s.threads[t].pc.at.node);
    WakeFrame(s, s', t);
    InvParts(s');
  }
}
