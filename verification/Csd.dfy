/**
  The cross-CPU call queue as a state machine.  A step is one atomic access to shared memory; any
  number of threads call, drain, wait, disable and enable, in any interleaving.

  Besides what the kernel stores, a state records history that no step tests: where each node is
  (`loc`), the content of every list, how often a callback ran, and which calls were accepted and
  dispatched.
 */
module Csd {

  type Cpu = nat
  type Node = nat
  type Tid = nat

  datatype Ptr = Null | At(node: Node)

  /** Mode bits given to init; the call is refused unless exactly one of sync and async is set. */
  datatype Kind = Kind(sync: bool, async: bool, rcuFree: bool)

  predicate ValidKind(k: Kind) {
    k.sync != k.async && (k.rcuFree ==> k.async)
  }

  /** g_csd_dispatch_state: disable bit and count of leases */
  datatype Lease = Lease(disabled: bool, count: nat)

  const MAX_LEASES: nat := 0x7FFF_FFFF

  /** Where a node is: with its caller, queued, in a drained batch, or being dispatched. */
  datatype Loc = Free | Held(owner: Tid) | Queue(cpu: Cpu) | Batch(owner: Tid) | Current(owner: Tid)

  datatype Waiter = NoWaiter | WaitedBy(tid: Tid)

  /** call_single_data: next and flags, then history. */
  datatype NodeRec = NodeRec(
    next: Ptr, kind: Kind, locked: bool, queued: bool, done: bool, lease: bool,
    loc: Loc, target: Cpu, from: Cpu, inc: nat, ran: nat, waiter: Waiter)

  datatype Pc =
    // between calls
    | Ready
    // call_function_single_async
    | Check
    | TryLease(observed: Lease)
    | SetLease
    | LoadHead
    | StoreNext(expected: Ptr)
    | CasHead(expected: Ptr)
    | SetQueued(needIpi: bool)
    | AfterPush(needIpi: bool)
    // drain_cpu
    | Exchange
    | Walk(at: Ptr)
    | Invoke(cur: Node, next: Ptr, kind: Kind, lease: bool)
    | Complete(cur: Node, next: Ptr, kind: Kind, lease: bool)
    | Release(next: Ptr, lease: bool)
    // disable_cpu
    | DisableWait(cpu: Cpu)
    | Disabled(cpu: Cpu)

  /** A flow of control on CPU self, calling cpu with node; rest is the batch still to walk. */
  datatype Thread = Thread(self: Cpu, pc: Pc, cpu: Cpu, node: Node, rest: seq<Node>)

  /** One call: a node, which of its uses, the CPU it comes from and the CPU it is for. */
  datatype Call = Call(node: Node, inc: nat, from: Cpu, cpu: Cpu)

  datatype State = State(
    head: map<Cpu, Ptr>, queue: map<Cpu, seq<Node>>, lease: map<Cpu, Lease>, ipi: set<Cpu>,
    nodes: map<Node, NodeRec>, threads: map<Tid, Thread>,
    accepted: set<Call>, dispatched: set<Call>)

  // ---- steps ------------------------------------------------------------------------------

  datatype Step =
    | Spawn(t: Tid, self: Cpu)
    | Begin(t: Tid, node: Node, cpu: Cpu, kind: Kind, waits: bool)
    | Refuse(t: Tid)
    | CheckPassed(t: Tid)
    | LeaseRetry(t: Tid)
    | LeaseAcquire(t: Tid)
    | MarkLease(t: Tid)
    | ReadHead(t: Tid)
    | LinkNext(t: Tid)
    | PushRetry(t: Tid)
    | Push(t: Tid)
    | MarkQueued(t: Tid)
    | FinishPush(t: Tid)
    | WaitDone(t: Tid, node: Node)
    | TakeIpi(t: Tid, cpu: Cpu)
    | DrainAll(t: Tid)
    | Fetch(t: Tid)
    | DrainEnd(t: Tid)
    | RunCallback(t: Tid)
    | Finish(t: Tid)
    | ReleaseLease(t: Tid)
    | DisableBegin(t: Tid, cpu: Cpu)
    | DisableEnd(t: Tid)
    | Enable(t: Tid, cpu: Cpu)

  /** The call that a node currently stands for. */
  function CallOf(nodes: map<Node, NodeRec>, n: Node): Call
    requires n in nodes
  {
    Call(n, nodes[n].inc, nodes[n].from, nodes[n].target)
  }

  function WithPc(s: State, t: Tid, pc: Pc): State
    requires t in s.threads
  {
    s.(threads := s.threads[t := s.threads[t].(pc := pc)])
  }

  predicate Calling(pc: Pc) {
    pc.Check? || pc.TryLease? || pc.SetLease? || pc.LoadHead? || pc.StoreNext? || pc.CasHead?
  }

  /** Bad mode bits, the target not online, or no lease to be had. */
  predicate Refused(th: Thread, kind: Kind) {
    || (th.pc.Check? && (!ValidKind(kind) || th.cpu != th.self))
    || (th.pc.TryLease? && (th.pc.observed.disabled || th.pc.observed.count == MAX_LEASES))
  }

  /** The step can be taken: its thread is at the right point and its test succeeds. */
  predicate Enabled(s: State, step: Step) {
    match step
    case Spawn(t, self) => t !in s.threads && self in s.head
    case Begin(t, n, cpu, kind, waits) =>
      && t in s.threads && s.threads[t].pc.Ready? && cpu in s.head
      && n in s.nodes && s.nodes[n].loc.Free? && s.nodes[n].waiter.NoWaiter?
      && (waits ==> kind.sync)
    case Refuse(t) =>
      && t in s.threads && s.threads[t].node in s.nodes
      && Refused(s.threads[t], s.nodes[s.threads[t].node].kind)
    case CheckPassed(t) =>
      && t in s.threads && s.threads[t].pc.Check? && s.threads[t].node in s.nodes
      && s.threads[t].cpu in s.lease && ValidKind(s.nodes[s.threads[t].node].kind)
    case LeaseRetry(t) => t in s.threads && s.threads[t].pc.TryLease? && s.threads[t].cpu in s.lease
    case LeaseAcquire(t) =>
      && t in s.threads && s.threads[t].pc.TryLease? && s.threads[t].cpu in s.lease
      && var observed := s.threads[t].pc.observed;
      !observed.disabled && observed.count != MAX_LEASES && s.lease[s.threads[t].cpu] == observed
    case MarkLease(t) => t in s.threads && s.threads[t].pc.SetLease? && s.threads[t].node in s.nodes
    case ReadHead(t) => t in s.threads && s.threads[t].pc.LoadHead? && s.threads[t].cpu in s.head
    case LinkNext(t) => t in s.threads && s.threads[t].pc.StoreNext? && s.threads[t].node in s.nodes
    case PushRetry(t) => t in s.threads && s.threads[t].pc.CasHead? && s.threads[t].cpu in s.head
    case Push(t) =>
      && t in s.threads && s.threads[t].pc.CasHead?
      && s.threads[t].cpu in s.head && s.threads[t].cpu in s.queue && s.threads[t].node in s.nodes
      && s.head[s.threads[t].cpu] == s.threads[t].pc.expected
    case MarkQueued(t) => t in s.threads && s.threads[t].pc.SetQueued? && s.threads[t].node in s.nodes
    case FinishPush(t) => t in s.threads && s.threads[t].pc.AfterPush?
    case WaitDone(t, n) =>
      && t in s.threads && s.threads[t].pc.Ready? && n in s.nodes
      && s.nodes[n].waiter == WaitedBy(t) && s.nodes[n].done
    case TakeIpi(t, cpu) => t !in s.threads && cpu in s.ipi
    case DrainAll(t) =>
      t in s.threads && s.threads[t].pc.Exchange? && s.threads[t].self in s.head && s.threads[t].self in s.queue
    case Fetch(t) =>
      && t in s.threads && s.threads[t].pc.Walk? && s.threads[t].pc.at.At? && s.threads[t].pc.at.node in s.nodes
      && s.threads[t].rest != []
    case DrainEnd(t) => t in s.threads && s.threads[t].pc.Walk? && s.threads[t].pc.at.Null?
    case RunCallback(t) => t in s.threads && s.threads[t].pc.Invoke? && s.threads[t].pc.cur in s.nodes
    case Finish(t) => t in s.threads && s.threads[t].pc.Complete? && s.threads[t].pc.cur in s.nodes
    case ReleaseLease(t) =>
      && t in s.threads && s.threads[t].pc.Release? && s.threads[t].self in s.lease
      && (s.threads[t].pc.lease ==> s.lease[s.threads[t].self].count > 0)
    case DisableBegin(t, cpu) => t in s.threads && s.threads[t].pc.Ready? && cpu in s.lease
    case DisableEnd(t) =>
      && t in s.threads && s.threads[t].pc.DisableWait? && s.threads[t].pc.cpu in s.lease
      && s.lease[s.threads[t].pc.cpu].count == 0
    case Enable(t, cpu) =>
      t in s.threads && (s.threads[t].pc.Ready? || s.threads[t].pc == Disabled(cpu)) && cpu in s.lease
  }

  /** A CPU is enabled only while no lease on it is held; enable_cpu leaves that to its callers. */
  predicate Orderly(s: State, step: Step) {
    step.Enable? && step.cpu in s.lease ==> s.lease[step.cpu].count == 0
  }

  function Apply(s: State, step: Step): State
    requires Enabled(s, step)
  {
    match step
    case Spawn(t, self) => s.(threads := s.threads[t := Thread(self, Ready, 0, 0, [])])
    // init, then the entry of call_function_single_async
    case Begin(t, n, cpu, kind, waits) =>
      var th := s.threads[t];
      var rec := NodeRec(Null, kind, true, false, false, false,
                         Held(t), cpu, th.self, s.nodes[n].inc + 1, 0, if waits then WaitedBy(t) else NoWaiter);
      s.(nodes := s.nodes[n := rec], threads := s.threads[t := th.(pc := Check, cpu := cpu, node := n)])
    case Refuse(t) =>
      var th := s.threads[t];
      var rec := s.nodes[th.node].(loc := Free, waiter := NoWaiter);
      s.(nodes := s.nodes[th.node := rec], threads := s.threads[t := th.(pc := Ready)])
    case CheckPassed(t) =>
      var th := s.threads[t];
      WithPc(s, t, if th.cpu != th.self then TryLease(s.lease[th.cpu]) else LoadHead)
    case LeaseRetry(t) => WithPc(s, t, TryLease(s.lease[s.threads[t].cpu]))
    case LeaseAcquire(t) =>
      var cpu := s.threads[t].cpu;
      WithPc(s, t, SetLease).(lease := s.lease[cpu := s.lease[cpu].(count := s.lease[cpu].count + 1)])
    case MarkLease(t) =>
      var n := s.threads[t].node;
      WithPc(s, t, LoadHead).(nodes := s.nodes[n := s.nodes[n].(lease := true)])
    case ReadHead(t) => WithPc(s, t, StoreNext(s.head[s.threads[t].cpu]))
    case LinkNext(t) =>
      var n, expected := s.threads[t].node, s.threads[t].pc.expected;
      WithPc(s, t, CasHead(expected)).(nodes := s.nodes[n := s.nodes[n].(next := expected)])
    case PushRetry(t) => WithPc(s, t, StoreNext(s.head[s.threads[t].cpu]))
    case Push(t) =>
      var th := s.threads[t];
      var n, cpu := th.node, th.cpu;
      WithPc(s, t, SetQueued(th.pc.expected.Null?)).(
        head := s.head[cpu := At(n)], queue := s.queue[cpu := [n] + s.queue[cpu]],
        nodes := s.nodes[n := s.nodes[n].(loc := Queue(cpu))],
        accepted := s.accepted + {CallOf(s.nodes, n)})
    case MarkQueued(t) =>
      var n := s.threads[t].node;
      WithPc(s, t, AfterPush(s.threads[t].pc.needIpi)).(nodes := s.nodes[n := s.nodes[n].(queued := true)])
    case FinishPush(t) =>
      var th := s.threads[t];
      if th.cpu == th.self then WithPc(s, t, Exchange)
      else if th.pc.needIpi then WithPc(s, t, Ready).(ipi := s.ipi + {th.cpu})
      else WithPc(s, t, Ready)
    case WaitDone(t, n) => s.(nodes := s.nodes[n := s.nodes[n].(waiter := NoWaiter)])
    case TakeIpi(t, cpu) =>
      s.(ipi := s.ipi - {cpu}, threads := s.threads[t := Thread(cpu, Exchange, 0, 0, [])])
    case DrainAll(t) =>
      var th := s.threads[t];
      var batch := s.queue[th.self];
      s.(head := s.head[th.self := Null], queue := s.queue[th.self := []],
         nodes := map n | n in s.nodes :: if n in batch then s.nodes[n].(loc := Batch(t)) else s.nodes[n],
         threads := s.threads[t := th.(pc := Walk(s.head[th.self]), rest := batch)])
    case Fetch(t) =>
      var th := s.threads[t];
      var n := th.pc.at.node;
      var rec := s.nodes[n];
      s.(nodes := s.nodes[n := rec.(loc := Current(t))],
         threads := s.threads[t := th.(pc := Invoke(n, rec.next, rec.kind, rec.lease), rest := th.rest[1..])])
    case DrainEnd(t) => WithPc(s, t, Ready)
    case RunCallback(t) =>
      var th := s.threads[t];
      var pc := th.pc;
      WithPc(s, t, Complete(pc.cur, pc.next, pc.kind, pc.lease)).(
        nodes := s.nodes[pc.cur := s.nodes[pc.cur].(ran := s.nodes[pc.cur].ran + 1)],
        dispatched := s.dispatched + {Call(pc.cur, s.nodes[pc.cur].inc, s.nodes[pc.cur].from, th.self)})
    case Finish(t) =>
      var pc := s.threads[t].pc;
      var rec := s.nodes[pc.cur].(loc := Free);
      var rec' := if pc.kind.rcuFree then rec.(next := Null)
                  else if pc.kind.sync then rec.(done := true)
                  else rec.(locked := false, queued := false);
      WithPc(s, t, Release(pc.next, pc.lease)).(nodes := s.nodes[pc.cur := rec'])
    case ReleaseLease(t) =>
      var pc, cpu := s.threads[t].pc, s.threads[t].self;
      var s1 := WithPc(s, t, Walk(pc.next));
      if pc.lease then s1.(lease := s.lease[cpu := s.lease[cpu].(count := s.lease[cpu].count - 1)]) else s1
    case DisableBegin(t, cpu) =>
      WithPc(s, t, DisableWait(cpu)).(lease := s.lease[cpu := s.lease[cpu].(disabled := true)])
    case DisableEnd(t) => WithPc(s, t, Disabled(s.threads[t].pc.cpu))
    case Enable(t, cpu) => WithPc(s, t, Ready).(lease := s.lease[cpu := Lease(false, 0)])
  }

  // ---- invariant --------------------------------------------------------------------------

  function PtrAt(list: seq<Node>, i: nat): Ptr {
    if i < |list| then At(list[i]) else Null
  }

  /** The pointer leads through exactly the nodes of the list. */
  ghost predicate Chain(nodes: map<Node, NodeRec>, p: Ptr, list: seq<Node>) {
    && p == PtrAt(list, 0)
    && (forall i | 0 <= i < |list| :: list[i] in nodes && nodes[list[i]].next == PtrAt(list, i + 1))
    && (forall i, j | 0 <= i < j < |list| :: list[i] != list[j])
  }

  /** Accepted and not yet dispatched. */
  predicate Pending(rec: NodeRec) {
    rec.loc.Queue? || rec.loc.Batch? || (rec.loc.Current? && rec.ran == 0)
  }

  ghost predicate QueueOk(s: State, c: Cpu)
    requires c in s.head && c in s.queue
  {
    && Chain(s.nodes, s.head[c], s.queue[c])
    && forall i | 0 <= i < |s.queue[c]| :: s.nodes[s.queue[c][i]].loc == Queue(c)
  }

  ghost predicate BatchOk(s: State, t: Tid, p: Ptr)
    requires t in s.threads
  {
    && Chain(s.nodes, p, s.threads[t].rest)
    && forall i | 0 <= i < |s.threads[t].rest| :: s.nodes[s.threads[t].rest[i]].loc == Batch(t)
  }

  /** The lease that a caller at this point holds for its target. */
  predicate CallerHolds(th: Thread) {
    th.pc.SetLease? || ((th.pc.LoadHead? || th.pc.StoreNext? || th.pc.CasHead?) && th.cpu != th.self)
  }

  ghost predicate CallerOk(s: State, t: Tid)
    requires t in s.threads
  {
    var th := s.threads[t];
    && th.node in s.nodes && th.rest == []
    && var rec := s.nodes[th.node];
    && rec.loc == Held(t) && rec.target == th.cpu && rec.from == th.self
    && (th.pc.Check? || ValidKind(rec.kind))
    && (th.pc.TryLease? || th.pc.SetLease? ==> th.cpu != th.self)
    && rec.lease == ((th.pc.LoadHead? || th.pc.StoreNext? || th.pc.CasHead?) && th.cpu != th.self)
    && (th.pc.CasHead? ==> rec.next == th.pc.expected)
  }

  ghost predicate DispatchOk(s: State, t: Tid, cur: Node, kind: Kind, lease: bool)
    requires t in s.threads
  {
    && cur in s.nodes
    && s.nodes[cur].loc == Current(t) && s.nodes[cur].target == s.threads[t].self
    && s.nodes[cur].kind == kind && s.nodes[cur].lease == lease
  }

  ghost predicate ThreadOk(s: State, t: Tid)
    requires t in s.threads
  {
    var th := s.threads[t];
    && th.self in s.head
    && match th.pc
       case Ready => th.rest == []
       case SetQueued(_) => th.rest == [] && th.cpu in s.head && th.node in s.nodes
       case AfterPush(_) => th.rest == [] && th.cpu in s.head
       case Exchange => th.rest == []
       case Walk(p) => BatchOk(s, t, p)
       case Invoke(n, p, k, l) => BatchOk(s, t, p) && DispatchOk(s, t, n, k, l) && s.nodes[n].ran == 0
       case Complete(n, p, k, l) => BatchOk(s, t, p) && DispatchOk(s, t, n, k, l) && s.nodes[n].ran == 1
       case Release(p, _) => BatchOk(s, t, p)
       case DisableWait(_) => th.rest == []
       case Disabled(_) => th.rest == []
       case _ => th.cpu in s.head && CallerOk(s, t)
  }

  ghost predicate NodeOk(s: State, n: Node)
    requires n in s.nodes
  {
    var rec := s.nodes[n];
    && (rec.waiter.WaitedBy? ==> rec.kind.sync)
    && match rec.loc
       case Free => rec.waiter.WaitedBy? ==> rec.done && rec.ran == 1
       case Held(t) =>
         t in s.threads && Calling(s.threads[t].pc) && s.threads[t].node == n && !rec.done && rec.ran == 0
       case Queue(c) =>
         c in s.queue && n in s.queue[c] && rec.target == c && !rec.done && rec.ran == 0 && FlightOk(rec)
       case Batch(t) =>
         && t in s.threads && n in s.threads[t].rest && rec.target == s.threads[t].self
         && !rec.done && rec.ran == 0 && FlightOk(rec)
       case Current(t) =>
         && t in s.threads && (s.threads[t].pc.Invoke? || s.threads[t].pc.Complete?) && s.threads[t].pc.cur == n
         && !rec.done && FlightOk(rec)
  }

  /** A node in flight has a valid mode, and a lease exactly if it came from another CPU. */
  predicate FlightOk(rec: NodeRec) {
    ValidKind(rec.kind) && rec.lease == (rec.from != rec.target)
  }

  ghost predicate HistoryOk(s: State) {
    && (forall k | k in s.accepted :: k.node in s.nodes && k.inc <= s.nodes[k.node].inc)
    && (forall k | k in s.accepted ::
          k !in s.dispatched <==> (k.inc == s.nodes[k.node].inc && Pending(s.nodes[k.node])))
    && (forall k | k in s.accepted && k.inc == s.nodes[k.node].inc ::
          k == CallOf(s.nodes, k.node) && !s.nodes[k.node].loc.Held?)
    && (forall n | n in s.nodes && Pending(s.nodes[n]) :: CallOf(s.nodes, n) in s.accepted)
    && s.dispatched <= s.accepted
  }

  /** A queued leased node, or one in a batch, stands for one lease of its target. */
  predicate NodeHolds(s: State, n: Node, c: Cpu)
    requires n in s.nodes
  {
    (s.nodes[n].loc.Queue? || s.nodes[n].loc.Batch?) && s.nodes[n].lease && s.nodes[n].target == c
  }

  predicate ThreadHolds(th: Thread, c: Cpu) {
    || (CallerHolds(th) && th.cpu == c)
    || ((th.pc.Invoke? || th.pc.Complete? || th.pc.Release?) && th.pc.lease && th.self == c)
  }

  function NodeHolders(s: State, c: Cpu): set<Node> {
    set n | n in s.nodes && NodeHolds(s, n, c)
  }

  function ThreadHolders(s: State, c: Cpu): set<Tid> {
    set t | t in s.threads && ThreadHolds(s.threads[t], c)
  }

  ghost predicate LeaseOk(s: State, c: Cpu)
    requires c in s.lease
  {
    s.lease[c].count == |NodeHolders(s, c)| + |ThreadHolders(s, c)| <= MAX_LEASES
  }

  /** The thread will drain queue c, or will send the interrupt that makes c drain it. */
  predicate WillWake(th: Thread, c: Cpu) {
    || ((th.pc.SetQueued? || th.pc.AfterPush?) && th.cpu == c && (th.pc.needIpi || th.self == c))
    || (th.pc.Exchange? && th.self == c)
  }

  ghost predicate WakeOk(s: State, c: Cpu)
    requires c in s.queue
  {
    s.queue[c] != [] ==> c in s.ipi || exists t | t in s.threads :: WillWake(s.threads[t], c)
  }

  ghost predicate Keys(s: State) {
    s.head.Keys == s.queue.Keys == s.lease.Keys && s.ipi <= s.head.Keys
  }

  ghost predicate Inv(s: State) {
    && Keys(s)
    && (forall c {:trigger QueueOk(s, c)} | c in s.head :: QueueOk(s, c))
    && (forall t {:trigger ThreadOk(s, t)} | t in s.threads :: ThreadOk(s, t))
    && (forall n {:trigger NodeOk(s, n)} | n in s.nodes :: NodeOk(s, n))
    && HistoryOk(s)
    && (forall c {:trigger LeaseOk(s, c)} | c in s.lease :: LeaseOk(s, c))
    && (forall c {:trigger WakeOk(s, c)} | c in s.queue :: WakeOk(s, c))
  }
}
