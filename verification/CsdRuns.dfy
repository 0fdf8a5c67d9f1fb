/** A run in which a CPU is enabled too early, and what becomes of disable_cpu then. */
module CsdRuns {
  import opened Csd
  import opened CsdSafety

  /** Two CPUs and one node, at boot. */
  function TwoCpus(): State {
    State(map[0 := Null, 1 := Null], map[0 := [], 1 := []], map[0 := Lease(false, 0), 1 := Lease(false, 0)], {},
          map[0 := NodeRec(Null, Async(), false, false, false, false, Free, 0, 0, 0, 0, NoWaiter)], map[], {}, {})
  }

  function Async(): Kind {
    Kind(false, true, false)
  }

  function Rec(loc: Loc): NodeRec {
    NodeRec(Null, Async(), true, false, false, false, loc, 1, 0, 1, 0, NoWaiter)
  }

  /** Thread 0, on CPU 0, at a point of its call of CPU 1 with node 0. */
  function Calling0(pc: Pc, leases: nat): State {
    TwoCpus().(
      lease := map[0 := Lease(false, 0), 1 := Lease(false, leases)],
      nodes := map[0 := Rec(Held(0))], threads := map[0 := Thread(0, pc, 1, 0, [])])
  }

  /** Thread 0 has got its lease; thread 1 is at some point, and CPU 1 has some lease word. */
  function Leased(pc: Pc, lease: Lease): State {
    Calling0(SetLease, 1).(
      lease := map[0 := Lease(false, 0), 1 := lease],
      threads := map[0 := Thread(0, SetLease, 1, 0, []), 1 := Thread(0, pc, 0, 0, [])])
  }

  function Started(): State {
    Leased(Ready, Lease(false, 1))
  }

  /** Thread 0 calls CPU 1 and gets as far as its lease; thread 1 is about to enable CPU 1. */
  function CallStarted(): seq<Step> {
    [Spawn(0, 0), Begin(0, 0, 1, Async(), false), CheckPassed(0), LeaseAcquire(0), Spawn(1, 0)]
  }

  function Spawned(): State {
    TwoCpus().(threads := map[0 := Thread(0, Ready, 0, 0, [])])
  }

  lemma Step1()
    ensures Enabled(TwoCpus(), Spawn(0, 0)) && Apply(TwoCpus(), Spawn(0, 0)) == Spawned()
  {
  }

  lemma Step2()
    ensures Enabled(Spawned(), Begin(0, 0, 1, Async(), false))
    ensures Apply(Spawned(), Begin(0, 0, 1, Async(), false)) == Calling0(Check, 0)
  {
    assert Apply(Spawned(), Begin(0, 0, 1, Async(), false)).nodes == map[0 := Rec(Held(0))];
  }

  lemma Step3()
    ensures Enabled(Calling0(Check, 0), CheckPassed(0))
    ensures Apply(Calling0(Check, 0), CheckPassed(0)) == Calling0(TryLease(Lease(false, 0)), 0)
  {
  }

  lemma Step4()
    ensures Enabled(Calling0(TryLease(Lease(false, 0)), 0), LeaseAcquire(0))
    ensures Apply(Calling0(TryLease(Lease(false, 0)), 0), LeaseAcquire(0)) == Calling0(SetLease, 1)
  {
    assert map[0 := Lease(false, 0), 1 := Lease(false, 0)][1 := Lease(false, 1)] ==
        map[0 := Lease(false, 0), 1 := Lease(false, 1)];
  }

  lemma Step5()
    ensures Enabled(Calling0(SetLease, 1), Spawn(1, 0)) && Apply(Calling0(SetLease, 1), Spawn(1, 0)) == Started()
  {
  }

  lemma Prepend(s: State, step: Step, rest: seq<Step>)
    requires Enabled(s, step) && Orderly(s, step) && OrderlyRun(Apply(s, step), rest) && IsRun(Apply(s, step), rest)
    ensures OrderlyRun(s, [step] + rest) && IsRun(s, [step] + rest)
    ensures After(s, [step] + rest) == After(Apply(s, step), rest)
  {
    assert ([step] + rest)[1..] == rest;
  }

  /** A state with a lease on CPU 1 is reached from boot, in order; there is no test that keeps enable_cpu from it. */
  lemma LeaseWhileEnabling()
    ensures Boot(TwoCpus()) && OrderlyRun(TwoCpus(), CallStarted()) && IsRun(TwoCpus(), CallStarted())
    ensures After(TwoCpus(), CallStarted()) == Started() && Started().lease[1].count == 1
    ensures Inv(Started()) && Enabled(Started(), Enable(1, 1)) && !Inv(Apply(Started(), Enable(1, 1)))
  {
    Step1();
    Step2();
    Step3();
    Step4();
    Step5();
    IsBoot();
    hide *;
    Reached(TwoCpus(), Spawned(), Calling0(Check, 0), Calling0(TryLease(Lease(false, 0)), 0), Calling0(SetLease, 1),
        Started());
    BootInv(TwoCpus());
    RunsKeepInv(TwoCpus(), CallStarted());
    EnableFacts();
    EnableIsExact(Started(), 1, 1);
  }

  lemma IsBoot()
    ensures Boot(TwoCpus())
  {
  }

  lemma EnableFacts()
    ensures Enabled(Started(), Enable(1, 1)) && 1 in Started().lease && Started().lease[1].count == 1
    ensures Apply(Started(), Enable(1, 1)) == Leased(Ready, Lease(false, 0))
  {
  }

  lemma Reached(s0: State, s1: State, s2: State, s3: State, s4: State, s5: State)
    requires Enabled(s0, Spawn(0, 0)) && s1 == Apply(s0, Spawn(0, 0))
    requires Enabled(s1, Begin(0, 0, 1, Async(), false)) && s2 == Apply(s1, Begin(0, 0, 1, Async(), false))
    requires Enabled(s2, CheckPassed(0)) && s3 == Apply(s2, CheckPassed(0))
    requires Enabled(s3, LeaseAcquire(0)) && s4 == Apply(s3, LeaseAcquire(0))
    requires Enabled(s4, Spawn(1, 0)) && s5 == Apply(s4, Spawn(1, 0))
    ensures OrderlyRun(s0, CallStarted()) && IsRun(s0, CallStarted()) && After(s0, CallStarted()) == s5
  {
    hide Enabled, Apply;
    assert OrderlyRun(s5, []) && IsRun(s5, []);
    Prepend(s4, Spawn(1, 0), []);
    Prepend(s3, LeaseAcquire(0), [Spawn(1, 0)]);
    Prepend(s2, CheckPassed(0), [LeaseAcquire(0), Spawn(1, 0)]);
    Prepend(s1, Begin(0, 0, 1, Async(), false), [CheckPassed(0), LeaseAcquire(0), Spawn(1, 0)]);
    Prepend(s0, Spawn(0, 0), [Begin(0, 0, 1, Async(), false), CheckPassed(0), LeaseAcquire(0), Spawn(1, 0)]);
    assert CallStarted() == [Spawn(0, 0)] + [Begin(0, 0, 1, Async(), false), CheckPassed(0), LeaseAcquire(0),
        Spawn(1, 0)];
  }

  /** From there, enabling CPU 1 lets a later disable_cpu return although a remote call still holds its lease. */
  lemma EarlyEnableBreaksDisable()
    ensures Enabled(Started(), Enable(1, 1))
    ensures var s1 := Apply(Started(), Enable(1, 1));
            && Enabled(s1, DisableBegin(1, 1))
            && var s2 := Apply(s1, DisableBegin(1, 1));
            && Enabled(s2, DisableEnd(1))
            && var s3 := Apply(s2, DisableEnd(1));
            && Closed(s3, 1) && !Quiet(s3, 1)
  {
    EnableFacts();
    DisableFacts();
    hide Enabled, Apply;
    var s3 := Leased(Disabled(1), Lease(true, 0));
    assert 0 in s3.threads && ThreadHolds(s3.threads[0], 1);
  }

  lemma DisableFacts()
    ensures var s1, s2 := Leased(Ready, Lease(false, 0)), Leased(DisableWait(1), Lease(true, 0));
            && Enabled(s1, DisableBegin(1, 1)) && Apply(s1, DisableBegin(1, 1)) == s2
            && Enabled(s2, DisableEnd(1)) && Apply(s2, DisableEnd(1)) == Leased(Disabled(1), Lease(true, 0))
  {
  }
}
