/** Progress over whole runs of the kernel: round-robin scheduling passes nobody by for long. */
module KernelProgress {
  import opened EnvIds
  import opened Kernel
  import opened KernelInvariant
  import opened KernelSteps
  import opened KernelRuns

  /* ---- round robin ---- */

  /** How far ahead of slot cur the circular search meets slot t. */
  function Ahead(cur: nat, t: nat): (d: nat)
    requires cur < NENV && t < NENV
    ensures d < NENV && (d == 0 <==> cur == t)
  {
    if t >= cur then t - cur else t + NENV - cur
  }

  lemma AheadSlot(cur: nat, t: nat, x: nat)
    requires cur < NENV && t < NENV && x <= Ahead(cur, t)
    ensures Slot(cur, Ahead(cur, t)) == t
    ensures Ahead(Slot(cur, x), t) == Ahead(cur, t) - x
  {
  }

  /** How far a CPU's position is from t; one without an environment starts its search at slot 0. */
  function Rank(env: int, t: nat): nat
    requires -1 <= env < NENV && t < NENV
  {
    if env >= 0 then Ahead(env, t) else NENV
  }

  lemma RunsIt(k: K, c: nat, j: nat)
    requires IsCpu(k, c) && j < NENV
    ensures EnvRun(k, c, j).cpus[c].env == j && |EnvRun(k, c, j).envs| == NENV
    ensures k.cpus[c].env != j ==> EnvRun(k, c, j).envs[j].status == Running
  {
    RunEnvs(k, c, j);
    RunKeepsRest(k, c, j);
    hide SpinUnlock;
  }

  /** One search: unless it chooses t, the environment it chooses is strictly nearer to t. */
  lemma YieldNearer(k: K, c: nat, t: nat)
    requires IsCpu(k, c) && t < NENV && k.envs[t].status == Runnable
    requires k.cpus[c].env >= 0 ==> StartOf(k, c) == k.cpus[c].env && k.envs[k.cpus[c].env].status != Runnable
    requires SchedYield(k, c).envs[t].status == Runnable
    ensures var cur' := SchedYield(k, c).cpus[c].env;
            0 <= cur' < NENV && 0 < Ahead(cur', t) < Rank(k.cpus[c].env, t)
  {
    var start := StartOf(k, c);
    StartInRange(k, c);
    var x := Pick(k.envs, start, 0);
    var d := Ahead(start, t);
    AheadSlot(start, t, 0);
    assert x <= d;
    AheadSlot(start, t, x);
    StartSlot(start);
    hide Slot, EnvRun, Pick, StartOf, SchedHalt;
    var j := Slot(start, x);
    assert SchedYield(k, c) == EnvRun(k, c, j);
    RunsIt(k, c, j);
    assert k.cpus[c].env >= 0 ==> x != 0;
    AheadSlot(start, t, d);
  }

  lemma StartSlot(cur: nat)
    requires cur < NENV
    ensures Slot(cur, 0) == cur
  {
  }

  /** The passages in which CPU c calls sched_yield with its environment still its own. */
  ghost predicate Yields(k: K, c: nat, a: Action)
    requires Can(k, c, a)
  {
    a.Work? && Serving(k, c) &&
    match a.ev
    case Timer => true
    case Recv(dstOk) => dstOk
    case ChangeStatus(envid, s) => s == NotRunnable && Envid2Env(k, c, envid, true) == k.cpus[c].env
    case _ => false
  }

  /** The passages in which c's current environment is destroyed. */
  ghost predicate LosesEnv(k: K, c: nat, a: Action)
    requires Can(k, c, a)
  {
    a.Work? && k.cpus[c].env >= 0 &&
    (k.envs[k.cpus[c].env].status == Dying ||
     match a.ev
     case Fault(handled) => !handled
     case Destroy(envid) => Envid2Env(k, c, envid, true) == k.cpus[c].env
     case _ => false)
  }

  lemma TrapReturnStays(k: K, c: nat)
    requires IsCpu(k, c) && k.cpus[c].env >= 0 && k.envs[k.cpus[c].env].status == Running
    ensures TrapReturn(k, c).cpus[c].env == k.cpus[c].env
  {
  }

  /** The state k1 in which the search of a yielding passage starts. */
  lemma BodyYields(k: K, c: nat, ev: Event) returns (k1: K)
    requires Serving(k, c) && Guard(k, c, Work(ev)) && !LosesEnv(k, c, Work(ev))
    ensures if Yields(k, c, Work(ev))
            then IsCpu(k1, c) && Body(k, c, ev) == SchedYield(k1, c) && k1.cpus == k.cpus && Stopped(k, k1, k.cpus[c].env)
            else Body(k, c, ev).cpus[c].env == k.cpus[c].env
  {
    hide Inv, SchedYield, TrapReturn;
    var cur := k.cpus[c].env;
    k1 := k;
    match ev
    case Timer =>
    case Nop => TrapReturnStays(k, c);
    case Fault(handled) =>
    case Destroy(envid) => DestroyStays(k, c, envid);
    case Exofork(memory) => ExoforkStays(k, c, memory);
    case ChangeStatus(envid, s) =>
      ChangeStays(k, c, envid, s);
      k1 := SysEnvSetStatus(k, c, envid, s);
    case Recv(dstOk) =>
      TrapReturnStays(k, c);
      k1 := StartRecv(k, cur);
    case TrySend(envid, value, pageOk) => SendStays(k, c, envid, value, pageOk);
  }

  /** k1 is k with at most environment i changed, and that to a state that is not runnable. */
  predicate Stopped(k: K, k1: K, i: nat)
    requires Shape(k) && Shape(k1)
  {
    && i < NENV && k1.envs[i].id == k.envs[i].id && k1.envs[i].status != Runnable
    && (forall j: nat :: j < NENV && j != i ==> k1.envs[j] == k.envs[j])
  }

  lemma DestroyStays(k: K, c: nat, envid: int)
    requires Serving(k, c) && Envid2Env(k, c, envid, true) != k.cpus[c].env
    ensures Body(k, c, Destroy(envid)).cpus[c].env == k.cpus[c].env
  {
    var i := Envid2Env(k, c, envid, true);
    TrapReturnStays(k, c);
    if i >= 0 {
      TrapReturnStays(SetStatus(k, i, Dying), c);
      TrapReturnStays(EnvFree(k, i), c);
    }
  }

  lemma ExoforkStays(k: K, c: nat, memory: bool)
    requires Serving(k, c)
    ensures TrapReturn(SysExofork(k, c, memory), c).cpus[c].env == k.cpus[c].env
  {
    if k.freeEnvs != [] { assert k.freeEnvs[0] in k.freeEnvs; }
    TrapReturnStays(SysExofork(k, c, memory), c);
  }

  lemma SendStays(k: K, c: nat, envid: int, value: int, pageOk: bool)
    requires Serving(k, c)
    ensures TrapReturn(SysIpcTrySend(k, c, envid, value, pageOk), c).cpus[c].env == k.cpus[c].env
  {
    assert EnvOk(k.envs[k.cpus[c].env], k.cpus[c].env);
    TrapReturnStays(SysIpcTrySend(k, c, envid, value, pageOk), c);
  }

  lemma ChangeStays(k: K, c: nat, envid: int, s: Status)
    requires Serving(k, c) && StatusGuard(k, c, envid, s)
    ensures var (k1, i) := (SysEnvSetStatus(k, c, envid, s), Envid2Env(k, c, envid, true));
            if s == NotRunnable && i == k.cpus[c].env
            then TrapReturn(k1, c) == SchedYield(k1, c) && k1.cpus == k.cpus && IsCpu(k1, c) && Stopped(k, k1, i)
            else TrapReturn(k1, c).cpus[c].env == k.cpus[c].env
  {
    var (k1, i) := (SysEnvSetStatus(k, c, envid, s), Envid2Env(k, c, envid, true));
    if !(s == NotRunnable && i == k.cpus[c].env) { TrapReturnStays(k1, c); }
  }

  /** The passages in which CPU c calls sched_yield, with an environment of its own or without one. */
  ghost predicate Searches(k: K, c: nat, a: Action)
    requires Can(k, c, a)
  {
    a.Work? && (!k.cpus[c].mode.fromUser || Yields(k, c, a))
  }

  /** A step of any CPU that keeps t runnable and does not destroy c's environment brings c's position
      nearer to t when c searches, and leaves it otherwise. */
  lemma StepNearer(k: K, b: nat, a: Action, c: nat, t: nat)
    requires Inv(k) && Can(k, b, a) && Guard(k, b, a) && IsCpu(k, c) && t < NENV
    requires k.envs[t].status == Runnable && Next(k, b, a).envs[t].status == Runnable
    requires b == c ==> !LosesEnv(k, c, a)
    ensures var k' := Next(k, b, a);
            && |k'.cpus| == |k.cpus| && -1 <= k'.cpus[c].env < NENV
            && (if b == c && Searches(k, c, a) then Rank(k'.cpus[c].env, t) < Rank(k.cpus[c].env, t)
                else k'.cpus[c].env == k.cpus[c].env)
  {
    if b == c && a.Work? {
      assert CpuOk(k.cpus[c]);
      if k.cpus[c].mode.fromUser {
        CallNearer(k, c, a.ev, t);
      } else {
        YieldNearer(k, c, t);
      }
    }
  }

  lemma CallNearer(k: K, c: nat, ev: Event, t: nat)
    requires Inv(k) && Can(k, c, Work(ev)) && Guard(k, c, Work(ev)) && k.cpus[c].mode.fromUser && t < NENV
    requires k.envs[t].status == Runnable && Body(k, c, ev).envs[t].status == Runnable && !LosesEnv(k, c, Work(ev))
    ensures var k' := Body(k, c, ev);
            && 0 <= k'.cpus[c].env < NENV
            && (if Yields(k, c, Work(ev)) then Rank(k'.cpus[c].env, t) < Rank(k.cpus[c].env, t)
                else k'.cpus[c].env == k.cpus[c].env)
  {
    var cur := k.cpus[c].env;
    assert CpuOk(k.cpus[c]) && Occupied(k.envs[cur]);
    var k1 := BodyYields(k, c, ev);
    if Yields(k, c, Work(ev)) {
      assert EnvOk(k.envs[cur], cur);
      IdIndex(k1.envs[cur].id, cur);
      YieldNearer(k1, c, t);
    }
  }

  /** While something is runnable no CPU falls into the monitor. */
  lemma NoMonitor(k: K, b: nat, a: Action, c: nat, t: nat)
    requires Inv(k) && Can(k, b, a) && IsCpu(k, c) && t < NENV && !k.cpus[c].mode.Monitor?
    requires Next(k, b, a).envs[t].status == Runnable
    ensures !Next(k, b, a).cpus[c].mode.Monitor?
  {
    if b == c {
      if a.Work? {
        BodyExits(k, c, a.ev);
        assert Busy(Next(k, b, a).envs[t]);
      } else if a.Acquire? {
        NeverReacquires(k, c);
      }
    }
  }

  /** Calls of sched_yield by c among the first n steps. */
  ghost function SearchCount(ks: seq<K>, cs: seq<nat>, steps: seq<Action>, c: nat, n: nat): nat
    requires Run(ks, cs, steps) && n <= |steps|
  {
    if n == 0 then 0
    else SearchCount(ks, cs, steps, c, n - 1) + (if cs[n - 1] == c && Searches(ks[n - 1], c, steps[n - 1]) then 1 else 0)
  }

  /** CPU c never destroys the environment it is running. */
  ghost predicate KeepsEnvs(ks: seq<K>, cs: seq<nat>, steps: seq<Action>, c: nat)
    requires Run(ks, cs, steps)
  {
    forall n :: 0 <= n < |steps| && cs[n] == c ==> !LosesEnv(ks[n], c, steps[n])
  }

  predicate Waits(k: K, t: nat) { Shape(k) && t < NENV && k.envs[t].status == Runnable }

  ghost predicate Alive(k: K, c: nat) { IsCpu(k, c) && !k.cpus[c].mode.Monitor? }

  lemma RunStep(ks: seq<K>, cs: seq<nat>, steps: seq<Action>, c: nat, t: nat, n: nat)
    requires Run(ks, cs, steps) && Guarded(ks, cs, steps) && Inv(ks[0]) && KeepsEnvs(ks, cs, steps, c)
    requires n < |steps| && Alive(ks[n], c) && Waits(ks[n], t) && Waits(ks[n + 1], t)
    ensures Alive(ks[n + 1], c)
    ensures Rank(ks[n + 1].cpus[c].env, t) + (if cs[n] == c && Searches(ks[n], c, steps[n]) then 1 else 0) <= Rank(ks[n].cpus[c].env, t)
  {
    KernelSteps.RunInv(ks, cs, steps, n);
    assert Can(ks[n], cs[n], steps[n]) && ks[n + 1] == Next(ks[n], cs[n], steps[n]);
    hide Inv, Guard, LosesEnv, Searches, Next, Can;
    StepNearer(ks[n], cs[n], steps[n], c, t);
    NoMonitor(ks[n], cs[n], steps[n], c, t);
  }

  lemma {:induction false} DistanceShrinks(ks: seq<K>, cs: seq<nat>, steps: seq<Action>, c: nat, t: nat, n: nat)
    requires Run(ks, cs, steps) && Guarded(ks, cs, steps) && Inv(ks[0]) && KeepsEnvs(ks, cs, steps, c)
    requires Alive(ks[0], c) && Waits(ks[0], t) && n <= |steps| && forall m :: 0 <= m <= n ==> Waits(ks[m], t)
    ensures Alive(ks[n], c)
    ensures SearchCount(ks, cs, steps, c, n) + Rank(ks[n].cpus[c].env, t) <= Rank(ks[0].cpus[c].env, t)
  {
    assert |ks| == |steps| + 1;
    hide Inv, Guarded, KeepsEnvs, Run, Searches, Alive, Rank;
    assert Waits(ks[n], t);
    if n > 0 {
      DistanceShrinks(ks, cs, steps, c, t, n - 1);
      RunStep(ks, cs, steps, c, t, n - 1);
    } else {
      AliveIs(ks[0], c);
    }
  }

  lemma AliveIs(k: K, c: nat)
    ensures Alive(k, c) <==> IsCpu(k, c) && !k.cpus[c].mode.Monitor?
  {
  }

  /** While t waits, c has searched less often than its distance from t. */
  lemma StillWaiting(ks: seq<K>, cs: seq<nat>, steps: seq<Action>, c: nat, t: nat)
    requires Run(ks, cs, steps) && Guarded(ks, cs, steps) && Inv(ks[0]) && KeepsEnvs(ks, cs, steps, c)
    requires Alive(ks[0], c) && Waits(ks[0], t) && forall m :: 0 <= m < |ks| ==> Waits(ks[m], t)
    ensures SearchCount(ks, cs, steps, c, |steps|) < Rank(ks[0].cpus[c].env, t)
  {
    var n := |steps|;
    DistanceShrinks(ks, cs, steps, c, t, n);
    KernelSteps.RunInv(ks, cs, steps, n);
    assert ks[n].cpus[c].env >= 0 ==> Occupied(ks[n].envs[ks[n].cpus[c].env]);
  }

  /* ---- how waiting ends ---- */

  /** The step makes an end of t's waiting: its CPU now runs t, or it is sys_env_set_status stopping t, or
      it destroys t. */
  ghost predicate EndsWait(k: K, b: nat, a: Action, t: nat)
    requires Can(k, b, a) && t < NENV
  {
    var k' := Next(k, b, a);
    || (k'.envs[t].status == Running && k'.cpus[b].env == t)
    || (a.Work? && a.ev.ChangeStatus? && Envid2Env(k, b, a.ev.envid, true) == t && k'.envs[t].status == NotRunnable)
    || (a.Work? && a.ev.Destroy? && Envid2Env(k, b, a.ev.envid, true) == t && k'.envs[t].status == Free)
  }

  /** What leaving the kernel does to an environment that is not running. */
  predicate Spared(k: K, k': K, c: nat, t: nat)
    requires Shape(k) && IsCpu(k', c) && t < NENV
  {
    || k'.envs[t].status == k.envs[t].status
    || (k.envs[t].status == Runnable && k'.envs[t].status == Running && k'.cpus[c].env == t)
  }

  lemma RunSpares(k: K, c: nat, j: nat, t: nat)
    requires IsCpu(k, c) && j < NENV && t < NENV && k.envs[t].status != Running
    requires k.envs[j].status == Runnable || (j == k.cpus[c].env && k.envs[j].status == Running)
    ensures IsCpu(EnvRun(k, c, j), c) && Spared(k, EnvRun(k, c, j), c, t)
  {
  }

  lemma YieldSpares(k: K, c: nat, t: nat)
    requires IsCpu(k, c) && t < NENV && k.envs[t].status != Running
    ensures Spared(k, SchedYield(k, c), c, t)
  {
    hide EnvRun, Slot, StartOf, Pick;
    var j := Pick(k.envs, StartOf(k, c), 0);
    if j < NENV {
      RunSpares(k, c, Slot(StartOf(k, c), j), t);
    } else if k.cpus[c].env >= 0 && k.envs[k.cpus[c].env].status == Running {
      RunSpares(k, c, k.cpus[c].env, t);
    } else {
      assert SchedYield(k, c).envs == k.envs;
    }
  }

  lemma ReturnSpares(k: K, c: nat, t: nat)
    requires IsCpu(k, c) && t < NENV && k.envs[t].status != Running
    ensures Spared(k, TrapReturn(k, c), c, t)
  {
    hide EnvRun, SchedYield;
    YieldSpares(k, c, t);
    if k.cpus[c].env >= 0 && k.envs[k.cpus[c].env].status == Running { RunSpares(k, c, k.cpus[c].env, t); }
  }

  lemma DestroySpares(k: K, c: nat, i: nat, t: nat)
    requires IsCpu(k, c) && i < NENV && t < NENV && k.envs[t].status == Runnable
    ensures i != t ==> Spared(k, EnvDestroy(k, c, i), c, t)
    ensures i == t ==> EnvDestroy(k, c, i).envs[t].status == Free
  {
    hide SchedYield, TrapReturn;
    ReturnSpares(SetStatus(k, i, Dying), c, t);
    var k1 := EnvFree(k, i);
    ReturnSpares(k1, c, t);
    YieldSpares(SetCpu(k1, c, k.cpus[c].(env := -1)), c, t);
  }

  /** A runnable environment stops being runnable in no other way. */
  lemma WaitEnds(k: K, b: nat, a: Action, t: nat)
    requires Inv(k) && Can(k, b, a) && t < NENV && k.envs[t].status == Runnable && Next(k, b, a).envs[t].status != Runnable
    ensures EndsWait(k, b, a, t)
  {
    if a.Work? {
      var cur := k.cpus[b].env;
      if !k.cpus[b].mode.fromUser {
        YieldSpares(k, b, t);
      } else if k.envs[cur].status == Dying {
        YieldSpares(SetCpu(EnvFree(k, cur), b, k.cpus[b].(env := -1)), b, t);
      } else {
        assert Occupied(k.envs[cur]);
        CallEnds(k, b, a.ev, t);
      }
    }
  }

  lemma CallEnds(k: K, b: nat, ev: Event, t: nat)
    requires Serving(k, b) && t < NENV && k.envs[t].status == Runnable && Body(k, b, ev).envs[t].status != Runnable
    ensures EndsWait(k, b, Work(ev), t)
  {
    hide Inv, SchedYield, TrapReturn, EnvRun, EnvDestroy, NextId;
    match ev
    case Timer => YieldSpares(k, b, t);
    case Nop => ReturnSpares(k, b, t);
    case Fault(handled) => if handled { RunSpares(k, b, k.cpus[b].env, t); } else { DestroySpares(k, b, k.cpus[b].env, t); }
    case Destroy(envid) =>
      var i := Envid2Env(k, b, envid, true);
      if i < 0 { ReturnSpares(k, b, t); } else { DestroySpares(k, b, i, t); }
    case Exofork(memory) =>
      ExoforkKeeps(k, b, memory, t);
      ReturnSpares(SysExofork(k, b, memory), b, t);
    case ChangeStatus(envid, s) => ReturnSpares(SysEnvSetStatus(k, b, envid, s), b, t);
    case Recv(dstOk) => if dstOk { YieldSpares(StartRecv(k, k.cpus[b].env), b, t); } else { ReturnSpares(k, b, t); }
    case TrySend(envid, value, pageOk) => ReturnSpares(SysIpcTrySend(k, b, envid, value, pageOk), b, t);
  }

  lemma ExoforkKeeps(k: K, c: nat, memory: bool, t: nat)
    requires Serving(k, c) && t < NENV && k.envs[t].status == Runnable
    ensures SysExofork(k, c, memory).envs[t] == k.envs[t]
  {
    if k.freeEnvs != [] { assert k.freeEnvs[0] in k.freeEnvs; }
  }

  /** Bounded bypass.  Let t be runnable, and let CPU c call sched_yield NENV - 1 times, or NENV times if
      it starts without an environment (halted, or on its way in), and not destroy the environments it
      runs meanwhile.  Then at some step m the waiting of t has ended: a CPU has chosen it, or it was
      stopped by sys_env_set_status or destroyed. */
  lemma BoundedBypass(ks: seq<K>, cs: seq<nat>, steps: seq<Action>, c: nat, t: nat) returns (m: nat)
    requires Run(ks, cs, steps) && Guarded(ks, cs, steps) && Inv(ks[0]) && KeepsEnvs(ks, cs, steps, c)
    requires Alive(ks[0], c) && Waits(ks[0], t)
    requires SearchCount(ks, cs, steps, c, |steps|) >= if ks[0].cpus[c].env >= 0 then NENV - 1 else NENV
    ensures m < |steps| && (forall n :: 0 <= n <= m ==> Waits(ks[n], t)) && EndsWait(ks[m], cs[m], steps[m], t)
  {
    m := 0;
    while m < |steps| && Waits(ks[m + 1], t)
      invariant m <= |steps| && forall n :: 0 <= n <= m ==> Waits(ks[n], t)
    {
      m := m + 1;
    }
    KernelSteps.RunInv(ks, cs, steps, m);
    if m == |steps| {
      StillWaiting(ks, cs, steps, c, t);
      assert false;
    }
    assert Can(ks[m], cs[m], steps[m]) && ks[m + 1] == Next(ks[m], cs[m], steps[m]);
    hide Inv, Guarded, KeepsEnvs, EndsWait, Next, Can;
    WaitEnds(ks[m], cs[m], steps[m], t);
  }
}
