/** Consequences of the kernel invariant: how it starts, who is where when the lock is free, and how
    every passage through the kernel ends. */
module KernelRuns {
  import opened EnvIds
  import opened Kernel
  import opened KernelInvariant
  import opened KernelSteps

  /* ---- the start ---- */

  function EmptyEnv(): Env { Env(0, 0, Free, false, 0, 0, false, [], []) }

  /** The machine when boot_aps has started the other CPUs: env_init has run, the boot CPU holds the
      lock, the others are waiting for it in mp_main. */
  function Boot(ncpu: nat): K
    requires ncpu > 0
  {
    K(seq(NENV, _ => EmptyEnv()), seq(NENV, i => i),
      seq(ncpu, c => Cpu(false, -1, if c == 0 then Inside(false) else Locking(1, false))), Lock(true, 0, 0))
  }

  lemma BootInv(ncpu: nat)
    requires ncpu > 0
    ensures Inv(Boot(ncpu)) && Boot(ncpu).cpus[0].mode == Inside(false)
  {
    var k := Boot(ncpu);
    forall i: nat | i < NENV ensures i in k.freeEnvs && k.envs[i].status == Free { assert k.freeEnvs[i] == i; }
    assert forall c :: 0 <= c < ncpu ==> k.cpus[c].env == -1;
  }

  /** env_init puts the environments on the free list in the order of envs: the first one created is envs[0], with id
      4096, and the others follow in order. */
  lemma BootFirst(ncpu: nat)
    requires ncpu > 0
    ensures var (k, i) := EnvAlloc(Boot(ncpu), 0, true);
            && i == 0 && k.envs[0].id == 4096 && k.freeEnvs == seq(NENV - 1, j => j + 1)
            && forall j :: 0 < j < NENV ==> k.envs[j].status == Free && k.envs[j].id == 0
  {
    var k := Boot(ncpu);
    assert NextId(0, 0) == 4096;
    assert k.freeEnvs[1..] == seq(NENV - 1, j => j + 1);
  }

  lemma BornOk(e: Env, i: nat, parent: int)
    requires EnvOk(e, i) && i < NENV
    ensures EnvOk(Env(NextId(e.id, i), parent, Runnable, false, e.ipcFrom, e.ipcValue, false, [], []), i)
  {
    NextIdGood(e.id, i);
    hide NextId;
  }

  /** One environment changes that is on no CPU, neither before nor after. */
  lemma OffCpuInv(k: K, k1: K, i: nat)
    requires Inv(k) && Shape(k1) && k1.cpus == k.cpus && k1.lock == k.lock && FreeEnvsOk(k1) && i < NENV
    requires forall j: nat :: j < NENV && j != i ==> k1.envs[j] == k.envs[j]
    requires EnvOk(k1.envs[i], i) && !Occupied(k.envs[i]) && !Occupied(k1.envs[i])
    ensures Inv(k1)
  {
    hide EnvOk, FreeEnvsOk;
    forall j: nat | j < NENV && Occupied(k1.envs[j]) ensures OnCpu(k1, j) {
      assert OnCpu(k, j);
      var d :| 0 <= d < |k.cpus| && k.cpus[d].env == j;
      assert k1.cpus[d].env == j;
    }
    assert Placed(k1);
  }

  /** env_create on the boot CPU. */
  lemma CreateInv(k: K, c: nat)
    requires Inv(k) && IsCpu(k, c) && k.cpus[c].mode == Inside(false)
    ensures var k1 := EnvAlloc(k, 0, true).0;
            Inv(k1) && k1.cpus == k.cpus
  {
    var k1 := EnvAlloc(k, 0, true).0;
    if k.freeEnvs != [] {
      hide NextId, SlotId, Placed, LockOk, FreeEnvsOk;
      AllocFreeList(k, 0);
      var i := k.freeEnvs[0];
      assert EnvOk(k.envs[i], i);
      hide EnvOk, Inv;
      BornOk(k.envs[i], i, 0);
      OffCpuInv(k, k1, i);
    }
  }

  /* ---- whenever the lock is free ---- */

  lemma WhenLockFree(k: K)
    requires Inv(k) && !k.lock.locked
    ensures forall i: nat :: i < NENV && Occupied(k.envs[i]) ==>
              exists c :: 0 <= c < |k.cpus| && k.cpus[c].env == i && forall d :: 0 <= d < |k.cpus| && k.cpus[d].env == i ==> d == c
    ensures forall c :: 0 <= c < |k.cpus| && k.cpus[c].env >= 0 ==> Occupied(k.envs[k.cpus[c].env])
    ensures forall c :: 0 <= c < |k.cpus| && k.cpus[c].mode.Halted? ==> k.cpus[c].env == -1
    ensures forall i: nat :: i < NENV && k.envs[i].recving ==> k.envs[i].status == NotRunnable || k.envs[i].status == Free
    ensures forall c :: 0 <= c < |k.cpus| ==> !InKernel(k.cpus[c])
  {
    forall i: nat | i < NENV && Occupied(k.envs[i])
      ensures exists c :: 0 <= c < |k.cpus| && k.cpus[c].env == i && forall d :: 0 <= d < |k.cpus| && k.cpus[d].env == i ==> d == c
    {
      assert OnCpu(k, i);
      var c :| 0 <= c < |k.cpus| && k.cpus[c].env == i;
      forall d | 0 <= d < |k.cpus| && k.cpus[d].env == i ensures d == c {}
    }
    forall c | 0 <= c < |k.cpus| ensures CpuOk(k.cpus[c]) {}
  }

  /** Every passage through the kernel, begun with the lock in state l, ends with the lock free after
      exactly one release, or in the monitor with nothing left to run and no release; and a CPU halts
      only when nothing is runnable. */
  ghost predicate Exited(l: Lock, k: K, c: nat) {
    && IsCpu(k, c)
    && match k.cpus[c].mode
       case User => k.lock == Lock(false, -1, l.releases + 1)
       case Halted =>
         k.lock == Lock(false, -1, l.releases + 1) && k.cpus[c].env == -1 && forall i :: 0 <= i < NENV ==> k.envs[i].status != Runnable
       case Monitor => k.lock == l && AllIdle(k.envs)
       case _ => false
  }

  lemma PickNone(envs: seq<Env>, cur: nat)
    requires |envs| == NENV && cur < NENV && Pick(envs, cur, 0) == NENV
    ensures forall i: nat :: i < NENV ==> envs[i].status != Runnable
  {
    forall i: nat | i < NENV ensures envs[i].status != Runnable {
      var x := (i + NENV - cur) % NENV;
      SlotOffset(cur, i);
      assert Slot(cur, x) == i;
    }
  }

  lemma SlotOffset(cur: nat, i: nat)
    requires cur < NENV && i < NENV
    ensures (i + NENV - cur) % NENV == (if i >= cur then i - cur else i + NENV - cur)
    ensures Slot(cur, (i + NENV - cur) % NENV) == i
  {
  }

  lemma RunExits(k: K, c: nat, j: nat)
    requires IsCpu(k, c) && j < NENV && Holding(k, c)
    ensures Exited(k.lock, EnvRun(k, c, j), c)
  {
  }

  lemma HaltExits(k: K, c: nat)
    requires IsCpu(k, c) && Holding(k, c) && forall i: nat :: i < NENV ==> k.envs[i].status != Runnable
    ensures Exited(k.lock, SchedHalt(k, c), c)
  {
  }

  lemma StartInRange(k: K, c: nat)
    requires IsCpu(k, c)
    ensures StartOf(k, c) < NENV
  {
  }

  lemma SchedYieldExits(k: K, c: nat)
    requires IsCpu(k, c) && Holding(k, c)
    ensures Exited(k.lock, SchedYield(k, c), c)
  {
    hide Slot, StartOf, EnvRun, SchedHalt, Exited;
    var j := Pick(k.envs, StartOf(k, c), 0);
    if j < NENV {
      RunExits(k, c, Slot(StartOf(k, c), j));
    } else if k.cpus[c].env >= 0 && k.envs[k.cpus[c].env].status == Running {
      RunExits(k, c, k.cpus[c].env);
    } else {
      StartInRange(k, c);
      PickNone(k.envs, StartOf(k, c));
      HaltExits(k, c);
    }
  }

  lemma TrapReturnExits(k: K, c: nat)
    requires IsCpu(k, c) && Holding(k, c)
    ensures Exited(k.lock, TrapReturn(k, c), c)
  {
    if k.cpus[c].env >= 0 { RunExits(k, c, k.cpus[c].env); }
    SchedYieldExits(k, c);
    hide SchedYield, EnvRun, Exited;
  }

  lemma HoldsInside(k: K, c: nat)
    requires Inv(k) && IsCpu(k, c) && k.cpus[c].mode.Inside?
    ensures Holding(k, c)
  {
  }

  /** A trap from a live environment. */
  lemma CallExits(k: K, c: nat, ev: Event)
    requires Can(k, c, Work(ev)) && Holding(k, c) && k.cpus[c].mode.fromUser && k.envs[k.cpus[c].env].status != Dying
    ensures Exited(k.lock, Body(k, c, ev), c)
  {
    hide SchedYield, TrapReturn, EnvRun, EnvDestroy, Exited;
    match ev
    case Timer => SchedYieldExits(k, c);
    case Nop => TrapReturnExits(k, c);
    case Fault(handled) => if handled { RunExits(k, c, k.cpus[c].env); } else { DestroyExits(k, c, k.cpus[c].env); }
    case Destroy(envid) =>
      if Envid2Env(k, c, envid, true) >= 0 { DestroyExits(k, c, Envid2Env(k, c, envid, true)); } else { TrapReturnExits(k, c); }
    case Exofork(memory) => TrapReturnExits(SysExofork(k, c, memory), c);
    case ChangeStatus(envid, s) => TrapReturnExits(SysEnvSetStatus(k, c, envid, s), c);
    case Recv(dstOk) => if dstOk { SchedYieldExits(StartRecv(k, k.cpus[c].env), c); } else { TrapReturnExits(k, c); }
    case TrySend(envid, value, pageOk) => TrapReturnExits(SysIpcTrySend(k, c, envid, value, pageOk), c);
  }

  /** A passage starts with the lock held by its CPU, and so its one release is the holder's. */
  lemma BodyExits(k: K, c: nat, ev: Event)
    requires Inv(k) && Can(k, c, Work(ev))
    ensures Holding(k, c) && Exited(k.lock, Body(k, c, ev), c)
  {
    HoldsInside(k, c);
    hide SchedYield, TrapReturn, Exited, Inv, EnvRun, EnvDestroy;
    if !k.cpus[c].mode.fromUser {
      SchedYieldExits(k, c);
    } else if k.envs[k.cpus[c].env].status == Dying {
      SchedYieldExits(SetCpu(EnvFree(k, k.cpus[c].env), c, k.cpus[c].(env := -1)), c);
    } else {
      CallExits(k, c, ev);
    }
  }

  lemma DestroyExits(k: K, c: nat, i: nat)
    requires IsCpu(k, c) && i < NENV && Holding(k, c)
    ensures Exited(k.lock, EnvDestroy(k, c, i), c)
  {
    hide SchedYield, TrapReturn, Exited;
    TrapReturnExits(SetStatus(k, i, Dying), c);
    var k1 := EnvFree(k, i);
    TrapReturnExits(k1, c);
    SchedYieldExits(SetCpu(k1, c, k.cpus[c].(env := -1)), c);
  }

  /* ---- releases over runs ---- */

  /** A passage through the kernel that does not end in the monitor. */
  predicate Passes(k: K, c: nat, a: Action)
    requires Can(k, c, a)
  {
    a.Work? && !Next(k, c, a).cpus[c].mode.Monitor?
  }

  /** The lock is released by such passages, once each, and always by the CPU that holds it; by nothing
      else is it released. */
  lemma StepReleases(k: K, c: nat, a: Action)
    requires Inv(k) && Can(k, c, a)
    ensures Next(k, c, a).lock.releases == k.lock.releases + (if Passes(k, c, a) then 1 else 0)
    ensures Next(k, c, a).lock.releases != k.lock.releases ==> Holding(k, c)
    ensures Holding(k, c) && !Holding(Next(k, c, a), c) ==> Passes(k, c, a)
  {
    if a.Work? { BodyExits(k, c, a.ev); }
    hide Inv, Body;
  }

  /** Such passages among the first n steps. */
  function Passages(ks: seq<K>, cs: seq<nat>, steps: seq<Action>, n: nat): nat
    requires |cs| == |steps| && n <= |steps| <= |ks| && forall i :: 0 <= i < |steps| ==> Can(ks[i], cs[i], steps[i])
  {
    if n == 0 then 0 else Passages(ks, cs, steps, n - 1) + (if Passes(ks[n - 1], cs[n - 1], steps[n - 1]) then 1 else 0)
  }

  /** Over any guarded run the lock has been released exactly as often as a CPU has left the kernel. */
  lemma {:induction false} RunReleases(ks: seq<K>, cs: seq<nat>, steps: seq<Action>, n: nat)
    requires Run(ks, cs, steps) && Guarded(ks, cs, steps) && Inv(ks[0]) && n <= |steps|
    ensures ks[n].lock.releases == ks[0].lock.releases + Passages(ks, cs, steps, n)
  {
    hide Inv, Guarded, Next, Passes;
    if n > 0 {
      RunReleases(ks, cs, steps, n - 1);
      RunInv(ks, cs, steps, n - 1);
      StepReleases(ks[n - 1], cs[n - 1], steps[n - 1]);
    }
  }
}
