/** What every interleaving of the kernel's steps on any number of CPUs preserves. */
module KernelInvariant {
  import opened EnvIds
  import opened Kernel

  predicate OnCpu(k: K, i: nat)
  {
    exists c :: 0 <= c < |k.cpus| && k.cpus[c].env == i
  }

  predicate Occupied(e: Env) { e.status == Running || e.status == Dying }

  /** The mode of a CPU, its cpu_status and its cpu_env fit together; in particular a trap from any
      resting place has exactly one acquisition to make. */
  predicate CpuOk(cpu: Cpu) {
    match cpu.mode
    case User => !cpu.halted && cpu.env >= 0
    case Locking(n, fromUser) => !cpu.halted && n == 1 && (fromUser <==> cpu.env >= 0)
    case Inside(fromUser) => !cpu.halted && (fromUser <==> cpu.env >= 0)
    case Halted => cpu.halted && cpu.env == -1
    case Monitor => !cpu.halted
  }

  predicate InKernel(cpu: Cpu) { cpu.mode.Inside? || cpu.mode.Monitor? }

  /** Every CPU past lock_kernel holds the lock, and nobody else does. */
  predicate LockOk(k: K) {
    && (k.lock.locked ==> 0 <= k.lock.cpu < |k.cpus| && InKernel(k.cpus[k.lock.cpu]))
    && (forall c :: 0 <= c < |k.cpus| && InKernel(k.cpus[c]) ==> Holding(k, c))
  }

  /** Messages accepted and returned: equal, except for one accepted but not yet read. */
  predicate MailOk(e: Env) {
    && (e.recving ==> e.inCall)
    && e.sent == if e.inCall && !e.recving then e.got + [Msg(e.ipcFrom, e.ipcValue)] else e.got
  }

  predicate EnvOk(e: Env, i: nat) {
    && SlotId(e.id, i) && (e.status != Free ==> e.id > 0)
    && (e.recving ==> e.status == NotRunnable || e.status == Free)
    && MailOk(e)
  }

  predicate FreeEnvsOk(k: K)
    requires Shape(k)
  {
    && (forall a, b :: 0 <= a < b < |k.freeEnvs| ==> k.freeEnvs[a] != k.freeEnvs[b])
    && (forall i: nat :: i < NENV ==> (i in k.freeEnvs <==> k.envs[i].status == Free))
  }

  /** The part that scheduling may disturb for one CPU: all other CPUs run distinct environments that
      are running or dying, and every such environment is on a CPU.  CPUs in the monitor are over. */
  ghost predicate Placed(k: K)
    requires Shape(k)
  {
    && (forall c :: 0 <= c < |k.cpus| && k.cpus[c].env >= 0 && !k.cpus[c].mode.Monitor? ==> Occupied(k.envs[k.cpus[c].env]))
    && (forall c, d :: 0 <= c < d < |k.cpus| && k.cpus[c].env >= 0 ==> k.cpus[c].env != k.cpus[d].env)
    && (forall i: nat :: i < NENV && Occupied(k.envs[i]) ==> OnCpu(k, i))
  }

  ghost predicate Inv(k: K) {
    && Shape(k)
    && (forall c :: 0 <= c < |k.cpus| ==> CpuOk(k.cpus[c]))
    && LockOk(k) && FreeEnvsOk(k) && Placed(k)
    && (forall i: nat :: i < NENV ==> EnvOk(k.envs[i], i))
  }

  /** Inside the kernel on CPU c, before it picks what to run: its environment (if any) is running,
      or has just been made not runnable. */
  ghost predicate Deciding(k: K, c: nat) {
    && IsCpu(k, c) && InKernel(k.cpus[c]) && !k.cpus[c].mode.Monitor? && !k.cpus[c].halted
    && (forall d :: 0 <= d < |k.cpus| && d != c ==> CpuOk(k.cpus[d]))
    && LockOk(k) && FreeEnvsOk(k)
    && (forall i: nat :: i < NENV ==> EnvOk(k.envs[i], i))
    && (forall d :: 0 <= d < |k.cpus| && d != c && k.cpus[d].env >= 0 ==> Occupied(k.envs[k.cpus[d].env]))
    && (forall d, x :: 0 <= d < x < |k.cpus| && k.cpus[d].env >= 0 ==> k.cpus[d].env != k.cpus[x].env)
    && (forall i: nat :: i < NENV && Occupied(k.envs[i]) ==> OnCpu(k, i))
    && (k.cpus[c].env >= 0 ==> k.envs[k.cpus[c].env].status == Running || k.envs[k.cpus[c].env].status == NotRunnable)
  }

  lemma OnlyHolder(k: K, c: nat)
    requires Inv(k) && IsCpu(k, c) && InKernel(k.cpus[c])
    ensures forall d :: 0 <= d < |k.cpus| && d != c ==> !InKernel(k.cpus[d])
  {
  }

  lemma InvDeciding(k: K, c: nat)
    requires Inv(k) && IsCpu(k, c) && k.cpus[c].mode.Inside?
    requires k.cpus[c].env >= 0 ==> k.envs[k.cpus[c].env].status == Running
    ensures Deciding(k, c)
  {
    OnlyHolder(k, c);
  }

  /** Leaving the kernel: the lock is released, once, and CPU c rests in user code or halted. */
  ghost predicate Left(k: K, k': K, c: nat) {
    && IsCpu(k, c) && Shape(k') && |k'.cpus| == |k.cpus|
    && (forall d :: 0 <= d < |k.cpus| && d != c ==> k'.cpus[d] == k.cpus[d])
    && (k'.cpus[c].mode.User? || k'.cpus[c].mode.Halted?) && CpuOk(k'.cpus[c])
    && k'.lock == Lock(false, -1, k.lock.releases + 1)
  }

  lemma LeftLock(k: K, k': K, c: nat)
    requires Deciding(k, c) && Left(k, k', c)
    ensures LockOk(k') && forall d :: 0 <= d < |k'.cpus| ==> CpuOk(k'.cpus[d])
  {
    assert Holding(k, c);
    forall d | 0 <= d < |k'.cpus| ensures !InKernel(k'.cpus[d]) {
      if d != c { assert k'.cpus[d] == k.cpus[d]; }
    }
  }

  /** Environments changed only between the states of live environments that are not receiving. */
  ghost predicate Restatused(k: K, k': K)
    requires Shape(k) && Shape(k')
  {
    && k'.freeEnvs == k.freeEnvs
    && (forall i: nat :: i < NENV ==>
          || k'.envs[i] == k.envs[i]
          || (k'.envs[i] == k.envs[i].(status := k'.envs[i].status) && !k.envs[i].recving
              && k.envs[i].status != Free && k'.envs[i].status != Free))
  }

  lemma RestatusedEnvs(k: K, k': K)
    requires Shape(k) && Shape(k') && FreeEnvsOk(k) && Restatused(k, k')
    requires forall i: nat :: i < NENV ==> EnvOk(k.envs[i], i)
    ensures FreeEnvsOk(k') && forall i: nat :: i < NENV ==> EnvOk(k'.envs[i], i)
  {
    forall i: nat | i < NENV ensures EnvOk(k'.envs[i], i) && (k'.envs[i].status == Free <==> k.envs[i].status == Free) {
      assert EnvOk(k.envs[i], i);
    }
  }

  lemma LeftInv(k: K, k': K, c: nat)
    requires Deciding(k, c) && Left(k, k', c) && Restatused(k, k') && Placed(k')
    ensures Inv(k')
  {
    LeftLock(k, k', c);
    RestatusedEnvs(k, k');
  }

  lemma StillOnCpu(k: K, k': K, c: nat, i: nat)
    requires IsCpu(k, c) && |k'.cpus| == |k.cpus| && OnCpu(k, i)
    requires forall d :: 0 <= d < |k.cpus| && d != c ==> k'.cpus[d] == k.cpus[d]
    requires k.cpus[c].env == i ==> k'.cpus[c].env == i
    ensures OnCpu(k', i)
  {
    var d :| 0 <= d < |k.cpus| && k.cpus[d].env == i;
    assert k'.cpus[d].env == i;
  }

  /** Resuming the environment that was running. */
  lemma ResumeInv(k: K, c: nat)
    requires Deciding(k, c) && k.cpus[c].env >= 0 && k.envs[k.cpus[c].env].status == Running
    ensures Inv(EnvRun(k, c, k.cpus[c].env))
  {
    var k' := EnvRun(k, c, k.cpus[c].env);
    forall i: nat | i < NENV && Occupied(k'.envs[i]) ensures OnCpu(k', i) { StillOnCpu(k, k', c, i); }
    assert Placed(k');
    LeftInv(k, k', c);
  }

  /** Switching to a runnable environment. */
  lemma SwitchInv(k: K, c: nat, j: nat)
    requires Deciding(k, c) && j < NENV && k.envs[j].status == Runnable
    ensures Inv(EnvRun(k, c, j))
  {
    var k' := EnvRun(k, c, j);
    SwitchPlaced(k, c, j);
    assert Left(k, k', c);
    assert Restatused(k, k');
    hide *;
    LeftInv(k, k', c);
  }

  lemma RunForm(k: K, c: nat, j: nat)
    requires IsCpu(k, c) && j < NENV && k.cpus[c].env != j
    ensures var (k', cur) := (EnvRun(k, c, j), k.cpus[c].env);
            && Shape(k') && k'.cpus[c].env == j && k'.envs[j].status == Running
            && (forall i: nat :: i < NENV && i != j ==>
                  k'.envs[i].status == if i == cur && k.envs[i].status == Running then Runnable else k.envs[i].status)
  {
  }

  lemma SwitchPlaced(k: K, c: nat, j: nat)
    requires Deciding(k, c) && j < NENV && k.envs[j].status == Runnable
    ensures Shape(EnvRun(k, c, j)) && Placed(EnvRun(k, c, j))
  {
    var k' := EnvRun(k, c, j);
    RunForm(k, c, j);
    hide LockOk, FreeEnvsOk, EnvOk, CpuOk, EnvRun;
    forall i: nat | i < NENV && Occupied(k'.envs[i]) ensures OnCpu(k', i) {
      if i == j { assert k'.cpus[c].env == i; } else { StillOnCpu(k, k', c, i); }
    }
  }

  /** Halting, or falling into the monitor. */
  lemma HaltInv(k: K, c: nat)
    requires Deciding(k, c) && (k.cpus[c].env >= 0 ==> k.envs[k.cpus[c].env].status == NotRunnable)
    ensures Inv(SchedHalt(k, c))
  {
    var k' := SchedHalt(k, c);
    forall i: nat | i < NENV && Occupied(k'.envs[i]) ensures OnCpu(k', i) { StillOnCpu(k, k', c, i); }
    assert Placed(k');
    if AllIdle(k.envs) {
      assert LockOk(k');
    } else {
      LeftInv(k, k', c);
    }
  }

  /** sched_yield from any deciding state: it halts only when nothing is runnable. */
  lemma SchedYieldInv(k: K, c: nat)
    requires Deciding(k, c)
    ensures Inv(SchedYield(k, c))
  {
    var cur := k.cpus[c].env;
    var j := Pick(k.envs, StartOf(k, c), 0);
    if j < NENV { SwitchInv(k, c, Slot(StartOf(k, c), j)); }
    else if cur >= 0 && k.envs[cur].status == Running { ResumeInv(k, c); }
    else { HaltInv(k, c); }
  }

  lemma TrapReturnInv(k: K, c: nat)
    requires Deciding(k, c)
    ensures Inv(TrapReturn(k, c))
  {
    if k.cpus[c].env >= 0 && k.envs[k.cpus[c].env].status == Running { ResumeInv(k, c); } else { SchedYieldInv(k, c); }
  }
}
