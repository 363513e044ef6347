/** Every step of every CPU keeps the kernel invariant; where the code needs its callers' restraint,
    exactly how much. */
module KernelSteps {
  import opened EnvIds
  import opened Kernel
  import opened KernelInvariant

  /** CPU c is inside the kernel on behalf of a live user environment. */
  ghost predicate Serving(k: K, c: nat) {
    && Inv(k) && IsCpu(k, c) && k.cpus[c].mode.Inside? && k.cpus[c].mode.fromUser
    && k.cpus[c].env >= 0 && k.envs[k.cpus[c].env].status == Running
  }

  /** Replacing one environment keeps the deciding state when it stays on its CPU, or when it is the
      current one and is merely stopped. */
  lemma OneEnv(k: K, k1: K, c: nat, i: nat)
    requires Deciding(k, c) && Shape(k1) && i < NENV && FreeEnvsOk(k1) && EnvOk(k1.envs[i], i)
    requires k1.cpus == k.cpus && k1.lock == k.lock && (forall j: nat :: j < NENV && j != i ==> k1.envs[j] == k.envs[j])
    requires i == k.cpus[c].env ==> k1.envs[i].status == Running || k1.envs[i].status == NotRunnable
    requires i != k.cpus[c].env ==> (Occupied(k1.envs[i]) <==> Occupied(k.envs[i]))
    requires i == k.cpus[c].env ==> (Occupied(k1.envs[i]) ==> Occupied(k.envs[i]))
    ensures Deciding(k1, c)
  {
    forall j: nat | j < NENV && Occupied(k1.envs[j]) ensures OnCpu(k1, j) {
      assert OnCpu(k, j);
      var d :| 0 <= d < |k.cpus| && k.cpus[d].env == j;
      assert k1.cpus[d].env == j;
    }
  }

  lemma ServingDeciding(k: K, c: nat)
    requires Serving(k, c)
    ensures Deciding(k, c)
  {
    InvDeciding(k, c);
  }

  /** Same status class, so the free list still lists the free environments. */
  lemma FreeListSame(k: K, k1: K, i: nat)
    requires Shape(k) && Shape(k1) && FreeEnvsOk(k) && i < NENV && k1.freeEnvs == k.freeEnvs
    requires forall j: nat :: j < NENV && j != i ==> k1.envs[j] == k.envs[j]
    requires k1.envs[i].status == Free <==> k.envs[i].status == Free
    ensures FreeEnvsOk(k1)
  {
  }

  lemma FreeListPush(k: K, i: nat)
    requires Shape(k) && FreeEnvsOk(k) && i < NENV && k.envs[i].status != Free
    ensures Shape(EnvFree(k, i)) && FreeEnvsOk(EnvFree(k, i))
  {
    var k1 := EnvFree(k, i);
    assert k1.freeEnvs[0] == i && k1.freeEnvs[1..] == k.freeEnvs;
    forall j: nat | j < NENV ensures j in k1.freeEnvs <==> k1.envs[j].status == Free {
      assert j in k1.freeEnvs <==> j == i || j in k.freeEnvs;
    }
  }

  /** Freeing the current environment, whether it asked for it or was found dying. */
  lemma FreeSelf(k: K, c: nat)
    requires Inv(k) && IsCpu(k, c) && k.cpus[c].mode.Inside? && k.cpus[c].env >= 0
    ensures Deciding(SetCpu(EnvFree(k, k.cpus[c].env), c, k.cpus[c].(env := -1)), c)
  {
    var i := k.cpus[c].env;
    OnlyHolder(k, c);
    FreeListPush(k, i);
    var k1 := SetCpu(EnvFree(k, i), c, k.cpus[c].(env := -1));
    FreeSelfPlaced(k, c);
    assert LockOk(k1);
    assert FreeEnvsOk(k1);
    forall j: nat | j < NENV ensures EnvOk(k1.envs[j], j) { assert EnvOk(k.envs[j], j); }
  }

  lemma FreeSelfPlaced(k: K, c: nat)
    requires Shape(k) && Placed(k) && IsCpu(k, c) && k.cpus[c].mode.Inside? && k.cpus[c].env >= 0
    requires forall d :: 0 <= d < |k.cpus| && d != c ==> !k.cpus[d].mode.Monitor?
    ensures var k1 := SetCpu(EnvFree(k, k.cpus[c].env), c, k.cpus[c].(env := -1));
            && (forall d :: 0 <= d < |k1.cpus| && d != c && k1.cpus[d].env >= 0 ==> Occupied(k1.envs[k1.cpus[d].env]))
            && (forall d, x :: 0 <= d < x < |k1.cpus| && k1.cpus[d].env >= 0 ==> k1.cpus[d].env != k1.cpus[x].env)
            && (forall j: nat :: j < NENV && Occupied(k1.envs[j]) ==> OnCpu(k1, j))
  {
    var i := k.cpus[c].env;
    var k1 := SetCpu(EnvFree(k, i), c, k.cpus[c].(env := -1));
    forall d | 0 <= d < |k.cpus| && d != c ensures k1.cpus[d] == k.cpus[d] && (k.cpus[d].env >= 0 ==> k.cpus[d].env != i) {
      if d < c { assert k.cpus[d].env >= 0 ==> k.cpus[d].env != k.cpus[c].env; }
    }
    forall j: nat | j < NENV && Occupied(k1.envs[j]) ensures OnCpu(k1, j) { StillOnCpu(k, k1, c, j); }
  }

  /** The usual shape of a system call: one environment changes, then the CPU leaves the kernel. */
  lemma ServeOne(k: K, k1: K, c: nat, i: nat)
    requires Serving(k, c) && Shape(k1) && i < NENV && FreeEnvsOk(k1) && EnvOk(k1.envs[i], i)
    requires k1.cpus == k.cpus && k1.lock == k.lock && (forall j: nat :: j < NENV && j != i ==> k1.envs[j] == k.envs[j])
    requires i == k.cpus[c].env ==> k1.envs[i].status == Running || k1.envs[i].status == NotRunnable
    requires i != k.cpus[c].env ==> (Occupied(k1.envs[i]) <==> Occupied(k.envs[i]))
    ensures Inv(TrapReturn(k1, c)) && Inv(SchedYield(k1, c))
  {
    ServingDeciding(k, c);
    OneEnv(k, k1, c, i);
    hide *;
    TrapReturnInv(k1, c);
    SchedYieldInv(k1, c);
  }

  /* ---- sys_env_destroy ---- */

  /** The guard a caller of sys_env_destroy must respect. */
  predicate DestroyGuard(k: K, c: nat, envid: int)
    requires IsCpu(k, c)
  {
    var i := Envid2Env(k, c, envid, true);
    i >= 0 ==> k.envs[i].status != Dying
  }

  lemma DestroyOther(k: K, c: nat, i: nat)
    requires Serving(k, c) && i < NENV && i != k.cpus[c].env && k.envs[i].status != Free && k.envs[i].status != Dying
    ensures Inv(EnvDestroy(k, c, i))
  {
    assert EnvOk(k.envs[i], i);
    if k.envs[i].status == Running {
      FreeListSame(k, SetStatus(k, i, Dying), i);
      ServeOne(k, SetStatus(k, i, Dying), c, i);
    } else {
      FreeListPush(k, i);
      ServeOne(k, EnvFree(k, i), c, i);
    }
  }

  lemma DestroySelf(k: K, c: nat)
    requires Serving(k, c)
    ensures Inv(EnvDestroy(k, c, k.cpus[c].env))
  {
    FreeSelf(k, c);
    SchedYieldInv(SetCpu(EnvFree(k, k.cpus[c].env), c, k.cpus[c].(env := -1)), c);
  }

  /** Only the current CPU's exit runs after a system call on a running environment. */
  lemma ReturnsRunning(k: K, c: nat)
    requires IsCpu(k, c) && k.cpus[c].env >= 0 && k.envs[k.cpus[c].env].status == Running
    ensures TrapReturn(k, c) == EnvPopTf(k, c)
  {
  }

  /** An environment is taken off the CPU that is running it, by another CPU. */
  lemma TakenAway(k: K, k': K, c: nat, i: nat)
    requires Inv(k) && IsCpu(k, c) && InKernel(k.cpus[c]) && Shape(k') && |k'.cpus| == |k.cpus|
    requires forall d :: 0 <= d < |k.cpus| && d != c ==> k'.cpus[d] == k.cpus[d]
    requires i < NENV && i != k.cpus[c].env && Occupied(k.envs[i]) && !Occupied(k'.envs[i])
    ensures !Inv(k')
  {
    assert OnCpu(k, i);
    var d :| 0 <= d < |k.cpus| && k.cpus[d].env == i;
    OnlyHolder(k, c);
    assert k'.cpus[d].env == i && !k'.cpus[d].mode.Monitor?;
  }

  lemma PopKeepsEnvs(k: K, c: nat)
    requires IsCpu(k, c)
    ensures Shape(EnvPopTf(k, c)) && EnvPopTf(k, c).envs == k.envs
  {
  }

  /** Destroying an environment that is already dying frees it under the CPU that is running it. */
  lemma DestroyDying(k: K, c: nat, i: nat)
    requires Serving(k, c) && i < NENV && k.envs[i].status == Dying
    ensures !Inv(EnvDestroy(k, c, i))
  {
    var k1 := EnvFree(k, i);
    hide Inv, TrapReturn, EnvPopTf, SchedYield;
    assert EnvDestroy(k, c, i) == TrapReturn(k1, c);
    ReturnsRunning(k1, c);
    PopKeepsEnvs(k1, c);
    TakenAway(k, EnvDestroy(k, c, i), c, i);
  }

  /** sys_env_destroy is safe exactly when its target is not dying already. */
  lemma DestroyExact(k: K, c: nat, envid: int)
    requires Serving(k, c)
    ensures Inv(Body(k, c, Destroy(envid))) <==> DestroyGuard(k, c, envid)
  {
    var i := Envid2Env(k, c, envid, true);
    if i < 0 {
      ServingDeciding(k, c);
      TrapReturnInv(k, c);
    } else if i == k.cpus[c].env {
      DestroySelf(k, c);
    } else if k.envs[i].status == Dying {
      DestroyDying(k, c, i);
    } else {
      DestroyOther(k, c, i);
    }
  }

  /* ---- sys_env_set_status ---- */

  /** What sys_env_set_status would write over is harmless: the call is refused, or the target is
      resting and not receiving, or a receiver is left waiting, or the caller stops itself. */
  predicate StatusGuard(k: K, c: nat, envid: int, s: Status)
    requires IsCpu(k, c)
  {
    var i := Envid2Env(k, c, envid, true);
    (s == Runnable || s == NotRunnable) && i >= 0 ==>
      match k.envs[i].status
      case Runnable => true
      case NotRunnable => !(k.envs[i].recving && s == Runnable)
      case Running => i == k.cpus[c].env && s == NotRunnable
      case Dying => false
      case Free => true
  }

  /** envid2env finds no free environment. */
  lemma TargetInUse(k: K, c: nat, envid: int)
    requires Serving(k, c)
    ensures var i := Envid2Env(k, c, envid, true); i >= 0 ==> k.envs[i].status != Free
  {
  }

  lemma SetStatusGood(k: K, c: nat, envid: int, s: Status)
    requires Serving(k, c) && StatusGuard(k, c, envid, s)
    ensures Inv(Body(k, c, ChangeStatus(envid, s)))
  {
    hide Deciding, Placed, LockOk, FreeEnvsOk, TrapReturn, SchedYield, Envid2Env;
    var i := Envid2Env(k, c, envid, true);
    var k1 := SysEnvSetStatus(k, c, envid, s);
    assert Body(k, c, ChangeStatus(envid, s)) == TrapReturn(k1, c);
    if k1 != k {
      TargetInUse(k, c, envid);
      assert EnvOk(k.envs[i], i);
      FreeListSame(k, k1, i);
      ServeOne(k, k1, c, i);
    } else {
      ServingDeciding(k, c);
      TrapReturnInv(k, c);
    }
  }

  lemma SetStatusBad(k: K, c: nat, envid: int, s: Status)
    requires Serving(k, c) && !StatusGuard(k, c, envid, s)
    ensures !Inv(Body(k, c, ChangeStatus(envid, s)))
  {
    hide Inv, TrapReturn, EnvPopTf, SchedYield, Envid2Env, EnvOk, SlotId;
    var i := Envid2Env(k, c, envid, true);
    var k1 := SysEnvSetStatus(k, c, envid, s);
    var k' := Body(k, c, ChangeStatus(envid, s));
    assert k' == TrapReturn(k1, c);
    EnvsOk(k, i);
    if i == k.cpus[c].env {
      SelfRunnable(k1, c);
    } else {
      ReturnsRunning(k1, c);
      PopKeepsEnvs(k1, c);
      if k.envs[i].status == NotRunnable { NotReceiving(k', i); } else { TakenAway(k, k', c, i); }
    }
  }

  lemma EnvsOk(k: K, i: nat)
    requires Inv(k) && i < NENV && k.envs[i].status != Free
    ensures EnvOk(k.envs[i], i) && SlotId(k.envs[i].id, i) && k.envs[i].id > 0
  {
    assert EnvOk(k.envs[i], i);
  }

  lemma NotReceiving(k: K, i: nat)
    requires Shape(k) && i < NENV && k.envs[i].recving && k.envs[i].status == Runnable
    ensures !Inv(k)
  {
    assert !EnvOk(k.envs[i], i);
  }

  /** A caller that marks itself runnable is found by the search at once and resumed with that
      status, so that another CPU can pick it too. */
  lemma SelfRunnable(k: K, c: nat)
    requires IsCpu(k, c) && k.cpus[c].env >= 0 && k.envs[k.cpus[c].env].status == Runnable
    requires SlotId(k.envs[k.cpus[c].env].id, k.cpus[c].env) && k.envs[k.cpus[c].env].id > 0
    ensures !Inv(TrapReturn(k, c))
  {
    var cur := k.cpus[c].env;
    IdIndex(k.envs[cur].id, cur);
    assert Slot(cur, 0) == cur;
    assert Pick(k.envs, cur, 0) == 0;
    var k' := TrapReturn(k, c);
    assert k' == EnvPopTf(k, c);
    assert k'.cpus[c].env == cur && !Occupied(k'.envs[cur]);
  }

  lemma IdIndex(id: int, i: nat)
    requires SlotId(id, i) && id > 0
    ensures Envx(id) == i
  {
    LowBits(4 * (id / GENERATION), i);
  }

  /** sys_env_set_status is safe exactly under its guard. */
  lemma SetStatusExact(k: K, c: nat, envid: int, s: Status)
    requires Serving(k, c)
    ensures Inv(Body(k, c, ChangeStatus(envid, s))) <==> StatusGuard(k, c, envid, s)
  {
    if StatusGuard(k, c, envid, s) { SetStatusGood(k, c, envid, s); } else { SetStatusBad(k, c, envid, s); }
  }

  /* ---- IPC ---- */

  /** What scheduling leaves alone of an environment. */
  predicate SameRest(e: Env, f: Env) { e.(status := Free) == f.(status := Free) }

  /** The environments after a switch. */
  lemma RunEnvs(k: K, c: nat, j: nat)
    requires IsCpu(k, c) && j < NENV
    ensures var cur := k.cpus[c].env;
            var envs := if cur >= 0 && k.envs[cur].status == Running then k.envs[cur := k.envs[cur].(status := Runnable)] else k.envs;
            EnvRun(k, c, j).envs == if cur == j then k.envs else envs[j := envs[j].(status := Running)]
  {
    hide EnvPopTf;
    var cur := k.cpus[c].env;
    if cur == j {
      PopKeepsEnvs(k, c);
    } else {
      var k1 := if cur >= 0 && k.envs[cur].status == Running then SetStatus(k, cur, Runnable) else k;
      PopKeepsEnvs(SetCpu(SetStatus(k1, j, Running), c, k.cpus[c].(env := j)), c);
    }
  }

  lemma RunKeepsRest(k: K, c: nat, j: nat)
    requires IsCpu(k, c) && j < NENV
    ensures Shape(EnvRun(k, c, j)) && forall i: nat :: i < NENV ==> SameRest(EnvRun(k, c, j).envs[i], k.envs[i])
  {
    RunEnvs(k, c, j);
    hide EnvRun;
  }

  lemma SchedKeepsRest(k: K, c: nat)
    requires IsCpu(k, c)
    ensures Shape(SchedYield(k, c)) && forall i: nat :: i < NENV ==> SameRest(SchedYield(k, c).envs[i], k.envs[i])
  {
    hide EnvRun, Slot, StartOf, Pick;
    var j := Pick(k.envs, StartOf(k, c), 0);
    if j < NENV {
      RunKeepsRest(k, c, Slot(StartOf(k, c), j));
    } else if k.cpus[c].env >= 0 && k.envs[k.cpus[c].env].status == Running {
      RunKeepsRest(k, c, k.cpus[c].env);
    } else {
      assert SchedYield(k, c).envs == k.envs;
    }
  }

  lemma RecvGood(k: K, c: nat)
    requires Serving(k, c) && !k.envs[k.cpus[c].env].inCall
    ensures Inv(SchedYield(StartRecv(k, k.cpus[c].env), c))
  {
    hide SchedYield, Deciding, Placed, LockOk, FreeEnvsOk;
    var cur := k.cpus[c].env;
    assert EnvOk(k.envs[cur], cur);
    FreeListSame(k, StartRecv(k, cur), cur);
    ServeOne(k, StartRecv(k, cur), c, cur);
  }

  lemma RecvBad(k: K, c: nat)
    requires Serving(k, c) && k.envs[k.cpus[c].env].inCall
    ensures !Inv(SchedYield(StartRecv(k, k.cpus[c].env), c))
  {
    hide SchedYield, Deciding, Placed, LockOk, FreeEnvsOk;
    var cur := k.cpus[c].env;
    assert EnvOk(k.envs[cur], cur);
    SchedKeepsRest(StartRecv(k, cur), c);
    assert !EnvOk(SchedYield(StartRecv(k, cur), c).envs[cur], cur);
  }

  lemma RecvBody(k: K, c: nat)
    requires Serving(k, c)
    ensures Body(k, c, Recv(true)) == SchedYield(StartRecv(k, k.cpus[c].env), c)
  {
    hide SchedYield, Inv;
  }

  /** sys_ipc_recv is safe exactly when the program has read its previous message. */
  lemma RecvExact(k: K, c: nat)
    requires Serving(k, c)
    ensures Inv(Body(k, c, Recv(true))) <==> !k.envs[k.cpus[c].env].inCall
  {
    RecvBody(k, c);
    hide *;
    if k.envs[k.cpus[c].env].inCall { RecvBad(k, c); } else { RecvGood(k, c); }
  }

  lemma DeliverOk(e: Env, i: nat, from: int, value: int)
    requires EnvOk(e, i) && e.recving && e.status != Free
    ensures EnvOk(e.(recving := false, ipcFrom := from, ipcValue := value, status := Runnable, sent := e.sent + [Msg(from, value)]), i)
  {
  }

  lemma TrySendInv(k: K, c: nat, envid: int, value: int, pageOk: bool)
    requires Serving(k, c)
    ensures Inv(TrapReturn(SysIpcTrySend(k, c, envid, value, pageOk), c))
  {
    hide Deciding, Placed, LockOk, FreeEnvsOk, TrapReturn;
    var i := Envid2Env(k, c, envid, false);
    var k1 := SysIpcTrySend(k, c, envid, value, pageOk);
    if k1 != k {
      assert EnvOk(k.envs[i], i);
      DeliverOk(k.envs[i], i, k.envs[k.cpus[c].env].id, value);
      FreeListSame(k, k1, i);
      ServeOne(k, k1, c, i);
    } else {
      ServingDeciding(k, c);
      TrapReturnInv(k, c);
    }
  }

  /* ---- sys_exofork ---- */

  lemma AllocFreeList(k: K, parent: int)
    requires Shape(k) && FreeEnvsOk(k) && k.freeEnvs != []
    ensures var (k1, i) := EnvAlloc(k, parent, true);
            && i == k.freeEnvs[0] && 0 <= i < NENV && Shape(k1) && FreeEnvsOk(k1) && k.envs[i].status == Free
  {
    var (k1, i) := EnvAlloc(k, parent, true);
    assert k.freeEnvs == [i] + k1.freeEnvs;
    assert i in k.freeEnvs;
    forall j: nat | j < NENV ensures j in k1.freeEnvs <==> k1.envs[j].status == Free {
      assert j in k.freeEnvs <==> j == i || j in k1.freeEnvs;
    }
  }

  lemma NewbornOk(e: Env, i: nat, parent: int)
    requires EnvOk(e, i) && i < NENV
    ensures EnvOk(Env(NextId(e.id, i), parent, NotRunnable, false, e.ipcFrom, e.ipcValue, false, [], []), i)
  {
    NextIdGood(e.id, i);
  }

  lemma ExoforkInv(k: K, c: nat, memory: bool)
    requires Serving(k, c)
    ensures Inv(TrapReturn(SysExofork(k, c, memory), c))
  {
    hide Deciding, Placed, LockOk, TrapReturn, NextId;
    var parent := k.envs[k.cpus[c].env].id;
    var k1 := SysExofork(k, c, memory);
    if k1 != k {
      AllocFreeList(k, parent);
      var i := k.freeEnvs[0];
      assert EnvOk(k.envs[i], i);
      NewbornOk(k.envs[i], i, parent);
      FreeListSame(EnvAlloc(k, parent, true).0, k1, i);
      ServeOne(k, k1, c, i);
    } else {
      ServingDeciding(k, c);
      TrapReturnInv(k, c);
    }
  }

  /* ---- every step ---- */

  /** What user programs must respect: the guards above, on system calls that get through. */
  ghost predicate Guard(k: K, c: nat, a: Action)
    requires Can(k, c, a)
  {
    a.Work? && Serving(k, c) ==>
      match a.ev
      case Destroy(envid) => DestroyGuard(k, c, envid)
      case ChangeStatus(envid, s) => StatusGuard(k, c, envid, s)
      case Recv(dstOk) => dstOk ==> !k.envs[k.cpus[c].env].inCall
      case _ => true
  }

  lemma ServeStep(k: K, c: nat, ev: Event)
    requires Serving(k, c)
    ensures Inv(Body(k, c, ev)) <==> Guard(k, c, Work(ev))
  {
    ServingDeciding(k, c);
    match ev
    case Timer => SchedYieldInv(k, c);
    case Nop => TrapReturnInv(k, c);
    case Fault(handled) => if handled { ResumeInv(k, c); } else { DestroySelf(k, c); }
    case Destroy(envid) => DestroyExact(k, c, envid);
    case Exofork(memory) => ExoforkInv(k, c, memory);
    case ChangeStatus(envid, s) => SetStatusExact(k, c, envid, s);
    case Recv(dstOk) => if dstOk { RecvExact(k, c); } else { TrapReturnInv(k, c); }
    case TrySend(envid, value, pageOk) => TrySendInv(k, c, envid, value, pageOk);
  }

  lemma WorkStep(k: K, c: nat, ev: Event)
    requires Inv(k) && Can(k, c, Work(ev))
    ensures Inv(Body(k, c, ev)) <==> Guard(k, c, Work(ev))
  {
    if !k.cpus[c].mode.fromUser {
      InvDeciding(k, c);
      SchedYieldInv(k, c);
    } else if k.envs[k.cpus[c].env].status == Dying {
      FreeSelf(k, c);
      SchedYieldInv(SetCpu(EnvFree(k, k.cpus[c].env), c, k.cpus[c].(env := -1)), c);
    } else {
      assert Occupied(k.envs[k.cpus[c].env]);
      ServeStep(k, c, ev);
    }
  }

  /** A CPU on its way in has exactly one acquisition to make and does not hold the lock, so the
      panic in spin_lock is never reached and no lock is taken twice. */
  lemma NeverReacquires(k: K, c: nat)
    requires Inv(k) && IsCpu(k, c) && k.cpus[c].mode.Locking?
    ensures k.cpus[c].mode.acquisitions == 1 && !Holding(k, c)
  {
    assert CpuOk(k.cpus[c]);
  }

  /** CPU c changes its mode only: nobody else, and no environment, notices. */
  lemma ModeInv(k: K, k': K, c: nat)
    requires Inv(k) && IsCpu(k, c) && Shape(k') && |k'.cpus| == |k.cpus| && k'.envs == k.envs && k'.freeEnvs == k.freeEnvs
    requires !k.cpus[c].mode.Monitor? && !k'.cpus[c].mode.Monitor? && k'.cpus[c].env == k.cpus[c].env && CpuOk(k'.cpus[c])
    requires (forall d :: 0 <= d < |k.cpus| && d != c ==> k'.cpus[d] == k.cpus[d]) && LockOk(k')
    ensures Inv(k')
  {
    forall i: nat | i < NENV && Occupied(k'.envs[i]) ensures OnCpu(k', i) { StillOnCpu(k, k', c, i); }
    assert Placed(k');
  }

  lemma EnterInv(k: K, c: nat)
    requires Inv(k) && Can(k, c, Trap)
    ensures Inv(TrapEnter(k, c))
  {
    assert CpuOk(k.cpus[c]);
    ModeInv(k, TrapEnter(k, c), c);
  }

  lemma AcquireInv(k: K, c: nat)
    requires Inv(k) && Can(k, c, Acquire)
    ensures Inv(LockTurn(k, c))
  {
    NeverReacquires(k, c);
    assert CpuOk(k.cpus[c]);
    if !k.lock.locked { ModeInv(k, LockTurn(k, c), c); }
  }

  lemma ReadInv(k: K, c: nat)
    requires Inv(k) && Can(k, c, Read)
    ensures Inv(ReadMessage(k, c))
  {
    var i := k.cpus[c].env;
    var k' := ReadMessage(k, c);
    assert EnvOk(k.envs[i], i) && EnvOk(k'.envs[i], i);
    FreeListSame(k, k', i);
    forall j: nat | j < NENV && Occupied(k'.envs[j]) ensures OnCpu(k', j) {
      assert OnCpu(k, j);
      var d :| 0 <= d < |k.cpus| && k.cpus[d].env == j;
      assert k'.cpus[d].env == j;
    }
    assert Placed(k');
  }

  /** The inductive invariant: any step of any CPU keeps it exactly when the step respects the guards. */
  lemma StepExact(k: K, c: nat, a: Action)
    requires Inv(k) && Can(k, c, a)
    ensures Inv(Next(k, c, a)) <==> Guard(k, c, a)
  {
    match a
    case Trap => EnterInv(k, c);
    case Acquire => AcquireInv(k, c);
    case Work(ev) => WorkStep(k, c, ev);
    case Read => ReadInv(k, c);
  }

  /** A run: CPU cs[i] takes step as[i], in any interleaving. */
  ghost predicate Run(ks: seq<K>, cs: seq<nat>, steps: seq<Action>) {
    && |ks| == |steps| + 1 && |cs| == |steps|
    && (forall i :: 0 <= i < |steps| ==> Can(ks[i], cs[i], steps[i]) && ks[i + 1] == Next(ks[i], cs[i], steps[i]))
  }

  ghost predicate Guarded(ks: seq<K>, cs: seq<nat>, steps: seq<Action>)
    requires Run(ks, cs, steps)
  {
    forall i :: 0 <= i < |steps| ==> Guard(ks[i], cs[i], steps[i])
  }

  lemma {:induction false} RunInv(ks: seq<K>, cs: seq<nat>, steps: seq<Action>, n: nat)
    requires Run(ks, cs, steps) && Guarded(ks, cs, steps) && Inv(ks[0]) && n < |ks|
    ensures Inv(ks[n])
  {
    if n > 0 {
      RunInv(ks, cs, steps, n - 1);
      StepExact(ks[n - 1], cs[n - 1], steps[n - 1]);
    }
  }
}
