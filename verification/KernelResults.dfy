/** What each passage through the kernel does, told by the fields of the environments and of the CPU: whom a
    system call may name, what it changes, and how the kernel is left. */
module KernelResults {
  import opened EnvIds
  import opened Kernel
  import opened KernelInvariant
  import opened KernelSteps

  /* ---- ways out of the kernel ---- */

  /** The lock is given back and CPU c ends up as cpu; nothing else happens. */
  predicate Exits(k: K, k': K, c: nat, cpu: Cpu) {
    && c < |k.cpus|
    && k' == K(k.envs, k.freeEnvs, k.cpus[c := cpu], Lock(false, -1, k.lock.releases + 1))
  }

  /** The environment that trapped goes on in user code. */
  predicate Resumes(k: K, k': K, c: nat) { c < |k.cpus| && Exits(k, k', c, Cpu(false, k.cpus[c].env, User)) }

  /** How many slots on from slot a, in a circle, slot b is. */
  function Ahead(a: nat, b: nat): nat
    requires a < NENV && b < NENV
  {
    if a <= b then b - a else b + NENV - a
  }

  /** The first runnable slot in the circle from slot start on. */
  predicate FirstFrom(envs: seq<Env>, start: nat, j: nat)
    requires |envs| == NENV && start < NENV && j < NENV
  {
    envs[j].status == Runnable && forall x: nat :: x < NENV && envs[x].status == Runnable ==> Ahead(start, j) <= Ahead(start, x)
  }

  /** CPU c switches to slot j: what it ran so far, if it still runs, is runnable again. */
  predicate Switches(k: K, k': K, c: nat, j: nat)
    requires Shape(k) && c < |k.cpus| && j < NENV
  {
    var prev := k.cpus[c].env;
    var envs := if prev >= 0 && k.envs[prev].status == Running then k.envs[prev := k.envs[prev].(status := Runnable)] else k.envs;
    if j == prev then Resumes(k, k', c)
    else Exits(k.(envs := envs[j := envs[j].(status := Running)]), k', c, Cpu(false, j, User))
  }

  /** The scheduler: the first runnable environment after the CPU's own, in a circle (from slot 0 if it has none);
      without one the CPU's own, if it still runs; without that either the CPU halts, if some environment
      runs elsewhere, or it stays in the monitor for ever with the lock held. */
  ghost predicate Yields(k: K, k': K, c: nat) {
    && IsCpu(k, c)
    && var prev := k.cpus[c].env;
       if exists i: nat :: i < NENV && k.envs[i].status == Runnable then
         exists j: nat :: j < NENV && FirstFrom(k.envs, if prev >= 0 then prev else 0, j) && Switches(k, k', c, j)
       else if prev >= 0 && k.envs[prev].status == Running then Resumes(k, k', c)
       else if exists i: nat :: i < NENV && k.envs[i].status == Running then Exits(k, k', c, Cpu(true, -1, Halted))
       else k' == k.(cpus := k.cpus[c := k.cpus[c].(mode := Monitor)])
  }

  /** About to leave: CPU c has the lock, once, and its environment's id names its slot. */
  predicate Leaving(k: K, c: nat) {
    && IsCpu(k, c) && Holding(k, c) && k.cpus[c].mode.Inside? && !k.cpus[c].halted
    && (k.cpus[c].env >= 0 ==> Envx(k.envs[k.cpus[c].env].id) == k.cpus[c].env)
  }

  lemma PopResumes(k: K, c: nat)
    requires Leaving(k, c)
    ensures Resumes(k, EnvPopTf(k, c), c)
  {
    assert k.cpus[c := Cpu(false, k.cpus[c].env, User)] == EnvPopTf(k, c).cpus;
  }

  lemma RunSwitches(k: K, c: nat, j: nat)
    requires Leaving(k, c) && j < NENV
    ensures Switches(k, EnvRun(k, c, j), c, j)
  {
    var prev := k.cpus[c].env;
    if j == prev {
      PopResumes(k, c);
    } else {
      var k1 := if prev >= 0 && k.envs[prev].status == Running then SetStatus(k, prev, Runnable) else k;
      var k2 := SetCpu(SetStatus(k1, j, Running), c, k.cpus[c].(env := j));
      assert EnvPopTf(k2, c).cpus == k.cpus[c := Cpu(false, j, User)];
    }
  }

  lemma SlotAhead(start: nat, x: nat)
    requires start < NENV && x < NENV
    ensures Ahead(start, Slot(start, x)) == x && Slot(start, Ahead(start, x)) == x && Ahead(start, x) < NENV
  {
  }

  lemma PickFirst(envs: seq<Env>, start: nat)
    requires |envs| == NENV && start < NENV
    ensures var x := Pick(envs, start, 0);
            && (x < NENV ==> FirstFrom(envs, start, Slot(start, x)))
            && (x == NENV ==> forall i: nat :: i < NENV ==> envs[i].status != Runnable)
  {
    hide Slot, Ahead;
    var x := Pick(envs, start, 0);
    if x < NENV { SlotAhead(start, x); }
    forall i: nat | i < NENV && envs[i].status == Runnable ensures x <= Ahead(start, i) < NENV {
      SlotAhead(start, i);
      assert envs[Slot(start, Ahead(start, i))].status == Runnable;
    }
  }

  lemma YieldYields(k: K, c: nat)
    requires Leaving(k, c)
    ensures Yields(k, SchedYield(k, c), c)
  {
    hide Pick, Switches, EnvRun, Slot, FirstFrom, EnvPopTf;
    var (prev, start) := (k.cpus[c].env, StartOf(k, c));
    PickFirst(k.envs, start);
    var x := Pick(k.envs, start, 0);
    if x < NENV {
      var j := Slot(start, x);
      assert k.envs[j].status == Runnable;
      RunSwitches(k, c, j);
    } else if prev >= 0 && k.envs[prev].status == Running {
      OwnResumes(k, c);
    } else if exists i: nat :: i < NENV && k.envs[i].status == Running {
      HaltExits(k, c);
    } else {
      assert AllIdle(k.envs);
    }
  }

  lemma OwnResumes(k: K, c: nat)
    requires Leaving(k, c) && k.cpus[c].env >= 0
    ensures Resumes(k, EnvRun(k, c, k.cpus[c].env), c)
  {
    PopResumes(k, c);
    hide EnvPopTf;
  }

  lemma HaltExits(k: K, c: nat)
    requires Leaving(k, c) && exists i: nat :: i < NENV && k.envs[i].status == Running
    ensures Exits(k, SchedHalt(k, c), c, Cpu(true, -1, Halted))
  {
    var i: nat :| i < NENV && k.envs[i].status == Running;
    assert !AllIdle(k.envs) by { assert Busy(k.envs[i]); }
    assert SchedHalt(k, c).cpus == k.cpus[c := Cpu(true, -1, Halted)];
  }

  /** The end of a trap that leaves its environment running. */
  lemma ReturnResumes(k: K, c: nat)
    requires Leaving(k, c) && k.cpus[c].env >= 0 && k.envs[k.cpus[c].env].status == Running
    ensures Resumes(k, TrapReturn(k, c), c)
  {
    OwnResumes(k, c);
    hide EnvRun;
  }

  lemma ReturnYields(k: K, c: nat)
    requires Leaving(k, c) && k.cpus[c].env >= 0 && k.envs[k.cpus[c].env].status != Running
    ensures Yields(k, TrapReturn(k, c), c)
  {
    YieldYields(k, c);
    hide SchedYield;
  }

  lemma ServingLeaves(k: K, c: nat)
    requires Serving(k, c)
    ensures Leaving(k, c)
  {
    var cur := k.cpus[c].env;
    assert EnvOk(k.envs[cur], cur);
    IdIndex(k.envs[cur].id, cur);
    assert CpuOk(k.cpus[c]);
  }

  /* ---- whom a system call may name ---- */

  /** Slot i is in use by the environment with this id. */
  predicate Bears(k: K, i: int, id: int) { 0 <= i < |k.envs| && k.envs[i].status != Free && k.envs[i].id == id }

  /** CPU c runs the environment of slot i, or the one that created the environment of slot i. */
  predicate Governs(k: K, c: nat, i: int) {
    && 0 <= i < |k.envs| && c < |k.cpus|
    && (i == k.cpus[c].env || (0 <= k.cpus[c].env < |k.envs| && k.envs[i].parent == k.envs[k.cpus[c].env].id))
  }

  /** envid2env: id 0 is the caller; any other id names the environment in use that bears it, with checkperm only if
      that is the caller or a child of the caller; otherwise it is refused. */
  lemma Envid2EnvExact(k: K, c: nat, envid: int, checkPerm: bool)
    requires Inv(k) && IsCpu(k, c)
    ensures envid == 0 ==> Envid2Env(k, c, envid, checkPerm) == k.cpus[c].env
    ensures envid != 0 ==> forall i: nat ::
              Envid2Env(k, c, envid, checkPerm) == i <==> Bears(k, i, envid) && (checkPerm ==> Governs(k, c, i))
  {
    forall i: nat | envid != 0
      ensures Envid2Env(k, c, envid, checkPerm) == i <==> Bears(k, i, envid) && (checkPerm ==> Governs(k, c, i))
    {
      if Bears(k, i, envid) {
        assert EnvOk(k.envs[i], i);
        IdIndex(envid, i);
      }
    }
    hide Inv, EnvOk;
  }

  /* ---- passages that are no system call ---- */

  /** A timer interrupt, or sys_yield. */
  lemma TimerResult(k: K, c: nat)
    requires Serving(k, c)
    ensures Yields(k, Body(k, c, Timer), c)
  {
    hide SchedYield, Yields, Inv;
    ServingLeaves(k, c);
    YieldYields(k, c);
  }

  /** A halted CPU that is woken looks for work. */
  lemma WokenResult(k: K, c: nat, ev: Event)
    requires Inv(k) && IsCpu(k, c) && k.cpus[c].mode == Inside(false)
    ensures Yields(k, Body(k, c, ev), c)
  {
    hide SchedYield, Yields;
    assert CpuOk(k.cpus[c]);
    YieldYields(k, c);
  }

  /** The state in which the environment of CPU c is free and the CPU has none. */
  function SelfFreed(k: K, c: nat): K
    requires IsCpu(k, c) && k.cpus[c].env >= 0
  {
    var cur := k.cpus[c].env;
    k.(envs := k.envs[cur := k.envs[cur].(status := Free)], freeEnvs := [cur] + k.freeEnvs,
       cpus := k.cpus[c := k.cpus[c].(env := -1)])
  }

  lemma FreedYields(k: K, c: nat)
    requires Inv(k) && IsCpu(k, c) && k.cpus[c].mode == Inside(true)
    ensures k.cpus[c].env >= 0
    ensures Yields(SelfFreed(k, c), SchedYield(SetCpu(EnvFree(k, k.cpus[c].env), c, k.cpus[c].(env := -1)), c), c)
  {
    hide SchedYield, Yields;
    assert CpuOk(k.cpus[c]);
    YieldYields(SelfFreed(k, c), c);
    assert SelfFreed(k, c) == SetCpu(EnvFree(k, k.cpus[c].env), c, k.cpus[c].(env := -1));
  }

  /** A zombie is freed the next time it traps, whatever it traps for. */
  lemma ZombieResult(k: K, c: nat, ev: Event)
    requires Inv(k) && IsCpu(k, c) && k.cpus[c].mode == Inside(true) && k.cpus[c].env >= 0 && k.envs[k.cpus[c].env].status == Dying
    ensures Yields(SelfFreed(k, c), Body(k, c, ev), c)
  {
    hide SchedYield, Yields, Inv;
    FreedYields(k, c);
  }

  /** A page fault that the environment handles itself resumes it; one that it does not handle destroys it. */
  lemma FaultResult(k: K, c: nat, handled: bool)
    requires Serving(k, c)
    ensures var k' := Body(k, c, Fault(handled));
            if handled then Resumes(k, k', c) else Yields(SelfFreed(k, c), k', c)
  {
    hide SchedYield, Yields, Inv, EnvRun, Resumes;
    ServingLeaves(k, c);
    OwnResumes(k, c);
    FreedYields(k, c);
  }

  /** A system call that concerns none of this. */
  lemma NopResult(k: K, c: nat)
    requires Serving(k, c)
    ensures Resumes(k, Body(k, c, Nop), c)
  {
    hide TrapReturn, Resumes, Inv;
    ServingLeaves(k, c);
    ReturnResumes(k, c);
  }

  /* ---- sys_env_destroy, sys_env_set_status, sys_exofork ---- */

  /** The environment that id 0 or a permitted id names. */
  predicate Names(k: K, c: nat, envid: int, i: int) {
    if envid == 0 then c < |k.cpus| && i == k.cpus[c].env else Bears(k, i, envid) && Governs(k, c, i)
  }

  lemma TargetNamed(k: K, c: nat, envid: int)
    requires Serving(k, c)
    ensures forall i: nat :: Envid2Env(k, c, envid, true) == i <==> Names(k, c, envid, i)
  {
    hide Envid2Env, Inv, Bears, Governs;
    Envid2EnvExact(k, c, envid, true);
  }

  lemma LeavingAfter(k: K, k1: K, c: nat)
    requires Leaving(k, c) && Shape(k1) && k1.cpus == k.cpus && k1.lock == k.lock
    requires k.cpus[c].env >= 0 ==> k1.envs[k.cpus[c].env].id == k.envs[k.cpus[c].env].id
    ensures Leaving(k1, c)
  {
  }

  /** sys_env_set_status with ENV_RUNNABLE or ENV_NOT_RUNNABLE for an environment that the caller may name gives it that
      status, and the caller goes on, unless it has stopped itself and another environment is looked for; one
      that makes itself runnable goes on too.  Anything else changes nothing. */
  lemma ChangeStatusResult(k: K, c: nat, envid: int, s: Status, i: int)
    requires Serving(k, c)
    ensures var k' := Body(k, c, ChangeStatus(envid, s));
            && ((s == Runnable || s == NotRunnable) && Names(k, c, envid, i) ==>
                  && 0 <= i < |k.envs|
                  && var k1 := k.(envs := k.envs[i := k.envs[i].(status := s)]);
                     if i == k.cpus[c].env && s == NotRunnable then Yields(k1, k', c) else Resumes(k1, k', c))
            && ((s != Runnable && s != NotRunnable) || (forall j :: !Names(k, c, envid, j)) ==> Resumes(k, k', c))
  {
    hide SchedYield, TrapReturn, Yields, Resumes, Inv, Envid2Env, Names;
    ServingLeaves(k, c);
    TargetNamed(k, c, envid);
    var t := Envid2Env(k, c, envid, true);
    assert t >= 0 ==> Names(k, c, envid, t);
    var k1 := SysEnvSetStatus(k, c, envid, s);
    assert Body(k, c, ChangeStatus(envid, s)) == TrapReturn(k1, c);
    NamesSlot(k, c, envid, i);
    LeavingAfter(k, k1, c);
    if (s != Runnable && s != NotRunnable) || t < 0 {
      ReturnResumes(k, c);
    } else if t == k.cpus[c].env {
      if s == Runnable { SelfResumes(k1, c); } else { ReturnYields(k1, c); }
    } else {
      ReturnResumes(k1, c);
    }
  }

  lemma NamesSlot(k: K, c: nat, envid: int, i: int)
    requires Serving(k, c)
    ensures Names(k, c, envid, i) ==> 0 <= i < |k.envs|
  {
  }

  lemma SelfResumes(k: K, c: nat)
    requires Leaving(k, c) && k.cpus[c].env >= 0 && k.envs[k.cpus[c].env].status == Runnable
    ensures Resumes(k, TrapReturn(k, c), c)
  {
    var cur := k.cpus[c].env;
    assert Slot(cur, 0) == cur;
    assert Pick(k.envs, cur, 0) == 0;
    OwnResumes(k, c);
    hide EnvRun;
  }

  /** sys_env_destroy of another environment that the caller may name: one that runs elsewhere becomes a zombie, any
      other is freed, first in line for reuse; the caller goes on.  Destroying itself, it is freed and another one is
      looked for.  No such environment: nothing changes. */
  lemma DestroyResult(k: K, c: nat, envid: int, i: int)
    requires Serving(k, c)
    ensures var k' := Body(k, c, Destroy(envid));
            && (Names(k, c, envid, i) ==>
                  && 0 <= i < |k.envs|
                  && if i == k.cpus[c].env then Yields(SelfFreed(k, c), k', c)
                     else if k.envs[i].status == Running then Resumes(k.(envs := k.envs[i := k.envs[i].(status := Dying)]), k', c)
                     else Resumes(k.(envs := k.envs[i := k.envs[i].(status := Free)], freeEnvs := [i] + k.freeEnvs), k', c))
            && ((forall j :: !Names(k, c, envid, j)) ==> Resumes(k, k', c))
  {
    hide SchedYield, TrapReturn, Yields, Resumes, Inv, Envid2Env, Names;
    ServingLeaves(k, c);
    TargetNamed(k, c, envid);
    var t := Envid2Env(k, c, envid, true);
    assert t >= 0 ==> Names(k, c, envid, t);
    NamesSlot(k, c, envid, i);
    if t < 0 {
      ReturnResumes(k, c);
    } else if t == k.cpus[c].env {
      FreedYields(k, c);
    } else {
      var k1 := if k.envs[t].status == Running then SetStatus(k, t, Dying) else EnvFree(k, t);
      LeavingAfter(k, k1, c);
      ReturnResumes(k1, c);
    }
  }

  /** A fresh environment for slot i: an id that names the slot and that the slot has not had just before; it waits for
      no message and is owed none. */
  predicate Fresh(e: Env, parent: int, s: Status, i: nat, last: int) {
    && e.id > 0 && e.id % NENV == i && e.id != last && e.parent == parent && e.status == s
    && !e.recving && !e.inCall && e.sent == [] == e.got
  }

  /** env_alloc: the slot first in line becomes a fresh environment, runnable; without one, or without memory, nothing
      changes. */
  lemma AllocResult(k: K, parent: int, memory: bool)
    requires Inv(k)
    ensures var (k', i) := EnvAlloc(k, parent, memory);
            if k.freeEnvs == [] || !memory then k' == k && i < 0
            else
              && 0 <= i < |k.envs| == |k'.envs| && k.freeEnvs == [i] + k'.freeEnvs && k.envs[i].status == Free
              && Fresh(k'.envs[i], parent, Runnable, i, k.envs[i].id)
              && k' == k.(envs := k.envs[i := k'.envs[i]], freeEnvs := k.freeEnvs[1..])
  {
    hide NextId;
    if k.freeEnvs != [] && memory {
      var i := k.freeEnvs[0];
      assert i in k.freeEnvs;
      assert EnvOk(k.envs[i], i);
      NewId(k.envs[i].id, i);
    }
    hide Inv, EnvOk;
  }

  lemma NewId(id: int, i: nat)
    requires i < NENV && SlotId(id, i)
    ensures NextId(id, i) > 0 && NextId(id, i) % NENV == i && NextId(id, i) != id
  {
    NextIdGood(id, i);
    IdIndex(NextId(id, i), i);
  }

  /** sys_exofork: the slot first in line becomes a child of the caller, not runnable; without one, or without memory,
      nothing changes.  The caller goes on either way. */
  lemma ExoforkResult(k: K, c: nat, memory: bool)
    requires Serving(k, c)
    ensures var k' := Body(k, c, Exofork(memory));
            if k.freeEnvs == [] || !memory then Resumes(k, k', c)
            else
              exists child: Env, i: nat ::
                && i < |k.envs| && k.envs[i].status == Free && k.freeEnvs == [i] + k.freeEnvs[1..]
                && Fresh(child, k.envs[k.cpus[c].env].id, NotRunnable, i, k.envs[i].id)
                && Resumes(k.(envs := k.envs[i := child], freeEnvs := k.freeEnvs[1..]), k', c)
  {
    hide SchedYield, TrapReturn, Resumes, Inv, EnvAlloc;
    ServingLeaves(k, c);
    var parent := k.envs[k.cpus[c].env].id;
    AllocResult(k, parent, memory);
    if k.freeEnvs == [] || !memory {
      ReturnResumes(k, c);
    } else {
      var i := k.freeEnvs[0];
      var child := EnvAlloc(k, parent, memory).0.envs[i].(status := NotRunnable);
      var k1 := SysExofork(k, c, memory);
      assert k1 == k.(envs := k.envs[i := child], freeEnvs := k.freeEnvs[1..]);
      LeavingAfter(k, k1, c);
      ReturnResumes(k1, c);
      assert Fresh(child, parent, NotRunnable, i, k.envs[i].id);
    }
  }

  /* ---- messages ---- */

  /** sys_ipc_recv: the caller stops, waiting for a message, and another environment is looked for; with a bad
      address it only goes on. */
  lemma RecvResult(k: K, c: nat, dstOk: bool)
    requires Serving(k, c)
    ensures var (k', cur) := (Body(k, c, Recv(dstOk)), k.cpus[c].env);
            if !dstOk then Resumes(k, k', c)
            else Yields(k.(envs := k.envs[cur := k.envs[cur].(recving := true, status := NotRunnable, inCall := true)]), k', c)
  {
    hide SchedYield, TrapReturn, Yields, Resumes, Inv;
    ServingLeaves(k, c);
    if dstOk {
      var k1 := StartRecv(k, k.cpus[c].env);
      LeavingAfter(k, k1, c);
      YieldYields(k1, c);
    } else {
      ReturnResumes(k, c);
    }
  }

  /** The environment an id names to anybody. */
  predicate Known(k: K, c: nat, envid: int, i: int) {
    if envid == 0 then c < |k.cpus| && i == k.cpus[c].env else Bears(k, i, envid)
  }

  /** sys_ipc_try_send to a known environment that waits for a message, with its page (if any) in order: the receiver has
      the value and the sender's id, waits no longer and is runnable, and the message is its next.  Otherwise
      nothing changes.  The sender goes on either way. */
  lemma TrySendResult(k: K, c: nat, envid: int, value: int, pageOk: bool, i: int)
    requires Serving(k, c)
    ensures var k' := Body(k, c, TrySend(envid, value, pageOk));
            var from := k.envs[k.cpus[c].env].id;
            && (pageOk && Known(k, c, envid, i) && 0 <= i < |k.envs| && k.envs[i].recving ==>
                  var e := k.envs[i].(recving := false, ipcFrom := from, ipcValue := value, status := Runnable,
                                      sent := k.envs[i].sent + [Msg(from, value)]);
                  i != k.cpus[c].env && Resumes(k.(envs := k.envs[i := e]), k', c))
            && (!pageOk || (forall j :: 0 <= j < |k.envs| && Known(k, c, envid, j) ==> !k.envs[j].recving) ==> Resumes(k, k', c))
  {
    hide SchedYield, TrapReturn, Resumes, Inv, Envid2Env, Known;
    ServingLeaves(k, c);
    AnyNamed(k, c, envid);
    CallerAwake(k, c);
    var t := Envid2Env(k, c, envid, false);
    assert t >= 0 ==> Known(k, c, envid, t);
    var k1 := SysIpcTrySend(k, c, envid, value, pageOk);
    LeavingAfter(k, k1, c);
    ReturnResumes(k1, c);
  }

  lemma AnyNamed(k: K, c: nat, envid: int)
    requires Serving(k, c)
    ensures forall i: nat :: Envid2Env(k, c, envid, false) == i <==> Known(k, c, envid, i)
  {
    hide Envid2Env, Inv, Bears;
    Envid2EnvExact(k, c, envid, false);
  }

  lemma CallerAwake(k: K, c: nat)
    requires Serving(k, c)
    ensures !k.envs[k.cpus[c].env].recving
  {
    assert EnvOk(k.envs[k.cpus[c].env], k.cpus[c].env);
  }

  /** ipc_recv returns: the program has the message, and nothing else changes. */
  lemma ReadResult(k: K, c: nat)
    requires Inv(k) && Can(k, c, Read)
    ensures var (k', i) := (Next(k, c, Read), k.cpus[c].env);
            && k' == k.(envs := k.envs[i := k.envs[i].(inCall := false, got := k.envs[i].sent)])
  {
    assert EnvOk(k.envs[k.cpus[c].env], k.cpus[c].env);
  }

  /* ---- entering the kernel ---- */

  /** A trap, whether the CPU was halted or ran a program, finds it started and owing exactly one acquisition. */
  lemma TrapResult(k: K, c: nat)
    requires Inv(k) && Can(k, c, Trap)
    ensures Next(k, c, Trap) == k.(cpus := k.cpus[c := Cpu(false, k.cpus[c].env, Locking(1, k.cpus[c].mode.User?))])
  {
    assert CpuOk(k.cpus[c]);
  }

  /** The CPU is inside, with the lock, as soon as it finds the lock free; until then it waits. */
  lemma AcquireResult(k: K, c: nat)
    requires Inv(k) && Can(k, c, Acquire)
    ensures var (k', cpu) := (Next(k, c, Acquire), k.cpus[c]);
            if k.lock.locked then k' == k
            else k' == k.(cpus := k.cpus[c := cpu.(mode := Inside(cpu.env >= 0))], lock := Lock(true, c, k.lock.releases))
  {
    NeverReacquires(k, c);
    assert CpuOk(k.cpus[c]);
  }
}
