/** The kernel's routines as they update envs, cpus and kernel_lock in place, each proved to compute
    the transition of the same name in module Kernel. */
module Machine {
  import opened Words
  import opened EnvIds
  import opened Kernel
  import KernelInvariant
  import KernelResults

  class Machine {
    const envs: array<Env>
    const cpus: array<Cpu>
    var freeEnvs: seq<nat>       // env_free_list from its head
    var locked: bool             // kernel_lock.locked
    var lockCpu: int             // kernel_lock.cpu
    var releases: nat            // releases so far, for the record

    ghost predicate Valid()
      reads this, envs, cpus
    {
      Shape(State())
    }

    ghost function State(): K
      reads this, envs, cpus
    {
      K(envs[..], freeEnvs, cpus[..], Lock(locked, lockCpu, releases))
    }

    /* ---- kern/spinlock.c ---- */

    /** held says that there was no panic. */
    method SpinUnlock(c: nat) returns (held: bool)
      requires Valid() && IsCpu(State(), c)
      modifies this, cpus
      ensures Valid() && State() == Kernel.SpinUnlock(old(State()), c) && held == Holding(old(State()), c)
    {
      held := locked && lockCpu == c;
      if !held {
        cpus[c] := cpus[c].(mode := Monitor);
        return;
      }
      lockCpu := -1;
      locked := false;
      releases := releases + 1;
    }

    /** One turn of spin_lock's loop on CPU c, including its check for a lock already held. */
    method SpinLockTurn(c: nat)
      requires Valid() && IsCpu(State(), c) && cpus[c].mode.Locking? && cpus[c].mode.acquisitions > 0
      modifies this, cpus
      ensures Valid() && State() == LockTurn(old(State()), c)
    {
      var mode := cpus[c].mode;
      if locked && lockCpu == c {
        cpus[c] := cpus[c].(mode := Monitor);
        return;
      }
      var was := locked;
      locked := true;
      if !was {
        lockCpu := c;
        cpus[c] := cpus[c].(mode := if mode.acquisitions == 1 then Inside(mode.fromUser)
                                    else Locking(mode.acquisitions - 1, mode.fromUser));
      }
    }

    /* ---- kern/env.c and kern/sched.c ---- */

    method EnvPopTf(c: nat)
      requires Valid() && IsCpu(State(), c)
      modifies this, cpus
      ensures Valid() && State() == Kernel.EnvPopTf(old(State()), c)
    {
      var held := SpinUnlock(c);
      if held { cpus[c] := cpus[c].(mode := User); }
    }

    method EnvRun(c: nat, j: nat)
      requires Valid() && IsCpu(State(), c) && j < NENV
      modifies this, envs, cpus
      ensures Valid() && State() == Kernel.EnvRun(old(State()), c, j)
    {
      if cpus[c].env != j {
        var cur := cpus[c].env;
        if cur >= 0 && envs[cur].status == Running { envs[cur] := envs[cur].(status := Runnable); }
        cpus[c] := cpus[c].(env := j);
        envs[j] := envs[j].(status := Running);
      }
      EnvPopTf(c);
    }

    method SchedHalt(c: nat)
      requires Valid() && IsCpu(State(), c)
      modifies this, cpus
      ensures Valid() && State() == Kernel.SchedHalt(old(State()), c)
    {
      var i := 0;
      while i < NENV && !(envs[i].status == Runnable || envs[i].status == Running)
        invariant i <= NENV && forall x :: 0 <= x < i ==> !Busy(envs[x])
      {
        i := i + 1;
      }
      if i == NENV {
        cpus[c] := cpus[c].(mode := Monitor);
        return;
      }
      assert Busy(envs[..][i]);
      cpus[c] := cpus[c].(env := -1);
      cpus[c] := cpus[c].(halted := true);
      var held := SpinUnlock(c);
      if held { cpus[c] := cpus[c].(mode := Halted); }
    }

    /** sched_yield's search: the first runnable offset from slot cur, NENV if there is none. */
    method FindRunnable(cur: nat) returns (i: nat)
      requires Valid()
      ensures i == Pick(envs[..], cur, 0)
    {
      i := 0;
      while i < NENV
        invariant i <= NENV
        invariant Pick(envs[..], cur, i) == Pick(envs[..], cur, 0)
      {
        var j := (cur + i) % NENV;
        assert j == Slot(cur, i);
        if envs[j].status == Runnable { return; }
        i := i + 1;
      }
    }

    method SchedYield(c: nat)
      requires Valid() && IsCpu(State(), c)
      modifies this, envs, cpus
      ensures Valid() && State() == Kernel.SchedYield(old(State()), c)
    {
      hide Kernel.EnvRun, Kernel.SchedHalt, Pick;
      var cur := if cpus[c].env >= 0 then Envx(envs[cpus[c].env].id) else 0;
      var i := FindRunnable(cur);
      if i < NENV {
        EnvRun(c, (cur + i) % NENV);
        return;
      }
      if cpus[c].env >= 0 && envs[cpus[c].env].status == Running {
        EnvRun(c, cpus[c].env);
        return;
      }
      SchedHalt(c);
    }

    method TrapReturn(c: nat)
      requires Valid() && IsCpu(State(), c)
      modifies this, envs, cpus
      ensures Valid() && State() == Kernel.TrapReturn(old(State()), c)
    {
      if cpus[c].env >= 0 && envs[cpus[c].env].status == Running { EnvRun(c, cpus[c].env); } else { SchedYield(c); }
    }

    method EnvFree(i: nat)
      requires Valid() && i < NENV
      modifies this, envs
      ensures Valid() && State() == Kernel.EnvFree(old(State()), i)
    {
      envs[i] := envs[i].(status := Free);
      freeEnvs := [i] + freeEnvs;
    }

    /** returned is false when the current environment was destroyed and another one scheduled. */
    method EnvDestroy(c: nat, i: nat) returns (returned: bool)
      requires Valid() && IsCpu(State(), c) && i < NENV
      modifies this, envs, cpus
      ensures Valid() && IsCpu(State(), c)
      ensures Kernel.EnvDestroy(old(State()), c, i) == if returned then Kernel.TrapReturn(State(), c) else State()
    {
      if envs[i].status == Running && cpus[c].env != i {
        envs[i] := envs[i].(status := Dying);
        return true;
      }
      EnvFree(i);
      if cpus[c].env == i {
        cpus[c] := cpus[c].(env := -1);
        SchedYield(c);
        return false;
      }
      return true;
    }

    method EnvAlloc(parent: int, memory: bool) returns (i: int)
      requires Valid()
      modifies this, envs
      ensures Valid() && (State(), i) == Kernel.EnvAlloc(old(State()), parent, memory)
    {
      if freeEnvs == [] { return -1; }
      if !memory { return -1; }
      i := freeEnvs[0];
      var e := envs[i];
      var generation := Wrap32(e.id + GENERATION) - Wrap32(e.id + GENERATION) % NENV;
      if generation <= 0 { generation := GENERATION; }
      envs[i] := e.(id := generation + i, parent := parent, status := Runnable, recving := false,
                    inCall := false, sent := [], got := []);
      freeEnvs := freeEnvs[1..];
    }

    method Envid2Env(c: nat, envid: int, checkPerm: bool) returns (i: int)
      requires Valid() && IsCpu(State(), c)
      ensures i == Kernel.Envid2Env(State(), c, envid, checkPerm)
    {
      if envid == 0 { return cpus[c].env; }
      i := Envx(envid);
      if envs[i].status == Free || envs[i].id != envid { return -1; }
      var cur := cpus[c].env;
      if checkPerm && i != cur && (cur < 0 || envs[i].parent != envs[cur].id) { return -1; }
    }

    /* ---- kern/syscall.c ---- */

    method SysExofork(c: nat, memory: bool)
      requires Valid() && IsCpu(State(), c) && cpus[c].env >= 0
      modifies this, envs
      ensures Valid() && State() == Kernel.SysExofork(old(State()), c, memory)
    {
      var i := EnvAlloc(envs[cpus[c].env].id, memory);
      if i < 0 { return; }
      envs[i] := envs[i].(status := NotRunnable);
    }

    method SysEnvSetStatus(c: nat, envid: int, s: Status)
      requires Valid() && IsCpu(State(), c)
      modifies envs
      ensures Valid() && State() == Kernel.SysEnvSetStatus(old(State()), c, envid, s)
    {
      if s != NotRunnable && s != Runnable { return; }
      var i := Envid2Env(c, envid, true);
      if i < 0 { return; }
      envs[i] := envs[i].(status := s);
    }

    method SysIpcTrySend(c: nat, envid: int, value: int, pageOk: bool)
      requires Valid() && IsCpu(State(), c) && cpus[c].env >= 0
      modifies envs
      ensures Valid() && State() == Kernel.SysIpcTrySend(old(State()), c, envid, value, pageOk)
    {
      var i := Envid2Env(c, envid, false);
      if i < 0 { return; }
      if !envs[i].recving { return; }
      if !pageOk { return; }
      var from := envs[cpus[c].env].id;
      envs[i] := envs[i].(recving := false, ipcFrom := from, ipcValue := value, status := Runnable,
                          sent := envs[i].sent + [Msg(from, value)]);
    }

    /** sys_ipc_recv: it returns only to report a misaligned address. */
    method SysIpcRecv(c: nat, dstOk: bool) returns (returned: bool)
      requires Valid() && IsCpu(State(), c) && cpus[c].env >= 0
      modifies this, envs, cpus
      ensures Valid() && returned == !dstOk
      ensures State() == if dstOk then Kernel.SchedYield(StartRecv(old(State()), old(cpus[c].env)), c) else old(State())
    {
      if !dstOk { return true; }
      var cur := cpus[c].env;
      envs[cur] := envs[cur].(recving := true, status := NotRunnable, inCall := true);
      SchedYield(c);
      returned := false;
    }

    /* ---- kern/trap.c ---- */

    /** The beginning of trap(), up to the acquisitions. */
    method TrapEnter(c: nat)
      requires Valid() && IsCpu(State(), c)
      modifies cpus
      ensures Valid() && State() == Kernel.TrapEnter(old(State()), c)
    {
      var wasHalted, fromUser := cpus[c].halted, cpus[c].mode.User?;
      var acquisitions := 0;
      cpus[c] := cpus[c].(halted := false);
      if wasHalted { acquisitions := acquisitions + 1; }
      if fromUser { acquisitions := acquisitions + 1; }
      cpus[c] := cpus[c].(mode := Locking(acquisitions, fromUser));
    }

    /** The rest of trap(), once the lock is held. */
    method Trap(c: nat, ev: Event)
      requires Valid() && IsCpu(State(), c) && cpus[c].mode.Inside? && (cpus[c].mode.fromUser ==> cpus[c].env >= 0)
      modifies this, envs, cpus
      ensures Valid() && State() == Body(old(State()), c, ev)
    {
      hide Slot, Pick, AllIdle;
      if !cpus[c].mode.fromUser {
        SchedYield(c);
        return;
      }
      var cur := cpus[c].env;
      if envs[cur].status == Dying {
        EnvFree(cur);
        cpus[c] := cpus[c].(env := -1);
        SchedYield(c);
        return;
      }
      var returned := TrapDispatch(c, ev);
      if returned { TrapReturn(c); }
    }

    method TrapDispatch(c: nat, ev: Event) returns (returned: bool)
      requires Valid() && IsCpu(State(), c) && cpus[c].mode.Inside? && cpus[c].mode.fromUser && cpus[c].env >= 0
      requires envs[cpus[c].env].status != Dying
      modifies this, envs, cpus
      ensures Valid() && IsCpu(State(), c)
      ensures Body(old(State()), c, ev) == if returned then Kernel.TrapReturn(State(), c) else State()
    {
      hide Kernel.SchedYield, Kernel.TrapReturn, Kernel.EnvRun, Slot, Pick, AllIdle, NextId;
      returned := true;
      match ev {
        case Timer => SchedYield(c); returned := false;
        case Nop =>
        case Fault(handled) =>
          if handled { EnvRun(c, cpus[c].env); returned := false; } else { returned := EnvDestroy(c, cpus[c].env); }
        case Destroy(envid) =>
          var i := Envid2Env(c, envid, true);
          if i >= 0 { returned := EnvDestroy(c, i); }
        case Exofork(memory) => SysExofork(c, memory);
        case ChangeStatus(envid, s) => SysEnvSetStatus(c, envid, s);
        case Recv(dstOk) => returned := SysIpcRecv(c, dstOk);
        case TrySend(envid, value, pageOk) => SysIpcTrySend(c, envid, value, pageOk);
      }
    }
  }

  /* ---- lib/ipc.c ---- */

  const E_BAD_ENV := 2
  const E_INVAL := 3
  const E_NO_MEM := 4
  const E_IPC_NOT_RECV := 8

  datatype Call = SendCall | YieldCall

  type PageCode = e: int | e == 0 || e == -E_INVAL || e == -E_NO_MEM

  /** The kernel when sys_ipc_try_send is called on CPU c; page is the outcome of its page transfer. */
  datatype Attempt = Attempt(k: K, c: nat, page: PageCode)

  predicate Calling(a: Attempt) { IsCpu(a.k, a.c) && a.k.cpus[a.c].env >= 0 }

  /** What sys_ipc_try_send returns, and the kernel after it. */
  function Answer(a: Attempt, to: int): int
    requires Calling(a)
  {
    var i := Kernel.Envid2Env(a.k, a.c, to, false);
    if i < 0 then -E_BAD_ENV else if !a.k.envs[i].recving then -E_IPC_NOT_RECV else a.page
  }

  function After(a: Attempt, to: int, value: int): K
    requires Calling(a)
  {
    Kernel.SysIpcTrySend(a.k, a.c, to, value, a.page == 0)
  }

  /** sys_ipc_try_send answers -E_BAD_ENV exactly if no environment in use bears the id, -E_IPC_NOT_RECV exactly if one does
      that waits for no message, and otherwise what becomes of the page. */
  lemma AnswerExact(a: Attempt, to: int, i: int)
    requires Calling(a) && KernelInvariant.Inv(a.k) && to != 0
    ensures Answer(a, to) == -E_BAD_ENV <==> forall j :: !KernelResults.Bears(a.k, j, to)
    ensures KernelResults.Bears(a.k, i, to) ==> Answer(a, to) == if a.k.envs[i].recving then a.page else -E_IPC_NOT_RECV
  {
    hide Kernel.Envid2Env, KernelInvariant.Inv;
    KernelResults.Envid2EnvExact(a.k, a.c, to, false);
    var r := Kernel.Envid2Env(a.k, a.c, to, false);
    assert r >= 0 ==> KernelResults.Bears(a.k, r, to);
    if exists j :: KernelResults.Bears(a.k, j, to) {
      var j :| KernelResults.Bears(a.k, j, to);
      assert Kernel.Envid2Env(a.k, a.c, to, false) == j;
    }
  }

  /** The message is among those accepted for the environment it is sent to, once more than before. */
  predicate Delivered(a: Attempt, to: int, value: int)
    requires Calling(a)
  {
    var i := Kernel.Envid2Env(a.k, a.c, to, false);
    && i >= 0 && Shape(After(a, to, value))
    && After(a, to, value).envs[i].sent == a.k.envs[i].sent + [Msg(a.k.envs[a.k.cpus[a.c].env].id, value)]
    && forall j :: 0 <= j < NENV && j != i ==> After(a, to, value).envs[j] == a.k.envs[j]
  }

  /** n refused attempts, each followed by sys_yield. */
  function Refused(n: nat): (calls: seq<Call>)
    ensures |calls| == 2 * n
  {
    if n == 0 then [] else Refused(n - 1) + [SendCall, YieldCall]
  }

  /** ipc_send against the kernel as it is at its successive attempts, whatever happens in between: it gives
      up the CPU after each -E_IPC_NOT_RECV and stops at the first other answer.  Attempts before the last
      change nothing; the last delivers the message, or it changes nothing and the program panics.  calls
      are the system calls it makes. */
  method IpcSend(to: int, value: int, attempts: seq<Attempt>) returns (tries: nat, accepted: bool, calls: seq<Call>)
    requires forall i :: 0 <= i < |attempts| ==> Calling(attempts[i])
    ensures tries <= |attempts|
    ensures forall i :: 0 <= i < tries ==> Answer(attempts[i], to) == -E_IPC_NOT_RECV && After(attempts[i], to, value) == attempts[i].k
    ensures tries < |attempts| ==> Answer(attempts[tries], to) != -E_IPC_NOT_RECV
    ensures accepted ==> tries < |attempts| && Delivered(attempts[tries], to, value)
    ensures !accepted && tries < |attempts| ==> Answer(attempts[tries], to) < 0 && After(attempts[tries], to, value) == attempts[tries].k
    ensures calls == Refused(tries) + if tries < |attempts| then [SendCall] else []
  {
    hide Kernel.Envid2Env;
    tries, calls, accepted := 0, [], false;
    while tries < |attempts|
      invariant tries <= |attempts| && calls == Refused(tries)
      invariant forall i :: 0 <= i < tries ==> Answer(attempts[i], to) == -E_IPC_NOT_RECV && After(attempts[i], to, value) == attempts[i].k
    {
      var ret := Answer(attempts[tries], to);
      if ret != -E_IPC_NOT_RECV {
        calls := calls + [SendCall];
        accepted := ret == 0;
        return;
      }
      calls := calls + [SendCall, YieldCall];
      tries := tries + 1;
    }
  }
}
