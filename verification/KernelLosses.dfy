/** System calls outside the guards: states in order from which they leave one that is not. */
module KernelLosses {
  import opened EnvIds
  import opened Kernel
  import opened KernelInvariant
  import opened KernelSteps
  import opened KernelRuns

  const PARENT := 4096                // the first id of slot 0
  const CHILD := 4097                 // and of slot 1

  /** A program that has forked once; call and mail are its inCall and sent. */
  function Parent(call: bool, mail: seq<Msg>): Env {
    Env(PARENT, 0, Running, false, if mail == [] then 0 else mail[0].from, if mail == [] then 0 else mail[0].value, call, mail, [])
  }

  function Child(s: Status): Env { Env(CHILD, PARENT, s, false, 0, 0, false, [], []) }

  /** Two CPUs: the parent has trapped on CPU 0, the child, if it runs, is on CPU 1. */
  function Pair(e0: Env, e1: Env, mode0: Mode, lock: Lock): K {
    K(seq(NENV, i => if i == 0 then e0 else if i == 1 then e1 else EmptyEnv()), seq(NENV - 2, i => i + 2),
      [Cpu(false, 0, mode0), if Occupied(e1) then Cpu(false, 1, User) else Cpu(true, -1, Halted)], lock)
  }

  lemma PairFree(e0: Env, e1: Env, mode0: Mode, lock: Lock)
    requires e0.status != Free && e1.status != Free
    ensures Shape(Pair(e0, e1, mode0, lock)) && FreeEnvsOk(Pair(e0, e1, mode0, lock))
  {
    var k := Pair(e0, e1, mode0, lock);
    assert forall x :: 0 <= x < NENV - 2 ==> k.freeEnvs[x] == x + 2;
    forall i: nat | i < NENV ensures i in k.freeEnvs <==> k.envs[i].status == Free {
      if i >= 2 { assert k.freeEnvs[i - 2] == i && k.envs[i] == EmptyEnv(); } else { assert k.envs[i] == if i == 0 then e0 else e1; }
    }
  }

  lemma PairInv(e0: Env, e1: Env, n: nat)
    requires e0.status == Running && EnvOk(e0, 0) && e1.status != Free && EnvOk(e1, 1)
    ensures Serving(Pair(e0, e1, Inside(true), Lock(true, 0, n)), 0)
  {
    var k := Pair(e0, e1, Inside(true), Lock(true, 0, n));
    PairFree(e0, e1, Inside(true), Lock(true, 0, n));
    PairPlaced(e0, e1, n);
    assert LockOk(k);
    hide EnvOk, FreeEnvsOk, Placed, LockOk;
  }

  lemma PairPlaced(e0: Env, e1: Env, n: nat)
    requires e0.status == Running && EnvOk(e0, 0) && e1.status != Free && EnvOk(e1, 1)
    ensures var k := Pair(e0, e1, Inside(true), Lock(true, 0, n));
            Shape(k) && Placed(k) && forall i: nat :: i < NENV ==> EnvOk(k.envs[i], i)
  {
    var k := Pair(e0, e1, Inside(true), Lock(true, 0, n));
    PairFree(e0, e1, Inside(true), Lock(true, 0, n));
    forall i: nat | i < NENV ensures EnvOk(k.envs[i], i) && (i >= 2 ==> !Occupied(k.envs[i])) { assert i >= 2 ==> k.envs[i] == EmptyEnv(); }
    forall i: nat | i < NENV && Occupied(k.envs[i]) ensures OnCpu(k, i) {
      assert i < 2;
      assert k.cpus[i].env == i;
    }
    hide EnvOk, FreeEnvsOk;
  }

  lemma FamilyOk(call: bool, mail: seq<Msg>, s: Status)
    requires if call then |mail| == 1 else mail == []
    ensures EnvOk(Parent(call, mail), 0) && EnvOk(Child(s), 1)
  {
    if call { assert mail == [] + [Msg(mail[0].from, mail[0].value)]; }
  }

  /** The parent of a child that is running elsewhere. */
  function Family(s: Status, n: nat): K { Pair(Parent(false, []), Child(s), Inside(true), Lock(true, 0, n)) }

  lemma FamilyServing(s: Status, n: nat)
    requires s != Free
    ensures Serving(Family(s, n), 0) && Family(s, n) == Pair(Parent(false, []), Child(s), Inside(true), Lock(true, 0, n))
    ensures Parent(false, []).status == Running && Child(s).status == s
    ensures DestroyGuard(Family(s, n), 0, CHILD) <==> s != Dying
    ensures s == Running ==> !StatusGuard(Family(s, n), 0, CHILD, NotRunnable)
  {
    FamilyOk(false, [], s);
    PairInv(Parent(false, []), Child(s), n);
    assert Envid2Env(Family(s, n), 0, CHILD, true) == 1 && Family(s, n).envs[1].status == s;
    hide Inv;
  }

  lemma ChildDying(n: nat)
    ensures IsCpu(Family(Running, n), 0)
    ensures Body(Family(Running, n), 0, Destroy(CHILD)) == Pair(Parent(false, []), Child(Dying), User, Lock(false, -1, n + 1))
  {
    FamilyServing(Running, n);
    var k := Family(Running, n);
    var k' := Body(k, 0, Destroy(CHILD));
    var k2 := Pair(Parent(false, []), Child(Dying), User, Lock(false, -1, n + 1));
    assert k.envs[1].(status := Dying) == Child(Dying);
    assert k'.envs == k2.envs;
    assert k'.cpus == k2.cpus;
  }

  /** CPU 0 traps again and gets the lock. */
  lemma BackInside(e0: Env, e1: Env, n: nat)
    requires e0.status != Free && e1.status != Free
    ensures var k := Pair(e0, e1, User, Lock(false, -1, n));
            && Can(k, 0, Trap) && Can(Next(k, 0, Trap), 0, Acquire)
            && Next(Next(k, 0, Trap), 0, Acquire) == Pair(e0, e1, Inside(true), Lock(true, 0, n))
  {
    PairFree(e0, e1, User, Lock(false, -1, n));
    var k := Pair(e0, e1, User, Lock(false, -1, n));
    hide FreeEnvsOk, Occupied;
    assert Next(Next(k, 0, Trap), 0, Acquire).cpus == Pair(e0, e1, Inside(true), Lock(true, 0, n)).cpus;
  }

  /** Destroying a running child twice, before its CPU has trapped: the first call is within the guards, the
      second frees the child under the CPU that runs it. */
  lemma DestroyedTwice() returns (k: K, k1: K, k2: K)
    ensures Serving(k, 0) && DestroyGuard(k, 0, CHILD) && k1 == Body(k, 0, Destroy(CHILD))
    ensures Can(k1, 0, Trap) && Can(Next(k1, 0, Trap), 0, Acquire) && k2 == Next(Next(k1, 0, Trap), 0, Acquire)
    ensures Serving(k2, 0) && !DestroyGuard(k2, 0, CHILD) && !Inv(Body(k2, 0, Destroy(CHILD)))
  {
    hide *;
    k, k2 := Family(Running, 0), Family(Dying, 1);
    FamilyServing(Running, 0);
    FamilyServing(Dying, 1);
    k1 := Pair(Parent(false, []), Child(Dying), User, Lock(false, -1, 1));
    ChildDying(0);
    BackInside(Parent(false, []), Child(Dying), 1);
    DestroyExact(k2, 0, CHILD);
  }

  /** Stopping a child that another CPU is running. */
  lemma RunningStopped()
    ensures var k := Family(Running, 0);
            Serving(k, 0) && !StatusGuard(k, 0, CHILD, NotRunnable) && !Inv(Body(k, 0, ChangeStatus(CHILD, NotRunnable)))
  {
    FamilyServing(Running, 0);
    hide *;
    SetStatusExact(Family(Running, 0), 0, CHILD, NotRunnable);
  }

  /** Calling sys_ipc_recv again with a message still unread: it counts as sent, was never returned, and the
      next message goes over it. */
  lemma UnreadLost(m: Msg)
    ensures var k := Pair(Parent(true, [m]), Child(Runnable), Inside(true), Lock(true, 0, 0));
            && Serving(k, 0) && k.envs[0].sent == [m] && k.envs[0].got == []
            && var k' := Body(k, 0, Recv(true));
               !Inv(k') && k'.envs[0].recving && k'.envs[0].sent == [m] && k'.envs[0].got == []
  {
    FamilyOk(true, [m], Runnable);
    PairInv(Parent(true, [m]), Child(Runnable), 0);
    var k := Pair(Parent(true, [m]), Child(Runnable), Inside(true), Lock(true, 0, 0));
    RecvExact(k, 0);
    RecvBody(k, 0);
    SchedKeepsRest(StartRecv(k, 0), 0);
    hide Inv, SchedYield, Body;
  }
}
