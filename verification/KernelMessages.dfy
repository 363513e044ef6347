/** IPC delivery and environment identity over whole runs of the kernel. */
module KernelMessages {
  import opened EnvIds
  import opened Kernel
  import opened KernelInvariant
  import opened KernelSteps

  /* ---- what one step does to one environment's messages and id ---- */

  /** sys_ipc_try_send to slot i that succeeds. */
  ghost predicate Delivers(k: K, c: nat, a: Action, i: nat)
    requires Can(k, c, a) && i < NENV
  {
    a.Work? && a.ev.TrySend? && Serving(k, c) && a.ev.pageOk
    && Envid2Env(k, c, a.ev.envid, false) == i && k.envs[i].recving
  }

  /** The message a delivering step carries: who sent it and what. */
  function MessageOf(k: K, c: nat, a: Action): Msg
    requires Can(k, c, a) && a.Work? && a.ev.TrySend? && k.cpus[c].env >= 0
  {
    Msg(k.envs[k.cpus[c].env].id, a.ev.value)
  }

  /** ipc_recv returns in the environment of slot i. */
  predicate Returns(k: K, c: nat, a: Action, i: nat)
    requires Can(k, c, a)
  {
    a.Read? && k.cpus[c].env == i
  }

  /** sys_exofork puts a new environment into slot i. */
  ghost predicate Born(k: K, c: nat, a: Action, i: nat)
    requires Can(k, c, a)
  {
    a.Work? && a.ev.Exofork? && Serving(k, c) && a.ev.memory && k.freeEnvs != [] && k.freeEnvs[0] == i
  }

  lemma ReturnKeepsRest(k: K, c: nat)
    requires IsCpu(k, c)
    ensures forall i: nat :: i < NENV ==> SameRest(TrapReturn(k, c).envs[i], k.envs[i])
  {
    SchedKeepsRest(k, c);
    if k.cpus[c].env >= 0 { RunKeepsRest(k, c, k.cpus[c].env); }
    hide SchedYield, EnvRun;
  }

  lemma DestroyKeepsRest(k: K, c: nat, x: nat)
    requires IsCpu(k, c) && x < NENV
    ensures forall i: nat :: i < NENV ==> SameRest(EnvDestroy(k, c, x).envs[i], k.envs[i])
  {
    hide SchedYield, TrapReturn;
    var k1 := EnvFree(k, x);
    ReturnKeepsRest(SetStatus(k, x, Dying), c);
    ReturnKeepsRest(k1, c);
    SchedKeepsRest(SetCpu(k1, c, k.cpus[c].(env := -1)), c);
  }

  /** Passages that neither deliver, nor create, nor start receiving, change states only. */
  lemma BodyKeepsRest(k: K, c: nat, ev: Event)
    requires Can(k, c, Work(ev)) && !(ev.Recv? && ev.dstOk) && !ev.TrySend? && !ev.Exofork?
    ensures forall i: nat :: i < NENV ==> SameRest(Body(k, c, ev).envs[i], k.envs[i])
  {
    hide SchedYield, TrapReturn, EnvDestroy, EnvRun, Envid2Env;
    SchedKeepsRest(k, c);
    ReturnKeepsRest(k, c);
    var cur := k.cpus[c].env;
    if k.cpus[c].mode.fromUser {
      SchedKeepsRest(SetCpu(EnvFree(k, cur), c, k.cpus[c].(env := -1)), c);
      match ev
      case Fault(handled) => RunKeepsRest(k, c, cur); DestroyKeepsRest(k, c, cur);
      case Destroy(envid) => if Envid2Env(k, c, envid, true) >= 0 { DestroyKeepsRest(k, c, Envid2Env(k, c, envid, true)); }
      case ChangeStatus(envid, s) => ReturnKeepsRest(SysEnvSetStatus(k, c, envid, s), c);
      case _ =>
    }
  }

  lemma DyingKeepsRest(k: K, c: nat, ev: Event)
    requires Can(k, c, Work(ev)) && !(k.cpus[c].mode.fromUser && k.envs[k.cpus[c].env].status != Dying)
    ensures forall i: nat :: i < NENV ==> SameRest(Body(k, c, ev).envs[i], k.envs[i])
  {
    hide SchedYield;
    SchedKeepsRest(k, c);
    if k.cpus[c].mode.fromUser { SchedKeepsRest(SetCpu(EnvFree(k, k.cpus[c].env), c, k.cpus[c].(env := -1)), c); }
  }

  /** The sent, returned, id and parent fields after a step, in terms of what the step was. */
  ghost predicate Tracked(k: K, c: nat, a: Action, i: nat, e: Env)
    requires Can(k, c, a) && i < NENV
  {
    && e.sent == (if Born(k, c, a, i) then [] else if Delivers(k, c, a, i) then k.envs[i].sent + [MessageOf(k, c, a)] else k.envs[i].sent)
    && e.got == (if Born(k, c, a, i) then []
                 else if Returns(k, c, a, i) then k.envs[i].got + [Msg(k.envs[i].ipcFrom, k.envs[i].ipcValue)]
                 else k.envs[i].got)
    && e.id == (if Born(k, c, a, i) then NextId(k.envs[i].id, i) else k.envs[i].id)
    && e.parent == (if Born(k, c, a, i) then k.envs[k.cpus[c].env].id else k.envs[i].parent)
  }

  lemma SendTracked(k: K, c: nat, a: Action, i: nat)
    requires Inv(k) && Can(k, c, a) && a.Work? && a.ev.TrySend? && Serving(k, c) && i < NENV
    ensures Tracked(k, c, a, i, Next(k, c, a).envs[i])
  {
    hide TrapReturn, Inv, Envid2Env, SchedYield, EnvDestroy;
    var k1 := SysIpcTrySend(k, c, a.ev.envid, a.ev.value, a.ev.pageOk);
    ReturnKeepsRest(k1, c);
    assert Next(k, c, a) == TrapReturn(k1, c);
    assert SameRest(Next(k, c, a).envs[i], k1.envs[i]);
  }

  lemma ForkTracked(k: K, c: nat, a: Action, i: nat)
    requires Inv(k) && Can(k, c, a) && a.Work? && a.ev.Exofork? && Serving(k, c) && i < NENV
    ensures Tracked(k, c, a, i, Next(k, c, a).envs[i])
  {
    hide TrapReturn, NextId, Inv, Envid2Env, SchedYield, EnvDestroy;
    var k1 := SysExofork(k, c, a.ev.memory);
    ReturnKeepsRest(k1, c);
    assert Next(k, c, a) == TrapReturn(k1, c);
    assert SameRest(Next(k, c, a).envs[i], k1.envs[i]);
  }

  /** Every change to what an environment has been sent or has received, to its id and to its parent is one of:
      a successful send to it, a return of its ipc_recv, its creation. */
  lemma StepTracked(k: K, c: nat, a: Action, i: nat)
    requires Inv(k) && Can(k, c, a) && i < NENV
    ensures Tracked(k, c, a, i, Next(k, c, a).envs[i])
  {
    hide Inv, SchedYield, TrapReturn, EnvDestroy, NextId;
    if a.Work? {
      if !(k.cpus[c].mode.fromUser && k.envs[k.cpus[c].env].status != Dying) {
        DyingKeepsRest(k, c, a.ev);
        assert SameRest(Next(k, c, a).envs[i], k.envs[i]);
      } else {
        ServingWhenNotDying(k, c);
        if a.ev.TrySend? { SendTracked(k, c, a, i); }
        else if a.ev.Exofork? { ForkTracked(k, c, a, i); }
        else if a.ev.Recv? && a.ev.dstOk {
          SchedKeepsRest(StartRecv(k, k.cpus[c].env), c);
          assert SameRest(Next(k, c, a).envs[i], StartRecv(k, k.cpus[c].env).envs[i]);
        } else {
          BodyKeepsRest(k, c, a.ev);
          assert SameRest(Next(k, c, a).envs[i], k.envs[i]);
        }
      }
    }
  }

  lemma ServingWhenNotDying(k: K, c: nat)
    requires Inv(k) && IsCpu(k, c) && k.cpus[c].mode.Inside? && k.cpus[c].env >= 0 && k.envs[k.cpus[c].env].status != Dying
    requires k.cpus[c].mode.fromUser
    ensures Serving(k, c)
  {
    assert Occupied(k.envs[k.cpus[c].env]);
  }

  /* ---- whole runs ---- */

  /** The messages of the successful sys_ipc_try_send calls to the present occupant of slot i, in order. */
  ghost function Accepted(ks: seq<K>, cs: seq<nat>, steps: seq<Action>, i: nat, n: nat): seq<Msg>
    requires Run(ks, cs, steps) && n <= |steps| && i < NENV
  {
    if n == 0 then []
    else
      var (k, c, a) := (ks[n - 1], cs[n - 1], steps[n - 1]);
      var before := Accepted(ks, cs, steps, i, n - 1);
      if Born(k, c, a, i) then [] else if Delivers(k, c, a, i) then before + [MessageOf(k, c, a)] else before
  }

  /** The (sender, value) pairs that ipc_recv has returned to it, in order. */
  ghost function Received(ks: seq<K>, cs: seq<nat>, steps: seq<Action>, i: nat, n: nat): seq<Msg>
    requires Run(ks, cs, steps) && n <= |steps| && i < NENV
  {
    if n == 0 then []
    else
      var (k, c, a) := (ks[n - 1], cs[n - 1], steps[n - 1]);
      var before := Received(ks, cs, steps, i, n - 1);
      if Born(k, c, a, i) then []
      else if Returns(k, c, a, i) then before + [Msg(k.envs[i].ipcFrom, k.envs[i].ipcValue)]
      else before
  }

  lemma {:induction false} HistoriesTrack(ks: seq<K>, cs: seq<nat>, steps: seq<Action>, i: nat, n: nat)
    requires Run(ks, cs, steps) && Guarded(ks, cs, steps) && Inv(ks[0]) && n <= |steps| && i < NENV
    requires ks[0].envs[i].sent == [] == ks[0].envs[i].got
    ensures |ks[n].envs| == NENV
    ensures ks[n].envs[i].sent == Accepted(ks, cs, steps, i, n) && ks[n].envs[i].got == Received(ks, cs, steps, i, n)
  {
    hide Inv, Guarded, Born, Delivers, Returns, Next;
    KernelSteps.RunInv(ks, cs, steps, n);
    InvShape(ks[n]);
    if n > 0 {
      HistoriesTrack(ks, cs, steps, i, n - 1);
      KernelSteps.RunInv(ks, cs, steps, n - 1);
      assert Can(ks[n - 1], cs[n - 1], steps[n - 1]) && ks[n] == Next(ks[n - 1], cs[n - 1], steps[n - 1]);
      StepTracked(ks[n - 1], cs[n - 1], steps[n - 1], i);
    }
  }

  lemma InvShape(k: K)
    requires Inv(k)
    ensures Shape(k)
  {
  }

  /** IPC delivers each message once and in order: what ipc_recv has returned is what was successfully
      sent, except possibly one message delivered and not yet read, which is intact in the Env. */
  lemma DeliveredInOrder(ks: seq<K>, cs: seq<nat>, steps: seq<Action>, i: nat, n: nat)
    requires Run(ks, cs, steps) && Guarded(ks, cs, steps) && Inv(ks[0]) && n <= |steps| && i < NENV
    requires ks[0].envs[i].sent == [] == ks[0].envs[i].got
    ensures |ks[n].envs| == NENV
    ensures var e := ks[n].envs[i];
            Accepted(ks, cs, steps, i, n) ==
              if e.inCall && !e.recving then Received(ks, cs, steps, i, n) + [Msg(e.ipcFrom, e.ipcValue)]
              else Received(ks, cs, steps, i, n)
  {
    HistoriesTrack(ks, cs, steps, i, n);
    KernelSteps.RunInv(ks, cs, steps, n);
    assert EnvOk(ks[n].envs[i], i);
  }

  /** No send overwrites an unread message: when one succeeds, everything before it has been returned. */
  lemma NoOverwrite(k: K, c: nat, a: Action, i: nat)
    requires Inv(k) && Can(k, c, a) && i < NENV && Delivers(k, c, a, i)
    ensures k.envs[i].sent == k.envs[i].got
  {
    assert EnvOk(k.envs[i], i);
  }

  /* ---- ids ---- */

  /** Environments created in slot i during the first n steps. */
  ghost function Births(ks: seq<K>, cs: seq<nat>, steps: seq<Action>, i: nat, n: nat): nat
    requires Run(ks, cs, steps) && n <= |steps|
  {
    if n == 0 then 0
    else Births(ks, cs, steps, i, n - 1) + (if Born(ks[n - 1], cs[n - 1], steps[n - 1], i) then 1 else 0)
  }

  lemma BirthsNext(ks: seq<K>, cs: seq<nat>, steps: seq<Action>, i: nat, n: nat)
    requires Run(ks, cs, steps) && n <= |steps|
    ensures n == 0 ==> Births(ks, cs, steps, i, n) == 0
    ensures n > 0 ==>
      Births(ks, cs, steps, i, n) == Births(ks, cs, steps, i, n - 1) + (if Born(ks[n - 1], cs[n - 1], steps[n - 1], i) then 1 else 0)
  {
    hide Born, Run;
  }

  lemma RunStep(ks: seq<K>, cs: seq<nat>, steps: seq<Action>, n: nat)
    requires Run(ks, cs, steps) && n < |steps|
    ensures n + 1 < |ks| && n < |cs| && Can(ks[n], cs[n], steps[n]) && ks[n + 1] == Next(ks[n], cs[n], steps[n])
  {
    hide Can, Next;
  }

  lemma IdStep(k: K, c: nat, a: Action, i: nat)
    requires Inv(k) && Can(k, c, a) && i < NENV
    ensures |k.envs| == NENV && |Next(k, c, a).envs| == NENV
    ensures Next(k, c, a).envs[i].id == if Born(k, c, a, i) then NextId(k.envs[i].id, i) else k.envs[i].id
  {
    InvShape(k);
    StepTracked(k, c, a, i);
    hide Inv, Born, Delivers, Returns, NextId, Can;
  }

  lemma IdNext(i: nat, n: nat)
    ensures IdAfter(i, n + 1) == NextId(IdAfter(i, n), i)
  {
    hide NextId;
  }

  lemma {:induction false} IdsTrack(ks: seq<K>, cs: seq<nat>, steps: seq<Action>, i: nat, a: nat, n: nat)
    requires Run(ks, cs, steps) && Guarded(ks, cs, steps) && Inv(ks[0]) && n <= |steps| && i < NENV
    requires ks[0].envs[i].id == IdAfter(i, a)
    ensures |ks[n].envs| == NENV && ks[n].envs[i].id == IdAfter(i, a + Births(ks, cs, steps, i, n))
  {
    hide *;
    RunLength(ks, cs, steps);
    KernelSteps.RunInv(ks, cs, steps, n);
    InvShape(ks[n]);
    BirthsNext(ks, cs, steps, i, n);
    if n > 0 {
      IdsTrack(ks, cs, steps, i, a, n - 1);
      KernelSteps.RunInv(ks, cs, steps, n - 1);
      RunStep(ks, cs, steps, n - 1);
      IdStep(ks[n - 1], cs[n - 1], steps[n - 1], i);
      IdNext(i, a + Births(ks, cs, steps, i, n - 1));
    }
  }

  lemma RunLength(ks: seq<K>, cs: seq<nat>, steps: seq<Action>)
    requires Run(ks, cs, steps)
    ensures |ks| == |steps| + 1
  {
  }

  lemma OldIdRejected(k: K, c: nat, i: nat, x: nat, y: nat, checkPerm: bool)
    requires IsCpu(k, c) && i < NENV && 0 < x < y < x + PERIOD && k.envs[i].id == IdAfter(i, y)
    ensures Envid2Env(k, c, IdAfter(i, x), checkPerm) == -1
  {
    IdsDistinct(i, x, y);
    IdAfterClosed(i, x);
    IdPositive(i, x);
    IdIndex(IdAfter(i, x), i);
  }

  /** A stale id is rejected: envid2env refuses, for every caller, an id that slot i had earlier in
      the run, unless the slot has since been reused a multiple of 2^19 - 1 times. */
  lemma StaleIdRejected(ks: seq<K>, cs: seq<nat>, steps: seq<Action>, i: nat, a: nat, m: nat, n: nat, c: nat, checkPerm: bool)
    requires Run(ks, cs, steps) && Guarded(ks, cs, steps) && Inv(ks[0]) && m <= n <= |steps| && i < NENV
    requires ks[0].envs[i].id == IdAfter(i, a) && a + Births(ks, cs, steps, i, m) > 0
    requires Births(ks, cs, steps, i, m) < Births(ks, cs, steps, i, n) < Births(ks, cs, steps, i, m) + PERIOD
    requires IsCpu(ks[n], c) && |ks[m].envs| == NENV
    ensures Envid2Env(ks[n], c, ks[m].envs[i].id, checkPerm) == -1
  {
    hide *;
    RunLength(ks, cs, steps);
    IdsTrack(ks, cs, steps, i, a, m);
    IdsTrack(ks, cs, steps, i, a, n);
    OldIdRejected(ks[n], c, i, a + Births(ks, cs, steps, i, m), a + Births(ks, cs, steps, i, n), checkPerm);
  }

  lemma IdPositive(i: nat, n: nat)
    requires i < NENV && n > 0
    ensures IdAfter(i, n) > 0
  {
    IdAfterClosed(i, n);
  }

  /** Live environments have distinct positive ids, and envid2env finds each by its id. */
  lemma IdsUnique(k: K, c: nat, i: nat, j: nat)
    requires Inv(k) && IsCpu(k, c) && i < NENV && j < NENV && k.envs[i].status != Free && k.envs[j].status != Free
    ensures k.envs[i].id > 0 && Envx(k.envs[i].id) == i
    ensures k.envs[i].id == k.envs[j].id ==> i == j
    ensures Envid2Env(k, c, k.envs[i].id, false) == i
  {
    assert EnvOk(k.envs[i], i) && EnvOk(k.envs[j], j);
    IdIndex(k.envs[i].id, i);
    IdIndex(k.envs[j].id, j);
  }
}
