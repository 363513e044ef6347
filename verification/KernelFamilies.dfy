/** Who may do what to whom: every environment belongs to the one that created it. */
module KernelFamilies {
  import opened EnvIds
  import opened Kernel
  import opened KernelInvariant
  import opened KernelSteps
  import opened KernelMessages
  import opened KernelResults

  /* ---- why a status changes ---- */

  /** The scheduler gives slot i the CPU. */
  predicate Picked(k: K, k': K, c: nat, i: nat) {
    && i < |k.envs| && i < |k'.envs| && c < |k'.cpus|
    && k.envs[i].status == Runnable && k'.envs[i].status == Running && k'.cpus[c].env == i
  }

  lemma YieldsStatus(k: K, k': K, c: nat, i: nat)
    requires Yields(k, k', c) && i < NENV && i != k.cpus[c].env
    ensures i < |k'.envs| && (k'.envs[i].status == k.envs[i].status || Picked(k, k', c, i))
  {
  }

  lemma ResumesStatus(k: K, k': K, c: nat)
    requires Resumes(k, k', c)
    ensures k'.envs == k.envs
  {
  }

  /** A system call with which the caller acts on the environment of slot i: itself, or a child. */
  ghost predicate ActsOn(k: K, c: nat, a: Action, i: nat)
    requires Can(k, c, a)
  {
    a.Work? && (a.ev.Destroy? || a.ev.ChangeStatus?) && Serving(k, c) && Governs(k, c, i)
  }

  /** The environment of slot i waits for a message and is sent one. */
  ghost predicate Messaged(k: K, c: nat, a: Action, i: nat)
    requires Can(k, c, a)
  {
    a.Work? && a.ev.TrySend? && a.ev.pageOk && Serving(k, c) && i < |k.envs| && k.envs[i].recving
  }

  /** Every reason for which a step of CPU c changes the status of an environment: it is the one the CPU is running;
      the scheduler picks it; it is created; it gets the message it waits for; its parent destroys it or sets
      its status. */
  ghost predicate Reason(k: K, k': K, c: nat, a: Action, i: nat)
    requires Can(k, c, a)
  {
    || i == k.cpus[c].env
    || Picked(k, k', c, i)
    || Born(k, c, a, i)
    || Messaged(k, c, a, i)
    || ActsOn(k, c, a, i)
  }

  lemma OwnStatus(k: K, c: nat, ev: Event, i: nat)
    requires Serving(k, c) && i < NENV && i != k.cpus[c].env && (ev.Timer? || ev.Nop? || ev.Fault? || ev.Recv?)
    ensures var k' := Body(k, c, ev);
            i < |k'.envs| && (k'.envs[i].status == k.envs[i].status || Picked(k, k', c, i))
  {
    hide Body, Yields, Resumes, Inv;
    var (k', cur) := (Body(k, c, ev), k.cpus[c].env);
    match ev
    case Timer =>
      TimerResult(k, c);
      YieldsStatus(k, k', c, i);
    case Nop =>
      NopResult(k, c);
      ResumesStatus(k, k', c);
    case Fault(handled) =>
      FaultResult(k, c, handled);
      if handled { ResumesStatus(k, k', c); } else { YieldsStatus(SelfFreed(k, c), k', c, i); }
    case Recv(dstOk) =>
      RecvResult(k, c, dstOk);
      if dstOk {
        YieldsStatus(k.(envs := k.envs[cur := k.envs[cur].(recving := true, status := NotRunnable, inCall := true)]), k', c, i);
      } else {
        ResumesStatus(k, k', c);
      }
  }

  lemma ExoforkStatus(k: K, c: nat, memory: bool, i: nat)
    requires Serving(k, c) && i < NENV && !(memory && k.freeEnvs != [] && k.freeEnvs[0] == i)
    ensures var k' := Body(k, c, Exofork(memory)); i < |k'.envs| && k'.envs[i] == k.envs[i]
  {
    hide Body, Resumes, Inv;
    ExoforkResult(k, c, memory);
    var k' := Body(k, c, Exofork(memory));
    if k.freeEnvs == [] || !memory {
      ResumesStatus(k, k', c);
    } else {
      var child: Env, x: nat :| x < |k.envs| && k.freeEnvs == [x] + k.freeEnvs[1..]
        && Resumes(k.(envs := k.envs[x := child], freeEnvs := k.freeEnvs[1..]), k', c);
      ResumesStatus(k.(envs := k.envs[x := child], freeEnvs := k.freeEnvs[1..]), k', c);
      assert k.freeEnvs[0] == x;
    }
  }

  lemma SendStatus(k: K, c: nat, envid: int, value: int, pageOk: bool, i: nat)
    requires Serving(k, c) && i < NENV && !(pageOk && k.envs[i].recving)
    ensures var k' := Body(k, c, TrySend(envid, value, pageOk)); i < |k'.envs| && k'.envs[i] == k.envs[i]
  {
    hide Body, Resumes, Inv, Known;
    var k' := Body(k, c, TrySend(envid, value, pageOk));
    TrySendResult(k, c, envid, value, pageOk, 0);
    if pageOk && exists j :: 0 <= j < |k.envs| && Known(k, c, envid, j) && k.envs[j].recving {
      var j :| 0 <= j < |k.envs| && Known(k, c, envid, j) && k.envs[j].recving;
      TrySendResult(k, c, envid, value, pageOk, j);
      var from := k.envs[k.cpus[c].env].id;
      var e := k.envs[j].(recving := false, ipcFrom := from, ipcValue := value, status := Runnable,
                          sent := k.envs[j].sent + [Msg(from, value)]);
      ResumesStatus(k.(envs := k.envs[j := e]), k', c);
    } else {
      ResumesStatus(k, k', c);
    }
  }

  lemma NamesGoverned(k: K, c: nat, envid: int, i: int)
    requires Serving(k, c) && Names(k, c, envid, i)
    ensures 0 <= i < |k.envs| && Governs(k, c, i)
  {
  }

  lemma ActStatus(k: K, c: nat, ev: Event, i: nat)
    requires Serving(k, c) && i < NENV && (ev.Destroy? || ev.ChangeStatus?) && !Governs(k, c, i)
    ensures var k' := Body(k, c, ev);
            i < |k'.envs| && (k'.envs[i].status == k.envs[i].status || Picked(k, k', c, i))
  {
    hide Body, Yields, Resumes, Inv, Names;
    var k' := Body(k, c, ev);
    var cur := k.cpus[c].env;
    if exists t :: Names(k, c, ev.envid, t) {
      var t :| Names(k, c, ev.envid, t);
      NamesGoverned(k, c, ev.envid, t);
      match ev
      case Destroy(envid) =>
        DestroyResult(k, c, envid, t);
        if t == cur { YieldsStatus(SelfFreed(k, c), k', c, i); }
        else if k.envs[t].status == Running { ResumesStatus(k.(envs := k.envs[t := k.envs[t].(status := Dying)]), k', c); }
        else { ResumesStatus(k.(envs := k.envs[t := k.envs[t].(status := Free)], freeEnvs := [t] + k.freeEnvs), k', c); }
      case ChangeStatus(envid, s) =>
        ChangeStatusResult(k, c, envid, s, t);
        var k1 := k.(envs := k.envs[t := k.envs[t].(status := s)]);
        if s != Runnable && s != NotRunnable { ResumesStatus(k, k', c); }
        else if t == cur && s == NotRunnable { YieldsStatus(k1, k', c, i); }
        else { ResumesStatus(k1, k', c); }
    } else {
      NobodyNamed(k, c, ev);
      ResumesStatus(k, k', c);
    }
  }

  lemma NobodyNamed(k: K, c: nat, ev: Event)
    requires Serving(k, c) && (ev.Destroy? || ev.ChangeStatus?) && forall t :: !Names(k, c, ev.envid, t)
    ensures Resumes(k, Body(k, c, ev), c)
  {
    hide Body, Yields, Resumes, Inv, Names;
    if ev.Destroy? { DestroyResult(k, c, ev.envid, 0); } else { ChangeStatusResult(k, c, ev.envid, ev.status, 0); }
  }

  /** No step changes the status of any environment for any other reason. */
  lemma StatusReasons(k: K, c: nat, a: Action, i: nat)
    requires Inv(k) && Can(k, c, a) && i < NENV
    ensures var k' := Next(k, c, a);
            i < |k.envs| && i < |k'.envs| && (k'.envs[i].status != k.envs[i].status ==> Reason(k, k', c, a, i))
  {
    hide Body, Inv, Yields, Governs;
    InvShape(k);
    if a.Work? && i != k.cpus[c].env {
      if !k.cpus[c].mode.fromUser {
        WokenResult(k, c, a.ev);
        YieldsStatus(k, Next(k, c, a), c, i);
      } else if k.envs[k.cpus[c].env].status == Dying {
        ZombieResult(k, c, a.ev);
        YieldsStatus(SelfFreed(k, c), Next(k, c, a), c, i);
      } else {
        ServingWhenNotDying(k, c);
        ServedStatus(k, c, a, i);
      }
    }
  }

  lemma ServedStatus(k: K, c: nat, a: Action, i: nat)
    requires Serving(k, c) && Can(k, c, a) && a.Work? && i < NENV && i != k.cpus[c].env
    ensures var k' := Next(k, c, a);
            i < |k'.envs| && (k'.envs[i].status != k.envs[i].status ==> Reason(k, k', c, a, i))
  {
    hide Body, Inv, Governs, Picked;
    match a.ev
    case Destroy(envid) => if !Governs(k, c, i) { ActStatus(k, c, a.ev, i); }
    case ChangeStatus(envid, s) => if !Governs(k, c, i) { ActStatus(k, c, a.ev, i); }
    case Exofork(memory) => if !(memory && k.freeEnvs != [] && k.freeEnvs[0] == i) { ExoforkStatus(k, c, memory, i); }
    case TrySend(envid, value, pageOk) => if !(pageOk && k.envs[i].recving) { SendStatus(k, c, envid, value, pageOk, i); }
    case _ => OwnStatus(k, c, a.ev, i);
  }

  /* ---- parents, over whole runs ---- */

  /** No environment is created in slot i by the steps from m up to n. */
  ghost predicate NoBirth(ks: seq<K>, cs: seq<nat>, steps: seq<Action>, i: nat, m: nat, n: nat)
    requires Run(ks, cs, steps) && n <= |steps|
  {
    forall t :: m <= t < n ==> !Born(ks[t], cs[t], steps[t], i)
  }

  lemma ParentStep(k: K, c: nat, a: Action, i: nat)
    requires Inv(k) && Can(k, c, a) && i < NENV
    ensures |k.envs| == NENV && |Next(k, c, a).envs| == NENV
    ensures Born(k, c, a, i) ==>
              0 <= k.cpus[c].env < NENV && Next(k, c, a).envs[i].parent == k.envs[k.cpus[c].env].id && Next(k, c, a).envs[i].status == NotRunnable
    ensures !Born(k, c, a, i) ==> Next(k, c, a).envs[i].parent == k.envs[i].parent
  {
    hide Inv, Next, Tracked, Delivers, Returns, NextId, Can;
    InvShape(k);
    NextShape(k, c, a);
    StepTracked(k, c, a, i);
    ParentTracked(k, c, a, i);
    if Born(k, c, a, i) { BornStatus(k, c, a, i); }
  }

  lemma NextShape(k: K, c: nat, a: Action)
    requires Can(k, c, a)
    ensures Shape(Next(k, c, a)) && c < |k.cpus|
  {
  }

  lemma ParentTracked(k: K, c: nat, a: Action, i: nat)
    requires Can(k, c, a) && Shape(k) && i < NENV && Tracked(k, c, a, i, Next(k, c, a).envs[i])
    ensures if Born(k, c, a, i) then 0 <= k.cpus[c].env < NENV && Next(k, c, a).envs[i].parent == k.envs[k.cpus[c].env].id
            else Next(k, c, a).envs[i].parent == k.envs[i].parent
  {
    hide Next, Inv, NextId, Delivers, Returns;
  }

  lemma BornStatus(k: K, c: nat, a: Action, i: nat)
    requires Inv(k) && Can(k, c, a) && i < NENV && Born(k, c, a, i)
    ensures Shape(Next(k, c, a)) && Next(k, c, a).envs[i].status == NotRunnable
  {
    hide Body, Resumes, Inv;
    ExoforkResult(k, c, true);
    var k' := Body(k, c, Exofork(true));
    var child: Env, x: nat :| x < |k.envs| && k.freeEnvs == [x] + k.freeEnvs[1..] && child.status == NotRunnable
      && Resumes(k.(envs := k.envs[x := child], freeEnvs := k.freeEnvs[1..]), k', c);
    ResumesStatus(k.(envs := k.envs[x := child], freeEnvs := k.freeEnvs[1..]), k', c);
    assert k.freeEnvs[0] == x;
  }

  /** As long as slot i is not reused, its environment keeps its parent. */
  lemma {:induction false} ParentFixed(ks: seq<K>, cs: seq<nat>, steps: seq<Action>, i: nat, m: nat, n: nat)
    requires Run(ks, cs, steps) && Guarded(ks, cs, steps) && Inv(ks[0]) && m <= n <= |steps| && i < NENV
    requires NoBirth(ks, cs, steps, i, m, n)
    ensures |ks[m].envs| == |ks[n].envs| == NENV && ks[n].envs[i].parent == ks[m].envs[i].parent
    decreases n
  {
    hide Inv, Guarded, Born, Next, Can;
    KernelSteps.RunInv(ks, cs, steps, n);
    InvShape(ks[n]);
    if n > m {
      ParentFixed(ks, cs, steps, i, m, n - 1);
      KernelSteps.RunInv(ks, cs, steps, n - 1);
      RunStep(ks, cs, steps, n - 1);
      ParentStep(ks[n - 1], cs[n - 1], steps[n - 1], i);
    }
  }

  /** Authority over whole runs: an environment is created not runnable, and from then on, for as long as it exists, its
      status is changed only by the scheduler's choice, by the CPU that runs it, by a message it waits for, and
      by system calls of the environment that created it. */
  lemma CreatorOnly(ks: seq<K>, cs: seq<nat>, steps: seq<Action>, i: nat, m: nat, n: nat)
    requires Run(ks, cs, steps) && Guarded(ks, cs, steps) && Inv(ks[0]) && m < n < |steps| && i < NENV
    requires Born(ks[m], cs[m], steps[m], i) && NoBirth(ks, cs, steps, i, m + 1, n)
    ensures |ks[m].envs| == |ks[m + 1].envs| == |ks[n].envs| == |ks[n + 1].envs| == NENV
    ensures ks[m + 1].envs[i].status == NotRunnable
    ensures var (k, k', c, a) := (ks[n], ks[n + 1], cs[n], steps[n]);
            c < |k.cpus| && cs[m] < |ks[m].cpus| && (k'.envs[i].status != k.envs[i].status ==>
              || i == k.cpus[c].env
              || Picked(k, k', c, i)
              || Messaged(k, c, a, i)
              || Born(k, c, a, i)
              || (&& a.Work? && (a.ev.Destroy? || a.ev.ChangeStatus?)
                  && 0 <= k.cpus[c].env < NENV && 0 <= ks[m].cpus[cs[m]].env < NENV
                  && k.envs[k.cpus[c].env].id == ks[m].envs[ks[m].cpus[cs[m]].env].id))
  {
    hide *;
    RunLength(ks, cs, steps);
    RunStep(ks, cs, steps, m);
    RunStep(ks, cs, steps, n);
    KernelSteps.RunInv(ks, cs, steps, m);
    KernelSteps.RunInv(ks, cs, steps, n);
    ParentStep(ks[m], cs[m], steps[m], i);
    ParentFixed(ks, cs, steps, i, m + 1, n);
    ParentStep(ks[n], cs[n], steps[n], i);
    StatusReasons(ks[n], cs[n], steps[n], i);
    ReasonIs(ks[n], ks[n + 1], cs[n], steps[n], i);
    NextShape(ks[m], cs[m], steps[m]);
    NextShape(ks[n], cs[n], steps[n]);
  }

  lemma ReasonIs(k: K, k': K, c: nat, a: Action, i: nat)
    requires Can(k, c, a) && Shape(k) && i < NENV
    ensures c < |k.cpus| && |k.envs| == NENV
    ensures Reason(k, k', c, a, i) ==>
              || i == k.cpus[c].env || Picked(k, k', c, i) || Messaged(k, c, a, i) || Born(k, c, a, i)
              || (&& a.Work? && (a.ev.Destroy? || a.ev.ChangeStatus?)
                  && 0 <= k.cpus[c].env < NENV && k.envs[i].parent == k.envs[k.cpus[c].env].id)
  {
    hide Picked, Messaged, Born, Inv;
  }
}
