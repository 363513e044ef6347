/** Environments, CPUs and the big kernel lock as one transition system: each trap takes the lock,
    does its work, and leaves the kernel through env_pop_tf or sched_halt
    (lab4/kern/env.c, sched.c, trap.c, spinlock.c and the system calls of syscall.c). */
module Kernel {
  import opened EnvIds

  datatype Status = Free | Dying | Runnable | Running | NotRunnable

  datatype Msg = Msg(from: int, value: int)

  /** The fields of struct Env that scheduling and IPC use.  inCall says that the program is inside
      ipc_recv; sent and got record, for the present occupant, the messages the kernel has accepted
      for it and those that ipc_recv has returned to it. */
  datatype Env = Env(id: int, parent: int, status: Status, recving: bool, ipcFrom: int, ipcValue: int,
                     inCall: bool, sent: seq<Msg>, got: seq<Msg>)

  /** Where a CPU is: in user code; on its way through lock_kernel with acquisitions still to make;
      in the kernel with the lock; halted in sched_halt; or for ever in the monitor. */
  datatype Mode = User | Locking(acquisitions: nat, fromUser: bool) | Inside(fromUser: bool) | Halted | Monitor

  /** halted is cpu_status == CPU_HALTED; env is the index of cpu_env, or -1. */
  datatype Cpu = Cpu(halted: bool, env: int, mode: Mode)

  /** kernel_lock; releases counts the calls of spin_unlock that did not panic. */
  datatype Lock = Lock(locked: bool, cpu: int, releases: nat)

  datatype K = K(envs: seq<Env>, freeEnvs: seq<nat>, cpus: seq<Cpu>, lock: Lock)

  predicate Shape(k: K) {
    && |k.envs| == NENV
    && (forall c :: 0 <= c < |k.cpus| ==> -1 <= k.cpus[c].env < NENV)
    && (forall i :: 0 <= i < |k.freeEnvs| ==> k.freeEnvs[i] < NENV)
  }

  predicate IsCpu(k: K, c: nat) { Shape(k) && c < |k.cpus| }

  function SetEnv(k: K, i: nat, e: Env): K
    requires Shape(k) && i < NENV
  {
    k.(envs := k.envs[i := e])
  }

  function SetStatus(k: K, i: nat, s: Status): K
    requires Shape(k) && i < NENV
  {
    SetEnv(k, i, k.envs[i].(status := s))
  }

  function SetCpu(k: K, c: nat, cpu: Cpu): K
    requires IsCpu(k, c)
  {
    k.(cpus := k.cpus[c := cpu])
  }

  /** A CPU's step leaves every other CPU's state alone. */
  predicate Local(k: K, k': K, c: nat) {
    && IsCpu(k, c) && Shape(k') && |k'.cpus| == |k.cpus|
    && (forall d :: 0 <= d < |k.cpus| && d != c ==> k'.cpus[d] == k.cpus[d])
  }

  /* ---- leaving the kernel ---- */

  predicate Holding(k: K, c: nat) { k.lock.locked && k.lock.cpu == c }

  /** spin_unlock: a panic unless CPU c holds the lock. */
  function SpinUnlock(k: K, c: nat): (k': K)
    requires IsCpu(k, c)
    ensures Local(k, k', c)
  {
    if Holding(k, c) then k.(lock := Lock(false, -1, k.lock.releases + 1))
    else SetCpu(k, c, k.cpus[c].(mode := Monitor))
  }

  /** Release the lock and, after that, go on in mode m. */
  function Leave(k: K, c: nat, m: Mode): (k': K)
    requires IsCpu(k, c)
    ensures Local(k, k', c)
  {
    var k1 := SpinUnlock(k, c);
    if Holding(k, c) then SetCpu(k1, c, k1.cpus[c].(mode := m)) else k1
  }

  /** env_pop_tf: release the lock and resume user code. */
  function EnvPopTf(k: K, c: nat): (k': K)
    requires IsCpu(k, c)
    ensures Local(k, k', c)
  {
    Leave(k, c, User)
  }

  function EnvRun(k: K, c: nat, j: nat): (k': K)
    requires IsCpu(k, c) && j < NENV
    ensures Local(k, k', c)
  {
    var cur := k.cpus[c].env;
    if cur == j then EnvPopTf(k, c)
    else
      var k1 := if cur >= 0 && k.envs[cur].status == Running then SetStatus(k, cur, Runnable) else k;
      var k2 := SetCpu(SetStatus(k1, j, Running), c, k.cpus[c].(env := j));
      EnvPopTf(k2, c)
  }

  predicate Busy(e: Env) { e.status == Runnable || e.status == Running }

  predicate AllIdle(envs: seq<Env>) { forall i :: 0 <= i < |envs| ==> !Busy(envs[i]) }

  /** sched_halt: the monitor if nothing is runnable or running, else halt without an environment. */
  function SchedHalt(k: K, c: nat): (k': K)
    requires IsCpu(k, c)
    ensures Local(k, k', c)
  {
    if AllIdle(k.envs) then SetCpu(k, c, k.cpus[c].(mode := Monitor))
    else Leave(SetCpu(k, c, Cpu(true, -1, k.cpus[c].mode)), c, Halted)
  }

  /** The x-th slot looked at by a search that starts at slot cur. */
  function Slot(cur: nat, x: nat): (i: nat)
    ensures i < NENV
  {
    (cur + x) % NENV
  }

  /** The circular search of sched_yield from offset i: the first runnable offset, NENV if none. */
  function Pick(envs: seq<Env>, cur: nat, i: nat): (j: nat)
    requires |envs| == NENV && i <= NENV
    ensures i <= j <= NENV
    ensures j < NENV ==> envs[Slot(cur, j)].status == Runnable
    ensures forall x: nat :: i <= x < j ==> envs[Slot(cur, x)].status != Runnable
    decreases NENV - i
  {
    if i == NENV then NENV
    else if envs[Slot(cur, i)].status == Runnable then i
    else Pick(envs, cur, i + 1)
  }

  function StartOf(k: K, c: nat): nat
    requires IsCpu(k, c)
  {
    if k.cpus[c].env >= 0 then Envx(k.envs[k.cpus[c].env].id) else 0
  }

  function SchedYield(k: K, c: nat): (k': K)
    requires IsCpu(k, c)
    ensures Local(k, k', c)
  {
    var j := Pick(k.envs, StartOf(k, c), 0);
    var cur := k.cpus[c].env;
    if j < NENV then EnvRun(k, c, Slot(StartOf(k, c), j))
    else if cur >= 0 && k.envs[cur].status == Running then EnvRun(k, c, cur)
    else SchedHalt(k, c)
  }

  /** The end of trap(): resume the current environment if that makes sense. */
  function TrapReturn(k: K, c: nat): (k': K)
    requires IsCpu(k, c)
    ensures Local(k, k', c)
  {
    var cur := k.cpus[c].env;
    if cur >= 0 && k.envs[cur].status == Running then EnvRun(k, c, cur) else SchedYield(k, c)
  }

  /* ---- environments ---- */

  function EnvFree(k: K, i: nat): K
    requires Shape(k) && i < NENV
  {
    SetStatus(k, i, Free).(freeEnvs := [i] + k.freeEnvs)
  }

  /** env_destroy followed, where it returns, by the rest of the trap. */
  function EnvDestroy(k: K, c: nat, i: nat): (k': K)
    requires IsCpu(k, c) && i < NENV
    ensures Local(k, k', c)
  {
    if k.envs[i].status == Running && k.cpus[c].env != i then TrapReturn(SetStatus(k, i, Dying), c)
    else
      var k1 := EnvFree(k, i);
      if k.cpus[c].env == i then SchedYield(SetCpu(k1, c, k.cpus[c].(env := -1)), c) else TrapReturn(k1, c)
  }

  /** env_alloc; memory says whether env_setup_vm succeeds.  The result is the new slot, or -1. */
  function EnvAlloc(k: K, parent: int, memory: bool): (r: (K, int))
    requires Shape(k)
  {
    if k.freeEnvs == [] || !memory then (k, -1)
    else
      var i: int := k.freeEnvs[0];
      var e := k.envs[i];
      (SetEnv(k, i, Env(NextId(e.id, i), parent, Runnable, false, e.ipcFrom, e.ipcValue, false, [], []))
         .(freeEnvs := k.freeEnvs[1..]), i)
  }

  /** envid2env: the slot, or -1 for -E_BAD_ENV. */
  function Envid2Env(k: K, c: nat, envid: int, checkPerm: bool): (i: int)
    requires IsCpu(k, c)
    ensures -1 <= i < NENV
  {
    var cur := k.cpus[c].env;
    var i := Envx(envid);
    if envid == 0 then cur
    else if k.envs[i].status == Free || k.envs[i].id != envid then -1
    else if checkPerm && i != cur && (cur < 0 || k.envs[i].parent != k.envs[cur].id) then -1
    else i
  }

  /* ---- what a trap from user mode does ---- */

  datatype Event =
    | Timer                                              // clock interrupt, sys_yield
    | Nop                                                // a system call that touches nothing here
    | Fault(handled: bool)                               // page fault: upcall entered, or environment destroyed
    | Destroy(envid: int)
    | Exofork(memory: bool)
    | ChangeStatus(envid: int, status: Status)
    | Recv(dstOk: bool)
    | TrySend(envid: int, value: int, pageOk: bool)

  function SysExofork(k: K, c: nat, memory: bool): (k': K)
    requires IsCpu(k, c) && k.cpus[c].env >= 0
    ensures Local(k, k', c)
  {
    var (k1, i) := EnvAlloc(k, k.envs[k.cpus[c].env].id, memory);
    if i < 0 then k else SetStatus(k1, i, NotRunnable)
  }

  function SysEnvSetStatus(k: K, c: nat, envid: int, s: Status): (k': K)
    requires IsCpu(k, c)
    ensures Local(k, k', c)
  {
    var i := Envid2Env(k, c, envid, true);
    if s != Runnable && s != NotRunnable then k
    else if i < 0 then k
    else SetStatus(k, i, s)
  }

  function StartRecv(k: K, i: nat): K
    requires Shape(k) && i < NENV
  {
    SetEnv(k, i, k.envs[i].(recving := true, status := NotRunnable, inCall := true))
  }

  function SysIpcTrySend(k: K, c: nat, envid: int, value: int, pageOk: bool): (k': K)
    requires IsCpu(k, c) && k.cpus[c].env >= 0
    ensures Local(k, k', c)
  {
    var i := Envid2Env(k, c, envid, false);
    if i < 0 || !k.envs[i].recving || !pageOk then k
    else
      var from := k.envs[k.cpus[c].env].id;
      var e := k.envs[i];
      SetEnv(k, i, e.(recving := false, ipcFrom := from, ipcValue := value, status := Runnable,
                      sent := e.sent + [Msg(from, value)]))
  }

  /** Everything between acquiring the lock and leaving the kernel. */
  function Body(k: K, c: nat, ev: Event): (k': K)
    requires IsCpu(k, c) && k.cpus[c].mode.Inside?
    requires k.cpus[c].mode.fromUser ==> k.cpus[c].env >= 0
    ensures Local(k, k', c)
  {
    var cur := k.cpus[c].env;
    if !k.cpus[c].mode.fromUser then SchedYield(k, c)
    else if k.envs[cur].status == Dying then SchedYield(SetCpu(EnvFree(k, cur), c, k.cpus[c].(env := -1)), c)
    else
      match ev
      case Timer => SchedYield(k, c)
      case Nop => TrapReturn(k, c)
      case Fault(handled) => if handled then EnvRun(k, c, cur) else EnvDestroy(k, c, cur)
      case Destroy(envid) =>
        var i := Envid2Env(k, c, envid, true);
        if i < 0 then TrapReturn(k, c) else EnvDestroy(k, c, i)
      case Exofork(memory) => TrapReturn(SysExofork(k, c, memory), c)
      case ChangeStatus(envid, s) => TrapReturn(SysEnvSetStatus(k, c, envid, s), c)
      case Recv(dstOk) => if dstOk then SchedYield(StartRecv(k, cur), c) else TrapReturn(k, c)
      case TrySend(envid, value, pageOk) => TrapReturn(SysIpcTrySend(k, c, envid, value, pageOk), c)
  }

  /* ---- entering the kernel ---- */

  /** The beginning of trap(): one acquisition if the CPU was halted, one if it came from user mode. */
  function TrapEnter(k: K, c: nat): (k': K)
    requires IsCpu(k, c)
    ensures Local(k, k', c)
  {
    var cpu := k.cpus[c];
    var n := (if cpu.halted then 1 else 0) + (if cpu.mode.User? then 1 else 0);
    SetCpu(k, c, Cpu(false, cpu.env, Locking(n, cpu.mode.User?)))
  }

  /** One turn of the acquisition: nothing left to acquire, a panic on a lock already held, one
      failed exchange, or one acquisition. */
  function LockTurn(k: K, c: nat): (k': K)
    requires IsCpu(k, c) && k.cpus[c].mode.Locking?
    ensures Local(k, k', c)
  {
    var cpu := k.cpus[c];
    var n := cpu.mode.acquisitions;
    if n == 0 then SetCpu(k, c, cpu.(mode := Inside(cpu.mode.fromUser)))
    else if Holding(k, c) then SetCpu(k, c, cpu.(mode := Monitor))
    else if k.lock.locked then k
    else SetCpu(k, c, cpu.(mode := if n == 1 then Inside(cpu.mode.fromUser) else Locking(n - 1, cpu.mode.fromUser)))
           .(lock := k.lock.(locked := true, cpu := c))
  }

  /** User code in ipc_recv, resumed after sys_ipc_recv, reads the message out of its struct Env. */
  function ReadMessage(k: K, c: nat): (k': K)
    requires IsCpu(k, c) && k.cpus[c].env >= 0
    ensures Local(k, k', c)
  {
    var i := k.cpus[c].env;
    var e := k.envs[i];
    SetEnv(k, i, e.(inCall := false, got := e.got + [Msg(e.ipcFrom, e.ipcValue)]))
  }

  datatype Action = Trap | Acquire | Work(ev: Event) | Read

  predicate Can(k: K, c: nat, a: Action) {
    && IsCpu(k, c)
    && var cpu := k.cpus[c];
       match a
       case Trap => cpu.mode.User? || cpu.mode.Halted?
       case Acquire => cpu.mode.Locking?
       case Work(_) => cpu.mode.Inside? && (cpu.mode.fromUser ==> cpu.env >= 0)
       case Read => cpu.mode.User? && cpu.env >= 0 && k.envs[cpu.env].inCall && !k.envs[cpu.env].recving
  }

  function Next(k: K, c: nat, a: Action): (k': K)
    requires Can(k, c, a)
    ensures Local(k, k', c)
  {
    match a
    case Trap => TrapEnter(k, c)
    case Acquire => LockTurn(k, c)
    case Work(ev) => Body(k, c, ev)
    case Read => ReadMessage(k, c)
  }
}
