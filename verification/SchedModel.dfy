/** Environments, the run queue and message passing (kern/env.c, kern/sched.c, kern/syscall_all.c) as a
    state machine over values. */
module SchedModel {
  import opened Words
  import opened Counting

  const NENV := 1024
  const NASID := 64
  const IDS := 0x20_0000

  const FREE := 0
  const RUNNABLE := 1
  const NOT_RUNNABLE := 2

  const E_BAD_ENV := 2
  const E_INVAL := 3
  const E_NO_FREE_ENV := 6
  const E_IPC_NOT_RECV := 7

  const UTEMP := 0x3FE000
  const UTOP := 0x7F400000

  datatype Msg = Msg(from: int, value: int)

  /** Where a user program is with ipc_recv: it is not in it, blocked, or back with the message unread. */
  datatype Phase = Idle | InRecv | Returned

  /** `struct Env`; `phase`, `sent` and `seen` describe the program that runs in it: the messages that
      were delivered to this environment since it was allocated, and those that ipc_recv returned. */
  datatype Env = Env(id: int, status: int, parent: int, pri: int, asid: int, runs: int, value: int, from: int,
                     recving: bool, dstva: int, perm: int, phase: Phase, sent: seq<Msg>, seen: seq<Msg>)

  /** A place in the array `envs`. */
  type Ix = e: int | 0 <= e < NENV

  /** `cur` is -1 for NULL; `ids` is the counter of mkenvid; `halted` stands for a panic. */
  datatype State = State(envs: seq<Env>, free: seq<Ix>, queue: seq<Ix>, cur: int, count: int, ids: int,
                         asids: seq<int>, halted: bool)

  // ---------- lists ----------

  /** TAILQ_REMOVE and LIST_REMOVE of an element that is in the list. */
  function Remove(q: seq<Ix>, e: int): seq<Ix> {
    if q == [] then [] else if q[0] == e then q[1..] else [q[0]] + Remove(q[1..], e)
  }

  // ---------- numbers ----------

  function NewId(i: int, e: int): int { i % IDS * 2048 + e }

  predicate AsidUsed(words: seq<int>, i: int)
    requires |words| == 2
  {
    0 <= i < NASID && TestBit(words[i / 32], i % 32)
  }

  /** The first unused ASID from i on, or NASID. */
  function FirstAsid(words: seq<int>, i: int): (r: int)
    requires |words| == 2 && 0 <= i <= NASID
    ensures i <= r <= NASID && (r < NASID ==> !AsidUsed(words, r))
    ensures forall k :: i <= k < r ==> AsidUsed(words, k)
    decreases NASID - i
  {
    if i == NASID then NASID else if !AsidUsed(words, i) then i else FirstAsid(words, i + 1)
  }

  predicate IllegalVa(va: int) { va < UTEMP || va >= UTOP }

  predicate IsEnv(e: int) { 0 <= e < NENV }

  predicate WellFormed(s: State) {
    |s.envs| == NENV && |s.asids| == 2 && -1 <= s.cur < NENV
  }

  /** `envid2env` */
  function Envid2Env(s: State, envid: int, checkperm: bool): (r: int)
    requires WellFormed(s) && IsEnv(s.cur)
    ensures r == -E_BAD_ENV || IsEnv(r)
  {
    if envid == 0 then s.cur
    else
      var e := envid % NENV;
      if s.envs[e].status == FREE || s.envs[e].id != envid then -E_BAD_ENV
      else if checkperm && e != s.cur && s.envs[e].parent != s.envs[s.cur].id then -E_BAD_ENV
      else e
  }

  // ---------- steps ----------

  predicate CurRuns(s: State)
    requires WellFormed(s)
  {
    s.cur >= 0 && s.envs[s.cur].status == RUNNABLE
  }

  /** `env_run` */
  function Run(s: State, e: int): State
    requires WellFormed(s) && IsEnv(e)
  {
    s.(cur := e, envs := s.envs[e := s.envs[e].(runs := s.envs[e].runs + 1)])
  }

  function Rotated(s: State): seq<Ix>
    requires WellFormed(s)
  {
    if CurRuns(s) then Remove(s.queue, s.cur) + [s.cur] else s.queue
  }

  predicate Switches(s: State, yield_: bool)
    requires WellFormed(s)
  {
    yield_ || s.count == 0 || !CurRuns(s)
  }

  /** `schedule` */
  function Schedule(s: State, yield_: bool): State
    requires WellFormed(s)
  {
    if Switches(s, yield_) then
      var q := Rotated(s);
      if q == [] then s.(queue := q, halted := true)
      else Run(s.(queue := q, count := s.envs[q[0]].pri - 1), q[0])
    else Run(s.(count := s.count - 1), s.cur)
  }

  function WithEnv(s: State, e: int, v: Env): State
    requires WellFormed(s) && IsEnv(e)
  {
    s.(envs := s.envs[e := v])
  }

  function SetAsid(words: seq<int>, i: int, on: bool): seq<int>
    requires |words| == 2 && 0 <= i < NASID
  {
    words[i / 32 := if on then SetBit(words[i / 32], i % 32) else ClearBit(words[i / 32], i % 32)]
  }

  /** `env_alloc`; the new environment is the first of the free list. Without an ASID it stays there,
      with a new id. */
  function Alloc(s: State, parent: int): (r: (State, int))
    requires WellFormed(s)
    ensures r.1 == -E_NO_FREE_ENV || IsEnv(r.1)
  {
    if s.free == [] then (s, -E_NO_FREE_ENV)
    else
      var e := s.free[0];
      var v := s.envs[e].(runs := 0, id := NewId(s.ids + 1, e));
      var a := FirstAsid(s.asids, 0);
      if a == NASID then (WithEnv(s, e, v).(ids := s.ids + 1), -E_NO_FREE_ENV)
      else
        (WithEnv(s, e, v.(asid := a, parent := parent, phase := Idle, sent := [], seen := []))
         .(ids := s.ids + 1, asids := SetAsid(s.asids, a, true), free := Remove(s.free, e)), e)
  }

  /** `env_free`, without the page tables. */
  function FreeEnv(s: State, e: int): State
    requires WellFormed(s) && IsEnv(e) && 0 <= s.envs[e].asid < NASID
  {
    WithEnv(s, e, s.envs[e].(status := FREE))
      .(asids := SetAsid(s.asids, s.envs[e].asid, false), free := [e] + s.free, queue := Remove(s.queue, e))
  }

  /** `perm` with read permission when it has write permission, and valid and user bits. */
  function MsgPerm(perm: int): int {
    SetBit(SetBit(if TestBit(perm, 2) then SetBit(perm, 1) else perm, 4), 0)
  }

  /** Lines 424 to 433 of `sys_ipc_try_send`: the message is in the target, which is queued again. */
  function Deliver(s: State, e: int, value: int, perm: int): State
    requires WellFormed(s) && IsEnv(e) && IsEnv(s.cur)
  {
    var m := Msg(s.envs[s.cur].id, value);
    WithEnv(s, e, s.envs[e].(value := value, from := m.from, perm := MsgPerm(perm), recving := false,
                             status := RUNNABLE, phase := Returned, sent := s.envs[e].sent + [m]))
      .(queue := s.queue + [e])
  }

  /** The calls, with what the page tables answer (`found`, `inserted`) as parameters. */
  datatype Action =
    | Tick(yield_: bool)
    | Recv(dstva: int)
    | TrySend(envid: int, value: int, srcva: int, perm: int, found: bool, inserted: int)
    | SetStatus(envid: int, status: int)
    | Exofork
    | Destroy(envid: int)
    | Create(pri: int)
    | Observe

  /** What the source demands of a call: a system call comes from a running environment, the target of
      a destroy is in the run queue, and nobody sets an environment runnable that waits for a message. */
  predicate Enabled(s: State, a: Action) {
    WellFormed(s) && !s.halted &&
    match a
    case Tick(_) => true
    case Create(pri) => s.cur == -1 && pri >= 1
    case Recv(_) => CurRuns(s) && s.envs[s.cur].phase == Idle
    case TrySend(_, _, _, _, _, _) => CurRuns(s)
    case SetStatus(envid, status) =>
      CurRuns(s) && var e := Envid2Env(s, envid, true); status == RUNNABLE && e >= 0 ==> !s.envs[e].recving
    case Exofork => CurRuns(s)
    case Destroy(envid) =>
      CurRuns(s) && var e := Envid2Env(s, envid, true); e >= 0 ==> s.envs[e].status == RUNNABLE && 0 <= s.envs[e].asid < NASID
    case Observe => CurRuns(s) && s.envs[s.cur].phase == Returned
  }

  /** `sys_ipc_recv` */
  function AfterRecv(s: State, dstva: int): (r: (State, int))
    requires WellFormed(s) && IsEnv(s.cur)
  {
    if dstva != 0 && IllegalVa(dstva) then (s, -E_INVAL)
    else
      var t := WithEnv(s, s.cur, s.envs[s.cur].(recving := true, dstva := dstva, status := NOT_RUNNABLE, phase := InRecv))
               .(queue := Remove(s.queue, s.cur));
      (Schedule(t, true), 0)
  }

  /** `sys_ipc_try_send` */
  function AfterSend(s: State, envid: int, value: int, srcva: int, perm: int, found: bool, inserted: int): (r: (State, int))
    requires WellFormed(s) && IsEnv(s.cur)
  {
    if srcva != 0 && IllegalVa(srcva) then (s, -E_INVAL)
    else
      var e := Envid2Env(s, envid, false);
      if e < 0 then (s, e)
      else if !s.envs[e].recving then (s, -E_IPC_NOT_RECV)
      else (Deliver(s, e, value, perm), if srcva == 0 then 0 else if !found then -E_INVAL else inserted)
  }

  /** `sys_set_env_status` */
  function AfterSetStatus(s: State, envid: int, status: int): (r: (State, int))
    requires WellFormed(s) && IsEnv(s.cur)
  {
    if status != RUNNABLE && status != NOT_RUNNABLE then (s, -E_INVAL)
    else
      var e := Envid2Env(s, envid, true);
      if e < 0 then (s, e)
      else
        var q := if s.envs[e].status == status then s.queue
                 else if status == RUNNABLE then s.queue + [e] else Remove(s.queue, e);
        (WithEnv(s, e, s.envs[e].(status := status)).(queue := q), 0)
  }

  /** `sys_exofork`, without the trap frame. */
  function AfterExofork(s: State): (r: (State, int))
    requires WellFormed(s) && IsEnv(s.cur)
  {
    var (t, e) := Alloc(s, s.envs[s.cur].id);
    if e < 0 then (t, e)
    else
      (WithEnv(t, e, t.envs[e].(status := NOT_RUNNABLE, pri := t.envs[s.cur].pri)), t.envs[e].id)
  }

  /** `sys_env_destroy` and `env_destroy` */
  function AfterDestroy(s: State, envid: int): (r: (State, int))
    requires WellFormed(s) && IsEnv(s.cur)
    requires var e := Envid2Env(s, envid, true); e >= 0 ==> 0 <= s.envs[e].asid < NASID
  {
    var e := Envid2Env(s, envid, true);
    if e < 0 then (s, e)
    else
      var t := FreeEnv(s, e);
      (if s.cur == e then Schedule(t.(cur := -1), true) else t, 0)
  }

  /** `env_create` while the kernel starts. */
  function AfterCreate(s: State, pri: int): State
    requires WellFormed(s)
  {
    var (t, e) := Alloc(s, 0);
    if e < 0 then t.(halted := true)
    else WithEnv(t, e, t.envs[e].(pri := pri, status := RUNNABLE)).(queue := [e] + t.queue)
  }

  /** The end of the library function ipc_recv: sender and value are read. */
  function AfterObserve(s: State): State
    requires WellFormed(s) && IsEnv(s.cur)
  {
    var v := s.envs[s.cur];
    WithEnv(s, s.cur, v.(phase := Idle, seen := v.seen + [Msg(v.from, v.value)]))
  }

  function After(s: State, a: Action): State
    requires Enabled(s, a)
  {
    match a
    case Tick(yield_) => Schedule(s, yield_)
    case Create(pri) => AfterCreate(s, pri)
    case Recv(dstva) => AfterRecv(s, dstva).0
    case TrySend(envid, value, srcva, perm, found, inserted) => AfterSend(s, envid, value, srcva, perm, found, inserted).0
    case SetStatus(envid, status) => AfterSetStatus(s, envid, status).0
    case Exofork => AfterExofork(s).0
    case Destroy(envid) => AfterDestroy(s, envid).0
    case Observe => AfterObserve(s)
  }
}
