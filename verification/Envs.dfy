/** The kernel side in place: the array of environments, the lists, the ASID bitmap, and the calls that
    change them; and the library functions ipc_send and ipc_recv on top, with other environments running
    while they wait. */
module Envs {
  import opened Words
  import opened Counting
  import opened SchedModel
  import opened SchedProof
  import opened SchedRuns
  import opened SchedLaws

  class Kernel {
    const envs: array<Env>
    const asids: array<int>
    var freeList: seq<Ix>
    var schedList: seq<Ix>
    var curenv: int
    var count: int
    var ids: int
    var halted: bool

    ghost predicate Shape()
      reads this, envs, asids
    {
      envs.Length == NENV && asids.Length == 2 && -1 <= curenv < NENV
    }

    function View(): State
      reads this, envs, asids
    {
      State(envs[..], freeList, schedList, curenv, count, ids, asids[..], halted)
    }

    /** `env_init`, without the page tables. */
    constructor ()
      ensures Shape() && Inv(View()) && freeList == seq(NENV, i requires 0 <= i < NENV => i) && schedList == [] && curenv == -1
      ensures fresh(envs) && fresh(asids) && !halted
    {
      envs := new Env[NENV](_ => Env(0, FREE, 0, 0, 0, 0, 0, 0, false, 0, 0, Idle, [], []));
      asids := new int[2](_ => 0);
      freeList, schedList, curenv, count, ids, halted := [], [], -1, 0, 0, false;
      new;
      var i := NENV - 1;
      while i >= 0
        invariant -1 <= i < NENV && Shape() && schedList == [] && curenv == -1 && count == 0 && ids == 0 && !halted
        invariant freeList == seq(NENV - 1 - i, k requires 0 <= k < NENV - 1 - i => i + 1 + k)
        invariant forall e: Ix :: envs[e] == Env(0, FREE, 0, 0, 0, 0, 0, 0, false, 0, 0, Idle, [], [])
        invariant asids[0] == 0 && asids[1] == 0
      {
        envs[i] := envs[i].(status := FREE);
        freeList := [i] + freeList;
        i := i - 1;
      }
      InitialInv(View());
    }

    /** `asid_alloc` */
    method AsidAlloc() returns (r: int, asid: int)
      requires asids.Length == 2
      modifies asids
      ensures asid == FirstAsid(old(asids[..]), 0)
      ensures asid == NASID ==> r == -E_NO_FREE_ENV && asids[..] == old(asids[..])
      ensures asid < NASID ==> r == 0 && asids[..] == SetAsid(old(asids[..]), asid, true)
      ensures forall k :: 0 <= k < asid ==> old(AsidUsed(asids[..], k))
      ensures forall k :: AsidUsed(asids[..], k) <==> old(AsidUsed(asids[..], k)) || (k == asid && asid < NASID)
    {
      hide TestBit, SetBit, ClearBit;
      ghost var words := asids[..];
      var i := 0;
      while i < NASID
        invariant 0 <= i <= NASID && asids[..] == words
        invariant FirstAsid(words, 0) == FirstAsid(words, i)
      {
        if !TestBit(asids[i / 32], i % 32) {
          asids[i / 32] := SetBit(asids[i / 32], i % 32);
          assert asids[..] == SetAsid(words, i, true);
          forall k { SetAsidIs(words, i, true, k); }
          return 0, i;
        }
        i := i + 1;
      }
      return -E_NO_FREE_ENV, NASID;
    }

    /** `asid_free` */
    method AsidFree(i: int)
      requires asids.Length == 2 && 0 <= i < NASID
      modifies asids
      ensures asids[..] == SetAsid(old(asids[..]), i, false)
      ensures forall k :: AsidUsed(asids[..], k) <==> k != i && old(AsidUsed(asids[..], k))
    {
      forall k { SetAsidIs(asids[..], i, false, k); }
      ghost var words := asids[..];
      asids[i / 32] := ClearBit(asids[i / 32], i % 32);
      assert asids[..] == SetAsid(words, i, false);
    }

    /** `mkenvid` */
    method Mkenvid(e: Ix) returns (id: int)
      requires ids >= 0
      modifies `ids
      ensures ids == old(ids) + 1 && id == NewId(ids, e)
      ensures id % 2048 == id % NENV == e && (ids < IDS ==> id / 2048 == ids && id != 0)
    {
      NewIdIs(ids + 1, e);
      ids := ids + 1;
      id := ids % IDS * 2048 + e;
    }

    /** `envid2env` */
    method Envid2EnvCall(envid: int, checkperm: bool) returns (r: int, e: int)
      requires Shape() && IsEnv(curenv)
      ensures if Envid2Env(View(), envid, checkperm) < 0 then r == -E_BAD_ENV && e == -1
        else r == 0 && e == Envid2Env(View(), envid, checkperm)
    {
      if envid == 0 {
        return 0, curenv;
      }
      e := envid % NENV;
      if envs[e].status == FREE || envs[e].id != envid {
        return -E_BAD_ENV, -1;
      }
      if checkperm && e != curenv && envs[e].parent != envs[curenv].id {
        return -E_BAD_ENV, -1;
      }
      return 0, e;
    }

    method Set(e: Ix, v: Env)
      requires Shape()
      modifies envs
      ensures Shape() && View() == WithEnv(old(View()), e, v)
    {
      envs[e] := v;
    }

    /** `env_alloc`, without the page tables. */
    method EnvAlloc(parent: int) returns (r: int, e: int)
      requires Shape() && ids >= 0
      modifies this`freeList, this`ids, envs, asids
      ensures Shape() && View() == Alloc(old(View()), parent).0
      ensures e == Alloc(old(View()), parent).1 && (r == 0 <==> e >= 0) && (r != 0 ==> r == -E_NO_FREE_ENV)
    {
      hide TestBit, SetBit, ClearBit, FirstAsid, SetAsid;
      ghost var s := View();
      if freeList == [] {
        return -E_NO_FREE_ENV, -E_NO_FREE_ENV;
      }
      e := freeList[0];
      var id := Mkenvid(e);
      Set(e, envs[e].(runs := 0, id := id));
      var asid;
      r, asid := AsidAlloc();
      if r < 0 {
        assert View() == Alloc(s, parent).0;
        return r, -E_NO_FREE_ENV;
      }
      Set(e, envs[e].(asid := asid, parent := parent, phase := Idle, sent := [], seen := []));
      freeList := Remove(freeList, e);
      assert View().envs == Alloc(s, parent).0.envs;
      r := 0;
    }

    /** `env_run`: the environment it is called for is runnable. */
    method EnvRun(e: Ix)
      requires Shape() && envs[e].status == RUNNABLE
      modifies this`curenv, envs
      ensures Shape() && View() == Run(old(View()), e)
    {
      curenv := e;
      Set(e, envs[e].(runs := envs[e].runs + 1));
    }

    /** The current environment goes to the tail of the run queue; the first one is next, if any. */
    method Rotate() returns (e: int)
      requires Shape() && NoDup(schedList) && forall g: Ix :: g in schedList <==> envs[g].status == RUNNABLE
      modifies this`schedList, this`halted
      ensures schedList == Rotated(old(View())) && curenv == old(curenv)
      ensures schedList == [] ==> halted && e == -1
      ensures schedList != [] ==> halted == old(halted) && e == schedList[0] && envs[e].status == RUNNABLE
    {
      e := curenv;
      if e >= 0 && envs[e].status == RUNNABLE {
        RemoveIs(schedList, e);
        schedList := Remove(schedList, e);
        schedList := schedList + [e];
      }
      if schedList == [] {
        halted := true;
        return -1;
      }
      e := schedList[0];
    }

    /** `schedule`; an empty run queue is a panic. */
    method ScheduleCall(yield_: bool)
      requires Shape() && Inv(View())
      modifies this`schedList, this`curenv, this`count, this`halted, envs
      ensures Shape() && Inv(View()) && View() == Schedule(old(View()), yield_)
    {
      hide IdInv, AsidInv, FreeInv, LocalInv, Remove;
      ghost var s := View();
      ScheduleKeeps(s, yield_);
      var e := curenv;
      if yield_ || count == 0 || e < 0 || envs[e].status != RUNNABLE {
        e := Rotate();
        if e < 0 {
          return;
        }
        count := envs[e].pri;
      }
      count := count - 1;
      EnvRun(e);
    }

    /** `env_free`, without the page tables; the environment has to be in the run queue. */
    method EnvFree(e: Ix)
      requires Shape() && e in schedList && 0 <= envs[e].asid < NASID
      modifies this`freeList, this`schedList, envs, asids
      ensures Shape() && View() == FreeEnv(old(View()), e)
    {
      hide SetAsid;
      AsidFree(envs[e].asid);
      Set(e, envs[e].(status := FREE));
      freeList := [e] + freeList;
      schedList := Remove(schedList, e);
    }

    /** `sys_env_destroy` */
    method SysEnvDestroy(envid: int) returns (r: int)
      requires Shape() && Inv(View()) && Enabled(View(), Destroy(envid))
      modifies this, envs, asids
      ensures Shape() && Inv(View()) && View() == AfterDestroy(old(View()), envid).0 && r == AfterDestroy(old(View()), envid).1
    {
      ghost var s := View();
      DestroyKeeps(s, envid);
      var e;
      r, e := Envid2EnvCall(envid, true);
      if r < 0 {
        return;
      }
      FreeKeeps(s, e);
      assert e in schedList;
      hide Inv, SetAsid, Schedule;
      EnvFree(e);
      if curenv == e {
        curenv := -1;
        ScheduleCall(true);
      }
    }

    /** `sys_ipc_recv` */
    method SysIpcRecv(dstva: int) returns (r: int)
      requires Shape() && Inv(View()) && Enabled(View(), Recv(dstva))
      modifies this`schedList, this`curenv, this`count, this`halted, envs
      ensures Shape() && Inv(View()) && View() == AfterRecv(old(View()), dstva).0 && r == AfterRecv(old(View()), dstva).1
    {
      ghost var s := View();
      RecvKeeps(s, dstva);
      if dstva != 0 && IllegalVa(dstva) {
        return -E_INVAL;
      }
      BlockedKeeps(s, dstva);
      hide Inv, Schedule;
      Set(curenv, envs[curenv].(recving := true, dstva := dstva, status := NOT_RUNNABLE, phase := InRecv));
      schedList := Remove(schedList, curenv);
      ScheduleCall(true);
      r := 0;
    }

    /** Steps 4 and 5 of `sys_ipc_try_send`. */
    method PutMessage(e: Ix, value: int, perm: int)
      requires Shape() && IsEnv(curenv)
      modifies this`schedList, envs
      ensures Shape() && View() == Deliver(old(View()), e, value, perm)
    {
      hide SetBit, TestBit;
      ghost var s := View();
      var p := perm;
      if TestBit(p, 2) {
        p := SetBit(p, 1);
      }
      Set(e, envs[e].(value := value, from := envs[curenv].id, perm := SetBit(SetBit(p, 4), 0), recving := false,
                      phase := Returned, sent := envs[e].sent + [Msg(envs[curenv].id, value)]));
      Set(e, envs[e].(status := RUNNABLE));
      schedList := schedList + [e];
      assert View() == Deliver(s, e, value, perm);
    }

    /** `sys_ipc_try_send` */
    method SysIpcTrySend(envid: int, value: int, srcva: int, perm: int, found: bool, inserted: int) returns (r: int)
      requires Shape() && Inv(View()) && Enabled(View(), TrySend(envid, value, srcva, perm, found, inserted))
      modifies this`schedList, envs
      ensures Shape() && Inv(View())
      ensures View() == AfterSend(old(View()), envid, value, srcva, perm, found, inserted).0
      ensures r == AfterSend(old(View()), envid, value, srcva, perm, found, inserted).1
    {
      StepKeeps(View(), TrySend(envid, value, srcva, perm, found, inserted));
      hide Inv, Deliver;
      if srcva != 0 && IllegalVa(srcva) {
        return -E_INVAL;
      }
      var e;
      r, e := Envid2EnvCall(envid, false);
      if r < 0 {
        return;
      }
      if !envs[e].recving {
        return -E_IPC_NOT_RECV;
      }
      PutMessage(e, value, perm);
      if srcva != 0 {
        if !found {
          return -E_INVAL;
        }
        return inserted;
      }
      r := 0;
    }

    /** `sys_set_env_status`, which keeps the invariant exactly when it does not wake an environment that
        waits for a message. */
    method SysSetEnvStatus(envid: int, status: int) returns (r: int)
      requires Shape() && Inv(View()) && CurRuns(View())
      modifies this`schedList, envs
      ensures Shape() && View() == AfterSetStatus(old(View()), envid, status).0
      ensures var e := old(Envid2Env(View(), envid, true));
              Inv(View()) <==> (status == RUNNABLE && e >= 0 ==> !old(envs[e].recving))
      ensures r == AfterSetStatus(old(View()), envid, status).1
    {
      ghost var s := View();
      SetStatusKeepsExactly(s, envid, status);
      if status != RUNNABLE && status != NOT_RUNNABLE {
        return -E_INVAL;
      }
      var e;
      r, e := Envid2EnvCall(envid, true);
      if r < 0 {
        return;
      }
      hide Inv;
      if envs[e].status != status {
        if status == RUNNABLE {
          schedList := schedList + [e];
        } else {
          schedList := Remove(schedList, e);
        }
      }
      Set(e, envs[e].(status := status));
      r := 0;
    }

    /** `sys_exofork`, without the trap frame. */
    method SysExofork() returns (r: int)
      requires Shape() && Inv(View()) && Enabled(View(), Exofork)
      modifies this`freeList, this`ids, envs, asids
      ensures Shape() && Inv(View()) && View() == AfterExofork(old(View())).0 && r == AfterExofork(old(View())).1
    {
      ghost var s := View();
      ExoforkKeeps(s);
      hide Inv, Alloc;
      var e;
      r, e := EnvAlloc(envs[curenv].id);
      if r < 0 {
        return;
      }
      Set(e, envs[e].(status := NOT_RUNNABLE, pri := envs[curenv].pri));
      r := envs[e].id;
    }

    /** `env_create`, without loading the program. */
    method EnvCreate(pri: int)
      requires Shape() && Inv(View()) && Enabled(View(), Create(pri))
      modifies this`freeList, this`schedList, this`ids, this`halted, envs, asids
      ensures Shape() && Inv(View()) && View() == AfterCreate(old(View()), pri)
    {
      CreateKeeps(View(), pri);
      hide Inv, Alloc;
      var r, e := EnvAlloc(0);
      if r < 0 {
        halted := true;
        return;
      }
      Set(e, envs[e].(pri := pri, status := RUNNABLE));
      schedList := [e] + schedList;
    }

    /** The end of the library function ipc_recv. */
    method ReadMessage() returns (from: int, value: int, perm: int)
      requires Shape() && Inv(View()) && Enabled(View(), Observe)
      modifies envs
      ensures Shape() && Inv(View()) && View() == AfterObserve(old(View()))
      ensures from == old(envs[curenv].from) && value == old(envs[curenv].value) && perm == old(envs[curenv].perm)
    {
      ObserveKeeps(View());
      hide Inv;
      from, perm, value := envs[curenv].from, envs[curenv].perm, envs[curenv].value;
      Set(curenv, envs[curenv].(phase := Idle, seen := envs[curenv].seen + [Msg(from, value)]));
    }

    /** Any call. */
    method Do(a: Action)
      requires Shape() && Inv(View()) && Enabled(View(), a)
      modifies this, envs, asids
      ensures Shape() && Inv(View()) && View() == After(old(View()), a)
    {
      hide Inv;
      match a
      case Tick(yield_) => ScheduleCall(yield_);
      case Create(pri) => EnvCreate(pri);
      case Recv(dstva) => var _ := SysIpcRecv(dstva);
      case TrySend(envid, value, srcva, perm, found, inserted) =>
        var _ := SysIpcTrySend(envid, value, srcva, perm, found, inserted);
      case SetStatus(envid, status) => var _ := SysSetEnvStatus(envid, status);
      case Exofork => var _ := SysExofork();
      case Destroy(envid) => var _ := SysEnvDestroy(envid);
      case Observe => var _, _, _ := ReadMessage();
    }

    /** Other environments run, until `me` runs again, or has died, or the schedule ends. */
    method Others(me: Ix, ghost sent0: seq<Msg>, ghost seen0: seq<Msg>, steps: nat) returns (back: bool)
      requires Shape() && Inv(View()) && History(View(), me, sent0, seen0) && envs[me].phase != Idle
      modifies this, envs, asids
      ensures Shape() && Inv(View()) && (back <==> !halted && curenv == me && envs[me].status == RUNNABLE)
      ensures back ==> CurRuns(View()) && History(View(), me, sent0, seen0) && envs[me].phase == Returned
    {
      var n := steps;
      while n > 0 && !halted && !(curenv == me && envs[me].status == RUNNABLE) && envs[me].status != FREE
        invariant Shape() && Inv(View())
        invariant envs[me].status != FREE ==> History(View(), me, sent0, seen0) && envs[me].phase != Idle
      {
        var a: Action := *;
        if Enabled(View(), a) {
          StepOfAnother(View(), a, me, sent0, seen0);
          Do(a);
        }
        n := n - 1;
      }
      back := !halted && curenv == me && envs[me].status == RUNNABLE;
      if back {
        RunningHasReturned(View(), me);
      }
    }

    /** The library function ipc_recv: what it returns is one message, read for the first time, and all
        messages that were sent before have been read. */
    method IpcRecv(dstva: int, steps: nat) returns (back: bool, from: int, value: int)
      requires Shape() && Inv(View()) && Enabled(View(), Recv(dstva)) && !(dstva != 0 && IllegalVa(dstva))
      modifies this, envs, asids
      ensures Shape() && Inv(View())
      ensures back <==> !halted && curenv == old(curenv) && 0 <= curenv && CurRuns(View())
      ensures back ==> envs[curenv].seen == envs[curenv].sent == old(envs[curenv].seen) + [Msg(from, value)]
    {
      ghost var me, seen0 := curenv, envs[curenv].seen;
      var e: Ix := curenv;
      from, value := 0, 0;
      RecvStarts(View(), dstva, e);
      var r := SysIpcRecv(dstva);
      back := Others(e, seen0, seen0, steps);
      if back {
        OneMessage(View(), e, seen0);
        var perm;
        from, value, perm := ReadMessage();
      }
    }

    /** The library function ipc_send. It tries again, giving up the processor in between, while the
        target does not receive; `accepted` counts its sends that came through. It stops without a result
        only when it has run again `patience` times, or does not run again. */
    method IpcSend(whom: int, value: int, srcva: int, perm: int, found: bool, inserted: int, patience: nat)
      returns (r: int, stuck: bool, ghost accepted: nat)
      requires Shape() && Inv(View()) && CurRuns(View()) && !halted
      requires inserted == 0 || inserted == -E_NO_MEM
      modifies this, envs, asids
      ensures Shape() && Inv(View())
      ensures !stuck && r == 0 ==> accepted == 1
      ensures stuck || r == -E_BAD_ENV ==> accepted == 0
      ensures !stuck ==> r != -E_IPC_NOT_RECV && accepted <= 1 && CurRuns(View()) && curenv == old(curenv)
      ensures r == -E_BAD_ENV ==> whom != 0 && Gone(View(), whom)
      ensures !stuck && accepted == 0 ==> r == -E_BAD_ENV || (r == -E_INVAL && srcva != 0 && !LegalVa(srcva))
      ensures accepted == 1 ==>
        r == (if srcva == 0 then 0 else if !found then -E_INVAL else inserted) &&
        0 <= curenv && exists e: Ix :: Received(envs[e], Msg(envs[curenv].id, value))
      ensures stuck ==> r == -E_IPC_NOT_RECV
      ensures stuck && !halted && curenv == old(curenv) && envs[curenv].status == RUNNABLE ==>
        envs[curenv].runs >= old(envs[curenv].runs) + patience
    {
      hide Inv;
      accepted := 0;
      var me: Ix := curenv;
      var left := patience;
      while true
        invariant Shape() && Inv(View()) && CurRuns(View()) && curenv == me && !halted && accepted == 0
        invariant envs[me].runs >= old(envs[curenv].runs) + patience - left
        decreases left
      {
        ghost var s, a := View(), TrySend(whom, value, srcva, perm, found, inserted);
        SendOutcome(s, whom, value, srcva, perm, found, inserted);
        TryMeans(s, whom, value, srcva, perm, found, inserted);
        r := SysIpcTrySend(whom, value, srcva, perm, found, inserted);
        TryKeepsRuns(s, me, whom, value, srcva, perm, found, inserted);
        if r != -E_IPC_NOT_RECV {
          accepted := if Accepted(s, a, Envid2Env(s, whom, false)) then 1 else 0;
          return r, false, accepted;
        }
        if left == 0 {
          return r, true, 0;
        }
        left := left - 1;
        ScheduleKeeps(View(), true);
        ghost var m := View();
        ScheduleCall(true);
        YieldRuns(m, me);
        var n: nat := *;
        var again := Meanwhile(me, n, m.envs[me].runs);
        if !again {
          return r, true, 0;
        }
      }
    }

    /** Calls of other environments until `me` runs again, or has died, or the schedule ends. */
    method Meanwhile(me: Ix, steps: nat, ghost runs0: int) returns (again: bool)
      requires Shape() && Inv(View()) && HasRunSince(View(), me, runs0)
      modifies this, envs, asids
      ensures Shape() && Inv(View()) && (again <==> !halted && curenv == me && envs[me].status == RUNNABLE)
      ensures again ==> CurRuns(View()) && envs[me].runs > runs0
    {
      hide Inv, Enabled, After, HasRunSince;
      var n := steps;
      while n > 0 && !(curenv == me && envs[me].status == RUNNABLE) && envs[me].status != FREE
        invariant Shape() && Inv(View()) && HasRunSince(View(), me, runs0)
      {
        var a: Action := *;
        if Enabled(View(), a) {
          RunsGrow(View(), a, me, runs0);
          Do(a);
        }
        n := n - 1;
      }
      again := !halted && curenv == me && envs[me].status == RUNNABLE;
      if again {
        RanSince(View(), me, runs0);
      }
    }
  }

  const E_NO_MEM := 4

  /** Environment `me` lives, waits for a message or has one to read, and has read nothing since. */
  ghost predicate History(s: State, me: Ix, sent0: seq<Msg>, seen0: seq<Msg>) {
    WellFormed(s) && s.envs[me].status != FREE && s.envs[me].seen == seen0 && sent0 <= s.envs[me].sent
  }

  /** While it lives: environment `me` has run more often, or does not run at the moment. */
  ghost predicate HasRunSince(s: State, me: Ix, runs0: int) {
    WellFormed(s) && (s.envs[me].status != FREE ==> s.envs[me].runs >= runs0 && (s.cur == me && !s.halted ==> s.envs[me].runs > runs0))
  }

  lemma RanSince(s: State, me: Ix, runs0: int)
    requires HasRunSince(s, me, runs0) && s.envs[me].status == RUNNABLE && s.cur == me && !s.halted
    ensures s.envs[me].runs > runs0 && CurRuns(s)
  {}

  lemma ScheduleRuns(s: State, yield_: bool, me: Ix)
    requires WellFormed(s)
    ensures var t := Schedule(s, yield_);
            WellFormed(t) && t.envs[me].status == s.envs[me].status && t.envs[me].runs >= s.envs[me].runs &&
            (t.cur == me ==> t.envs[me].runs > s.envs[me].runs || (t.halted && s.cur == me))
  {}

  lemma YieldRuns(s: State, me: Ix)
    requires WellFormed(s)
    ensures HasRunSince(Schedule(s, true), me, s.envs[me].runs)
  {
    ScheduleRuns(s, true, me);
    hide Schedule;
  }

  lemma RunsGrow(s: State, a: Action, me: Ix, runs0: int)
    requires Inv(s) && Enabled(s, a) && s.envs[me].status != FREE && HasRunSince(s, me, runs0)
    ensures HasRunSince(After(s, a), me, runs0)
  {
    StepKeeps(s, a);
    hide IdInv, AsidInv, QueueInv, LocalInv, SetBit, ClearBit, TestBit, MsgPerm, NewId, FirstAsid, Remove;
    match a
    case Tick(yield_) => ScheduleRuns(s, yield_, me); hide Schedule;
    case Recv(dstva) => RecvRuns(s, dstva, me, runs0); hide AfterRecv;
    case Destroy(envid) => DestroyRuns(s, envid, me, runs0); hide AfterDestroy;
    case Exofork => BirthRuns(s, s.envs[s.cur].id, me); hide Alloc;
    case Create(_) => BirthRuns(s, 0, me); hide Alloc;
    case TrySend(envid, value, srcva, perm, found, inserted) => hide Inv;
    case _ => hide Inv;
  }

  lemma BirthRuns(s: State, parent: int, me: Ix)
    requires Inv(s) && s.envs[me].status != FREE
    ensures var (t, e) := Alloc(s, parent); WellFormed(t) && t.envs[me] == s.envs[me] && e != me && t.cur == s.cur && t.halted == s.halted
  {
    AllocShape(s, parent);
    hide Alloc, IdInv, AsidInv, QueueInv, LocalInv;
    assert me !in s.free;
  }

  lemma RecvRuns(s: State, dstva: int, me: Ix, runs0: int)
    requires WellFormed(s) && IsEnv(s.cur) && s.envs[me].status != FREE && HasRunSince(s, me, runs0)
    ensures HasRunSince(AfterRecv(s, dstva).0, me, runs0)
  {
    hide Remove;
    var t := WithEnv(s, s.cur, s.envs[s.cur].(recving := true, dstva := dstva, status := NOT_RUNNABLE, phase := InRecv))
             .(queue := Remove(s.queue, s.cur));
    ScheduleRuns(t, true, me);
    hide Schedule;
  }

  lemma DestroyRuns(s: State, envid: int, me: Ix, runs0: int)
    requires Enabled(s, Destroy(envid)) && s.envs[me].status != FREE && HasRunSince(s, me, runs0)
    ensures HasRunSince(AfterDestroy(s, envid).0, me, runs0)
  {
    hide SetBit, ClearBit, TestBit, Remove;
    var g := Envid2Env(s, envid, true);
    if g >= 0 && s.cur == g { ScheduleRuns(FreeEnv(s, g).(cur := -1), true, me); hide Schedule; }
  }

  lemma TryKeepsRuns(s: State, me: Ix, whom: int, value: int, srcva: int, perm: int, found: bool, inserted: int)
    requires WellFormed(s) && IsEnv(s.cur)
    ensures var t := AfterSend(s, whom, value, srcva, perm, found, inserted).0;
            WellFormed(t) && t.envs[me].runs == s.envs[me].runs
  {}

  /** The last message of the environment is m, and it has not read it yet. */
  ghost predicate Received(v: Env, m: Msg) {
    v.sent == v.seen + [m] && v.phase == Returned && v.status == RUNNABLE
  }

  /** What one try of a send means for ipc_send. */
  lemma TryMeans(s: State, whom: int, value: int, srcva: int, perm: int, found: bool, inserted: int)
    requires Inv(s) && Enabled(s, TrySend(whom, value, srcva, perm, found, inserted))
    requires inserted == 0 || inserted == -E_NO_MEM
    ensures var (t, r) := AfterSend(s, whom, value, srcva, perm, found, inserted);
            var e := Envid2Env(s, whom, false);
            CurRuns(t) && t.cur == s.cur &&
            if Accepted(s, TrySend(whom, value, srcva, perm, found, inserted), e) then
              r == (if srcva == 0 then 0 else if !found then -E_INVAL else inserted) &&
              t.envs[t.cur].id == s.envs[s.cur].id && IsEnv(e) && Received(t.envs[e], Msg(s.envs[s.cur].id, value))
            else
              (r == -E_BAD_ENV ==> whom != 0 && Gone(t, whom)) && (r == -E_INVAL ==> srcva != 0 && !LegalVa(srcva)) &&
              (r == -E_BAD_ENV || r == -E_INVAL || r == -E_IPC_NOT_RECV)
  {
    var e := Envid2Env(s, whom, false);
    if e >= 0 {
      assert EnvOk(s.envs[e]);
    } else {
      forall g: Ix | s.envs[g].status != FREE ensures s.envs[g].id != whom {
        if s.envs[g].id == whom { LivingIsFound(s, g, false); }
      }
    }
    hide MsgPerm, IdInv, AsidInv, QueueInv, FreeInv;
  }

  lemma RunningHasReturned(s: State, me: Ix)
    requires Inv(s) && s.envs[me].status == RUNNABLE && s.envs[me].phase != Idle
    ensures s.envs[me].phase == Returned
  {
    assert EnvOk(s.envs[me]);
  }

  lemma RecvStarts(s: State, dstva: int, me: Ix)
    requires Inv(s) && Enabled(s, Recv(dstva)) && s.cur == me && !(dstva != 0 && IllegalVa(dstva))
    ensures var t := AfterRecv(s, dstva).0; Inv(t) && History(t, me, s.envs[me].seen, s.envs[me].seen) && t.envs[me].phase == InRecv
  {
    RecvKeeps(s, dstva);
    assert EnvOk(s.envs[me]);
    hide Inv;
    var t := WithEnv(s, me, s.envs[me].(recving := true, dstva := dstva, status := NOT_RUNNABLE, phase := InRecv))
             .(queue := Remove(s.queue, me));
    ScheduleFrame(t, true);
    hide Schedule, Remove;
  }

  lemma StepOfAnother(s: State, a: Action, me: Ix, sent0: seq<Msg>, seen0: seq<Msg>)
    requires Inv(s) && Enabled(s, a) && History(s, me, sent0, seen0) && s.envs[me].phase != Idle
    requires !(s.cur == me && s.envs[me].status == RUNNABLE)
    ensures var t := After(s, a);
            WellFormed(t) && (t.envs[me].status != FREE ==> History(t, me, sent0, seen0) && t.envs[me].phase != Idle)
  {
    StepKeeps(s, a);
    if After(s, a).envs[me].status != FREE {
      HistoryStep(s, a, me);
      PhaseStays(s, a, me);
    }
  }

  lemma PhaseStays(s: State, a: Action, me: Ix)
    requires Inv(s) && Enabled(s, a) && s.envs[me].status != FREE && s.envs[me].phase != Idle
    requires !(s.cur == me && s.envs[me].status == RUNNABLE) && WellFormed(After(s, a))
    ensures After(s, a).envs[me].phase != Idle
    ensures !a.Observe? || s.cur != me
  {
    hide IdInv, AsidInv, QueueInv, LocalInv, SetBit, ClearBit, TestBit, MsgPerm, NewId, FirstAsid, Remove;
    if s.free != [] { assert s.free[0] in s.free; }
    if a.Tick? {
      ScheduleFrame(s, a.yield_);
      hide Schedule;
    } else if a.Recv? {
      var t := WithEnv(s, s.cur, s.envs[s.cur].(recving := true, dstva := a.dstva, status := NOT_RUNNABLE, phase := InRecv))
               .(queue := Remove(s.queue, s.cur));
      ScheduleFrame(t, true);
      hide Schedule;
    } else if a.Destroy? {
      var g := Envid2Env(s, a.envid, true);
      if g >= 0 && s.cur == g { ScheduleFrame(FreeEnv(s, g).(cur := -1), true); hide Schedule; }
    }
  }

  lemma OneMessage(s: State, me: Ix, seen0: seq<Msg>)
    requires Inv(s) && History(s, me, seen0, seen0) && s.envs[me].phase == Returned
    ensures s.envs[me].sent == seen0 + [Msg(s.envs[me].from, s.envs[me].value)]
  {
    assert EnvOk(s.envs[me]);
  }

  lemma InitialInv(s: State)
    requires WellFormed(s) && s.queue == [] && s.cur == -1 && s.count == 0 && s.ids == 0 && s.asids == [0, 0]
    requires s.free == seq(NENV, i requires 0 <= i < NENV => i)
    requires forall e: Ix :: s.envs[e].status == FREE && !s.envs[e].recving
    ensures Inv(s)
  {
    forall i ensures !AsidUsed(s.asids, i) {
      if 0 <= i < NASID { ZeroHasNoBits(i % 32); }
    }
    forall e: Ix ensures e in s.free {
      assert s.free[e] == e;
    }
  }
}
