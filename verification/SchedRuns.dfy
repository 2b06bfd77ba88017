/** Runs of the scheduler: exactly-once delivery of messages, ids that are never used again, and bounded
    waiting in the run queue. */
module SchedRuns {
  import opened Counting
  import opened Words
  import opened SchedModel
  import opened SchedProof
  import Sv32

  /** states[k + 1] follows from states[k] by actions[k]. */
  ghost predicate IsRun(states: seq<State>, actions: seq<Action>) {
    |states| == |actions| + 1 && Inv(states[0]) &&
    forall k :: 0 <= k < |actions| ==> Enabled(states[k], actions[k]) && states[k + 1] == After(states[k], actions[k])
  }

  lemma {:induction false} RunKeeps(states: seq<State>, actions: seq<Action>, k: nat)
    requires IsRun(states, actions) && k < |states|
    ensures Inv(states[k])
  {
    if k > 0 {
      RunKeeps(states, actions, k - 1);
      StepKeeps(states[k - 1], actions[k - 1]);
    }
  }

  lemma RunPrefix(states: seq<State>, actions: seq<Action>)
    requires IsRun(states, actions) && actions != []
    ensures IsRun(states[..|states| - 1], actions[..|actions| - 1])
  {
    var ss, as_ := states[..|states| - 1], actions[..|actions| - 1];
    forall k | 0 <= k < |as_| ensures Enabled(ss[k], as_[k]) && ss[k + 1] == After(ss[k], as_[k]) {
      assert ss[k] == states[k] && as_[k] == actions[k] && ss[k + 1] == states[k + 1];
    }
  }

  // ---------- messages ----------

  /** A send that passes the checks up to env_ipc_recving, for environment e. */
  ghost predicate Accepted(s: State, a: Action, e: int) {
    Enabled(s, a) && a.TrySend? && !(a.srcva != 0 && IllegalVa(a.srcva)) && Envid2Env(s, a.envid, false) == e && e >= 0 &&
    s.envs[e].recving
  }

  ghost function SentBy(s: State, a: Action, e: int): seq<Msg> {
    if Accepted(s, a, e) then [Msg(s.envs[s.cur].id, a.value)] else []
  }

  /** What the program in e reads out of its message fields. */
  ghost function SeenBy(s: State, a: Action, e: int): seq<Msg> {
    if Enabled(s, a) && a.Observe? && s.cur == e then [Msg(s.envs[e].from, s.envs[e].value)] else []
  }

  ghost function AllSent(states: seq<State>, actions: seq<Action>, e: int): seq<Msg>
    requires |states| == |actions| + 1
  {
    if actions == [] then []
    else
      var n := |actions| - 1;
      AllSent(states[..n + 1], actions[..n], e) + SentBy(states[n], actions[n], e)
  }

  ghost function AllSeen(states: seq<State>, actions: seq<Action>, e: int): seq<Msg>
    requires |states| == |actions| + 1
  {
    if actions == [] then []
    else
      var n := |actions| - 1;
      AllSeen(states[..n + 1], actions[..n], e) + SeenBy(states[n], actions[n], e)
  }

  lemma HistoryStep(s: State, a: Action, e: Ix)
    requires Inv(s) && Enabled(s, a) && s.envs[e].status != FREE && After(s, a).envs[e].status != FREE
    ensures After(s, a).envs[e].sent == s.envs[e].sent + SentBy(s, a, e)
    ensures After(s, a).envs[e].seen == s.envs[e].seen + SeenBy(s, a, e)
  {
    hide IdInv, AsidInv, QueueInv, LocalInv, SetBit, ClearBit, TestBit, MsgPerm, NewId, FirstAsid, Remove, SetAsid, Rotated, Schedule;
    match a
    case Tick(yield_) => ScheduleFrame(s, yield_);
    case Recv(dstva) => RecvFrame(s, dstva, e);
    case TrySend(_, _, _, _, _, _) =>
    case SetStatus(_, _) =>
    case Exofork => if s.free != [] { assert s.free[0] in s.free; }
    case Destroy(envid) => DestroyFrame(s, envid, e);
    case Create(_) => if s.free != [] { assert s.free[0] in s.free; }
    case Observe =>
  }

  lemma RecvFrame(s: State, dstva: int, e: Ix)
    requires WellFormed(s) && IsEnv(s.cur)
    ensures var t := AfterRecv(s, dstva).0; t.envs[e].sent == s.envs[e].sent && t.envs[e].seen == s.envs[e].seen
  {
    hide Remove;
    var t := WithEnv(s, s.cur, s.envs[s.cur].(recving := true, dstva := dstva, status := NOT_RUNNABLE, phase := InRecv))
             .(queue := Remove(s.queue, s.cur));
    ScheduleFrame(t, true);
    hide Schedule;
  }

  lemma DestroyFrame(s: State, envid: int, e: Ix)
    requires Enabled(s, Destroy(envid))
    ensures var t := AfterDestroy(s, envid).0; t.envs[e].sent == s.envs[e].sent && t.envs[e].seen == s.envs[e].seen
  {
    hide Remove, SetBit, ClearBit, TestBit;
    var g := Envid2Env(s, envid, true);
    if g >= 0 && s.cur == g { ScheduleFrame(FreeEnv(s, g).(cur := -1), true); hide Schedule; }
  }

  /** Environment e lives through the whole run. */
  ghost predicate Lives(states: seq<State>, e: Ix) {
    forall k :: 0 <= k < |states| ==> WellFormed(states[k]) && states[k].envs[e].status != FREE
  }

  lemma {:induction false} HistoryOfRun(states: seq<State>, actions: seq<Action>, e: Ix)
    requires IsRun(states, actions) && Lives(states, e)
    ensures var n := |actions|;
            states[n].envs[e].sent == states[0].envs[e].sent + AllSent(states, actions, e) &&
            states[n].envs[e].seen == states[0].envs[e].seen + AllSeen(states, actions, e)
    decreases |actions|
  {
    hide Inv, Enabled, After, SentBy, SeenBy;
    if actions != [] {
      var n := |actions| - 1;
      RunPrefix(states, actions);
      HistoryOfRun(states[..n + 1], actions[..n], e);
      RunKeeps(states, actions, n);
      assert WellFormed(states[n + 1]) && states[n + 1].envs[e].status != FREE && states[n + 1] == After(states[n], actions[n]);
      HistoryStep(states[n], actions[n], e);
    }
  }

  /** Exactly once: over any run from the birth of e on, the messages its program has read are the
      messages of the accepted sends, in order, but for at most one that it has not read yet, and then
      it is not receiving. */
  lemma DeliveredExactlyOnce(states: seq<State>, actions: seq<Action>, e: Ix)
    requires IsRun(states, actions) && Lives(states, e)
    requires states[0].envs[e].sent == [] && states[0].envs[e].seen == []
    ensures var v := states[|actions|].envs[e];
            AllSent(states, actions, e) ==
              AllSeen(states, actions, e) + (if v.phase == Returned then [Msg(v.from, v.value)] else []) &&
            (v.phase == Returned ==> !v.recving)
  {
    hide Enabled, After, AllSent, AllSeen, IdInv, AsidInv, QueueInv, FreeInv;
    HistoryOfRun(states, actions, e);
    RunKeeps(states, actions, |actions|);
    assert EnvOk(states[|actions|].envs[e]);
    assert [] + AllSent(states, actions, e) == AllSent(states, actions, e);
    assert [] + AllSeen(states, actions, e) == AllSeen(states, actions, e);
  }

  /** What the results of a send mean: without a result of its own the state is the old one; once past
      the check the message is delivered, whatever happens to the page. */
  lemma SendOutcome(s: State, envid: int, value: int, srcva: int, perm: int, found: bool, inserted: int)
    requires Inv(s) && Enabled(s, TrySend(envid, value, srcva, perm, found, inserted))
    ensures var (t, r) := AfterSend(s, envid, value, srcva, perm, found, inserted);
            var e := Envid2Env(s, envid, false);
            if Accepted(s, TrySend(envid, value, srcva, perm, found, inserted), e) then
              t.envs[e].value == value && t.envs[e].from == s.envs[s.cur].id && t.envs[e].status == RUNNABLE &&
              !t.envs[e].recving && t.queue == s.queue + [e] &&
              (r == 0 <==> srcva == 0 || (found && inserted == 0))
            else
              t == s && (r == -E_INVAL || r == -E_BAD_ENV || r == -E_IPC_NOT_RECV)
  {}

  /** A send can fail and yet deliver: the page is not mapped at the sender. */
  lemma FailedSendDelivers(s: State, e: Ix, value: int, perm: int)
    requires Inv(s) && CurRuns(s) && !s.halted && s.envs[e].recving && s.envs[e].id != 0 && s.envs[e].id % NENV == e
    ensures var (t, r) := AfterSend(s, s.envs[e].id, value, UTEMP, perm, false, 0);
            r == -E_INVAL && t.envs[e].sent == s.envs[e].sent + [Msg(s.envs[s.cur].id, value)]
  {
    assert EnvOk(s.envs[e]);
  }

  // ---------- ids ----------

  /** No living environment has id x. */
  ghost predicate Gone(s: State, x: int)
    requires WellFormed(s)
  {
    forall e: Ix :: s.envs[e].status != FREE ==> s.envs[e].id != x
  }

  lemma LivingIdsDiffer(s: State, e: Ix, g: Ix)
    requires Inv(s) && s.envs[e].status != FREE && s.envs[g].status != FREE && s.envs[e].id == s.envs[g].id
    ensures e == g
  {
    assert PlaceOk(s.envs[e], e) && PlaceOk(s.envs[g], g);
  }

  /** A new environment was free, and has an ASID nobody uses, no messages, and an id that was never given
      out before and that leads to it. */
  lemma NewbornIsFresh(s: State, parent: int, x: int)
    requires Inv(s) && IsEnv(s.cur) && s.ids + 1 < IDS && Alloc(s, parent).1 >= 0
    ensures var (t, e) := Alloc(s, parent);
            s.envs[e].status == FREE && e !in t.free && t.envs[e].sent == [] && t.envs[e].seen == []
    ensures var (t, e) := Alloc(s, parent);
            !AsidUsed(s.asids, t.envs[e].asid) && forall g :: !Uses(s, g, t.envs[e].asid)
    ensures var (t, e) := Alloc(s, parent); x / 2048 <= s.ids ==> t.envs[e].id != x
    ensures var (t, e) := Alloc(s, parent);
            Envid2Env(WithEnv(t, e, t.envs[e].(status := NOT_RUNNABLE)), t.envs[e].id, false) == e
  {
    hide QueueInv, LocalInv, SetBit, ClearBit, TestBit;
    var e := s.free[0];
    NewIdIs(s.ids + 1, e);
    RemoveIs(s.free, e);
    assert e in s.free;
  }

  /** Without a free environment or without an ASID nothing is taken. */
  lemma NothingTaken(s: State, parent: int)
    requires Inv(s)
    ensures var (t, e) := Alloc(s, parent);
            e < 0 <==> (forall g: Ix :: s.envs[g].status != FREE) || (forall k :: 0 <= k < NASID ==> AsidUsed(s.asids, k))
    ensures var (t, e) := Alloc(s, parent);
            e < 0 ==> t.free == s.free && t.asids == s.asids && forall g: Ix :: s.envs[g].status != FREE ==> t.envs[g] == s.envs[g]
  {
    hide LocalInv, IdInv, AsidInv, QueueInv, AsidUsed, SetAsid, NewId;
    if s.free != [] { assert s.free[0] in s.free; }
  }

  /** An id that was given out before and is gone stays gone, until the counter of mkenvid wraps. */
  lemma GoneStays(s: State, a: Action, x: int)
    requires Inv(s) && Enabled(s, a) && After(s, a).ids < IDS && x / 2048 <= s.ids && Gone(s, x)
    ensures Gone(After(s, a), x) && s.ids <= After(s, a).ids
  {
    hide AsidInv, QueueInv, LocalInv, SetBit, ClearBit, TestBit, MsgPerm, FirstAsid, Remove;
    if s.free != [] && s.ids + 1 < IDS {
      NewIdIs(s.ids + 1, s.free[0]);
      assert s.free[0] in s.free;
    }
    hide NewId;
    match a
    case Tick(yield_) => ScheduleFrame(s, yield_); hide Schedule;
    case Recv(dstva) => GoneStaysRecv(s, dstva, x);
    case TrySend(envid, _, _, _, _, _) => TargetLives(s, envid, false);
    case SetStatus(envid, _) => TargetLives(s, envid, true);
    case Exofork =>
    case Destroy(envid) => GoneStaysDestroy(s, envid, x);
    case Create(_) =>
    case Observe =>
  }

  lemma GoneStaysRecv(s: State, dstva: int, x: int)
    requires WellFormed(s) && IsEnv(s.cur) && s.envs[s.cur].status != FREE && Gone(s, x)
    ensures var t := AfterRecv(s, dstva).0; WellFormed(t) && Gone(t, x) && t.ids == s.ids
  {
    hide Remove;
    var t := WithEnv(s, s.cur, s.envs[s.cur].(recving := true, dstva := dstva, status := NOT_RUNNABLE, phase := InRecv))
             .(queue := Remove(s.queue, s.cur));
    ScheduleFrame(t, true);
    hide Schedule;
  }

  lemma GoneStaysDestroy(s: State, envid: int, x: int)
    requires Enabled(s, Destroy(envid)) && Gone(s, x)
    ensures var t := AfterDestroy(s, envid).0; WellFormed(t) && Gone(t, x) && t.ids == s.ids
  {
    hide SetBit, ClearBit, TestBit, Remove;
    var g := Envid2Env(s, envid, true);
    if g >= 0 && s.cur == g { ScheduleFrame(FreeEnv(s, g).(cur := -1), true); hide Schedule; }
  }

  lemma {:induction false} GoneForever(states: seq<State>, actions: seq<Action>, x: int, k: nat)
    requires IsRun(states, actions) && k < |states| && x / 2048 <= states[0].ids && Gone(states[0], x)
    requires states[k].ids < IDS && forall j :: 0 <= j < k ==> states[j].ids <= states[j + 1].ids
    ensures Inv(states[k]) && Gone(states[k], x) && states[0].ids <= states[k].ids
    ensures x != 0 && IsEnv(states[k].cur) ==> Envid2Env(states[k], x, false) == -E_BAD_ENV
  {
    RunKeeps(states, actions, k);
    if k > 0 {
      GoneForever(states, actions, x, k - 1);
      GoneStays(states[k - 1], actions[k - 1], x);
    }
  }
}
