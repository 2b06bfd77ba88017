/** What every step of the scheduler and of message passing keeps, and what runs guarantee: each message
    is delivered once, ids name one environment, and a queued environment is run in time. */
module SchedProof {
  import opened Words
  import opened Counting
  import opened SchedModel
  import Sv32

  // ---------- invariant ----------

  /** The run queue holds each runnable environment once and nothing else; so does the free list. */
  ghost predicate QueueInv(s: State)
    requires WellFormed(s)
  {
    NoDup(s.queue) && (forall e: Ix :: e in s.queue <==> s.envs[e].status == RUNNABLE)
  }

  ghost predicate FreeInv(s: State)
    requires WellFormed(s)
  {
    NoDup(s.free) && (forall e: Ix :: e in s.free <==> s.envs[e].status == FREE)
  }

  /** A receiver is blocked; what has been delivered is what has been seen, and at most one message more. */
  ghost predicate EnvOk(v: Env) {
    if v.status == FREE then !v.recving
    else
      v.pri >= 1 && (v.recving <==> v.phase == InRecv) && (v.recving ==> v.status == NOT_RUNNABLE) &&
      v.sent == v.seen + (if v.phase == Returned then [Msg(v.from, v.value)] else [])
  }

  ghost predicate IdOk(v: Env, e: int, ids: int) {
    v.status == FREE || (v.id % 2048 == e && 1 <= v.id / 2048 <= ids)
  }

  /** The low bits of an id lead to its environment, also after the counter has wrapped. */
  ghost predicate PlaceOk(v: Env, e: int) { v.status == FREE || v.id % 2048 == e }

  ghost predicate IdInv(s: State)
    requires WellFormed(s)
  {
    0 <= s.ids && (s.ids < IDS ==> forall e: Ix :: IdOk(s.envs[e], e, s.ids)) &&
    forall e: Ix :: PlaceOk(s.envs[e], e)
  }

  ghost predicate Uses(s: State, e: int, i: int)
    requires WellFormed(s)
  {
    IsEnv(e) && s.envs[e].status != FREE && s.envs[e].asid == i
  }

  ghost predicate AsidInv(s: State)
    requires WellFormed(s)
  {
    IsWord(s.asids[0]) && IsWord(s.asids[1]) &&
    (forall e, i :: Uses(s, e, i) ==> AsidUsed(s.asids, i)) &&
    (forall i :: AsidUsed(s.asids, i) ==> exists e :: Uses(s, e, i)) &&
    (forall e, g, i :: Uses(s, e, i) && Uses(s, g, i) ==> e == g)
  }

  ghost predicate LocalInv(s: State)
    requires WellFormed(s)
  {
    (forall e: Ix :: EnvOk(s.envs[e])) && (s.cur >= 0 ==> s.envs[s.cur].status != FREE) && s.count >= 0
  }

  ghost predicate Inv(s: State) {
    WellFormed(s) && QueueInv(s) && FreeInv(s) && LocalInv(s) && IdInv(s) && AsidInv(s)
  }

  // ---------- lists ----------

  lemma {:induction false} RemoveIs(q: seq<Ix>, e: int)
    requires NoDup(q)
    ensures NoDup(Remove(q, e)) && forall x :: x in Remove(q, e) <==> x in q && x != e
  {
    if q != [] {
      assert q == [q[0]] + q[1..];
      assert NoDup(q[1..]) && q[0] !in q[1..];
      if q[0] != e {
        RemoveIs(q[1..], e);
        var r := Remove(q[1..], e);
        assert Remove(q, e) == [q[0]] + r;
        assert q[0] !in r;
      }
    }
  }

  lemma AppendIs(q: seq<Ix>, e: Ix)
    requires NoDup(q) && e !in q
    ensures NoDup(q + [e]) && NoDup([e] + q)
  {}

  // ---------- schedule ----------

  ghost predicate SameButRuns(s: State, t: State) {
    WellFormed(s) && WellFormed(t) && t.free == s.free && t.ids == s.ids && t.asids == s.asids &&
    forall e: Ix :: t.envs[e] == s.envs[e].(runs := t.envs[e].runs)
  }

  lemma ScheduleFrame(s: State, yield_: bool)
    requires WellFormed(s)
    ensures SameButRuns(s, Schedule(s, yield_))
  {}

  lemma FrameKeeps(s: State, t: State)
    requires SameButRuns(s, t)
    ensures FreeInv(s) ==> FreeInv(t)
    ensures IdInv(s) ==> IdInv(t)
    ensures AsidInv(s) ==> AsidInv(t)
  {
    hide TestBit;
    forall e, i ensures Uses(t, e, i) <==> Uses(s, e, i) {
    }
    if IdInv(s) {
      forall e: Ix ensures PlaceOk(t.envs[e], e) && (t.ids < IDS ==> IdOk(t.envs[e], e, t.ids)) {
        assert PlaceOk(s.envs[e], e) && (s.ids < IDS ==> IdOk(s.envs[e], e, s.ids));
      }
    }
    if AsidInv(s) {
      forall i | AsidUsed(t.asids, i) ensures exists e :: Uses(t, e, i) {
        var e :| Uses(s, e, i);
        assert Uses(t, e, i);
      }
    }
  }

  lemma ScheduleKeeps(s: State, yield_: bool)
    requires Inv(s)
    ensures Inv(Schedule(s, yield_))
    ensures var t := Schedule(s, yield_); !t.halted && !s.halted ==> CurRuns(t)
  {
    var t := Schedule(s, yield_);
    ScheduleFrame(s, yield_);
    FrameKeeps(s, t);
    hide IdInv, AsidInv, FreeInv;
    RotatedIs(s);
    forall e: Ix ensures EnvOk(t.envs[e]) { assert EnvOk(s.envs[e]); }
    assert forall e: Ix :: t.envs[e].status == s.envs[e].status;
    if Switches(s, yield_) && Rotated(s) != [] {
      var e := Rotated(s)[0];
      assert e in s.queue;
      assert s.envs[e].status == RUNNABLE && EnvOk(s.envs[e]);
    }
  }

  lemma RotatedIs(s: State)
    requires WellFormed(s) && QueueInv(s)
    ensures NoDup(Rotated(s)) && forall e :: e in Rotated(s) <==> e in s.queue
  {
    if CurRuns(s) {
      RemoveIs(s.queue, s.cur);
      AppendIs(Remove(s.queue, s.cur), s.cur);
    }
  }

  // ---------- steps on one living environment ----------

  /** Environment e changes, but it keeps its id, its ASID and its life. */
  ghost predicate SameLife(s: State, t: State, e: int) {
    WellFormed(s) && WellFormed(t) && IsEnv(e) && t.free == s.free && t.ids == s.ids && t.asids == s.asids &&
    t.cur == s.cur && t.count == s.count && s.envs[e].status != FREE && t.envs[e].status != FREE &&
    t.envs[e].id == s.envs[e].id && t.envs[e].asid == s.envs[e].asid &&
    forall g: Ix :: g != e ==> t.envs[g] == s.envs[g]
  }

  lemma SameLifeKeeps(s: State, t: State, e: int)
    requires SameLife(s, t, e) && Inv(s) && EnvOk(t.envs[e])
    ensures FreeInv(t) && IdInv(t) && AsidInv(t) && LocalInv(t)
  {
    hide TestBit;
    forall g, i ensures Uses(t, g, i) <==> Uses(s, g, i) {
    }
    forall g: Ix ensures EnvOk(t.envs[g]) && PlaceOk(t.envs[g], g) && (t.ids < IDS ==> IdOk(t.envs[g], g, t.ids)) {
      assert EnvOk(s.envs[g]) && PlaceOk(s.envs[g], g) && (s.ids < IDS ==> IdOk(s.envs[g], g, s.ids));
    }
    forall i | AsidUsed(t.asids, i) ensures exists g :: Uses(t, g, i) {
      var g :| Uses(s, g, i);
      assert Uses(t, g, i);
    }
  }

  /** The caller of receive is blocked. */
  lemma BlockedKeeps(s: State, dstva: int)
    requires Inv(s) && Enabled(s, Recv(dstva))
    ensures Inv(WithEnv(s, s.cur, s.envs[s.cur].(recving := true, dstva := dstva, status := NOT_RUNNABLE, phase := InRecv))
                .(queue := Remove(s.queue, s.cur)))
  {
    var e := s.cur;
    assert EnvOk(s.envs[e]);
    var t := WithEnv(s, e, s.envs[e].(recving := true, dstva := dstva, status := NOT_RUNNABLE, phase := InRecv))
             .(queue := Remove(s.queue, e));
    SameLifeKeeps(s, t, e);
    RemoveIs(s.queue, e);
    hide LocalInv, IdInv, AsidInv, FreeInv;
    assert QueueInv(t);
  }

  lemma RecvKeeps(s: State, dstva: int)
    requires Inv(s) && Enabled(s, Recv(dstva))
    ensures Inv(AfterRecv(s, dstva).0)
  {
    BlockedKeeps(s, dstva);
    var e := s.cur;
    var t := WithEnv(s, e, s.envs[e].(recving := true, dstva := dstva, status := NOT_RUNNABLE, phase := InRecv))
             .(queue := Remove(s.queue, e));
    ScheduleKeeps(t, true);
  }

  /** A delivery wakes exactly the receiver, which has no other message to read and was not queued. */
  lemma DeliverKeeps(s: State, e: Ix, value: int, perm: int)
    requires Inv(s) && IsEnv(s.cur) && s.envs[e].recving
    ensures Inv(Deliver(s, e, value, perm))
    ensures var t := Deliver(s, e, value, perm);
            forall g: Ix :: s.envs[g].status != RUNNABLE && t.envs[g].status == RUNNABLE <==> g == e
    ensures e !in s.queue && s.envs[e].sent == s.envs[e].seen
  {
    var t := Deliver(s, e, value, perm);
    assert EnvOk(s.envs[e]);
    hide MsgPerm;
    SameLifeKeeps(s, t, e);
    hide LocalInv, IdInv, AsidInv, FreeInv;
    AppendIs(s.queue, e);
  }

  lemma ObserveKeeps(s: State)
    requires Inv(s) && Enabled(s, Observe)
    ensures Inv(AfterObserve(s))
  {
    var t := AfterObserve(s);
    assert EnvOk(s.envs[s.cur]);
    SameLifeKeeps(s, t, s.cur);
  }

  /** sys_set_env_status keeps the invariant if and only if it does not wake an environment that waits
      for a message. */
  lemma SetStatusKeepsExactly(s: State, envid: int, status: int)
    requires Inv(s) && CurRuns(s)
    ensures Inv(AfterSetStatus(s, envid, status).0) <==>
      (var e := Envid2Env(s, envid, true); status == RUNNABLE && e >= 0 ==> !s.envs[e].recving)
  {
    var (t, r) := AfterSetStatus(s, envid, status);
    var e := Envid2Env(s, envid, true);
    if (status == RUNNABLE || status == NOT_RUNNABLE) && e >= 0 {
      assert EnvOk(s.envs[e]);
      TargetLives(s, envid, true);
      if status == RUNNABLE && s.envs[e].recving {
        assert !EnvOk(t.envs[e]);
      } else {
        SameLifeKeeps(s, t, e);
        RemoveIs(s.queue, e);
        hide LocalInv, IdInv, AsidInv, FreeInv;
        if s.envs[e].status != status && status == RUNNABLE { AppendIs(s.queue, e); }
      }
    }
  }

  lemma TargetLives(s: State, envid: int, checkperm: bool)
    requires Inv(s) && IsEnv(s.cur)
    ensures var e := Envid2Env(s, envid, checkperm); e >= 0 ==> s.envs[e].status != FREE
  {}

  /** After that mistake the next message puts the environment into the run queue twice. */
  lemma WokenReceiverIsQueuedTwice(s: State, e: Ix, value: int, perm: int)
    requires WellFormed(s) && IsEnv(s.cur) && s.envs[e].recving && s.envs[e].status == RUNNABLE && QueueInv(s)
    ensures !NoDup(Deliver(s, e, value, perm).queue)
  {
    var k :| 0 <= k < |s.queue| && s.queue[k] == e;
    var q := Deliver(s, e, value, perm).queue;
    assert q[k] == q[|s.queue|] == e;
  }

  // ---------- birth and death ----------

  lemma AllocShape(s: State, parent: int)
    requires Inv(s)
    ensures var (t, e) := Alloc(s, parent);
            WellFormed(t) && t.cur == s.cur && t.queue == s.queue && t.count == s.count && t.halted == s.halted &&
            (forall g: Ix :: g !in s.free ==> t.envs[g] == s.envs[g]) &&
            (forall g: Ix :: t.envs[g].status == s.envs[g].status) &&
            (e >= 0 ==> s.envs[e].status == FREE)
  {
    hide TestBit, SetBit, QueueInv, IdInv, AsidInv, LocalInv, FirstAsid, NewId;
    if s.free != [] { assert s.free[0] in s.free; }
  }

  /** The low bits of an id are the place of its environment, the high bits the number of the call. */
  lemma NewIdIs(i: nat, e: Ix)
    ensures NewId(i, e) % 2048 == NewId(i, e) % NENV == e
    ensures i < IDS ==> NewId(i, e) / 2048 == i
  {
    Sv32.DivByParts(NewId(i, e), i % IDS, e, 2048);
    Sv32.DivByParts(NewId(i, e), i % IDS * 2, e, NENV);
  }

  /** The ASID words after one bit changes. */
  lemma SetAsidIs(words: seq<int>, i: int, on: bool, k: int)
    requires |words| == 2 && 0 <= i < NASID
    ensures AsidUsed(SetAsid(words, i, on), k) <==> if k == i then on else AsidUsed(words, k)
    ensures IsWord(words[0]) && IsWord(words[1]) ==> IsWord(SetAsid(words, i, on)[0]) && IsWord(SetAsid(words, i, on)[1])
  {
    if IsWord(words[0]) && IsWord(words[1]) { WordBits(words[i / 32], i % 32); }
    SetBitIs(words[i / 32], i % 32, k % 32);
    ClearBitIs(words[i / 32], i % 32, k % 32);
  }

  /** A new environment in state `status`. */
  ghost function Born(s: State, parent: int, status: int, pri: int): State
    requires WellFormed(s)
  {
    var (t, e) := Alloc(s, parent);
    if e < 0 then t else WithEnv(t, e, t.envs[e].(status := status, pri := pri))
  }

  lemma BornKeeps(s: State, parent: int, status: int, pri: int)
    requires Inv(s) && pri >= 1 && (status == RUNNABLE || status == NOT_RUNNABLE)
    ensures var t := Born(s, parent, status, pri); WellFormed(t) && FreeInv(t) && LocalInv(t) && IdInv(t) && AsidInv(t)
  {
    BornFree(s, parent, status, pri);
    BornLocal(s, parent, status, pri);
    BornIds(s, parent, status, pri);
    BornAsids(s, parent, status, pri);
  }

  lemma BornFree(s: State, parent: int, status: int, pri: int)
    requires Inv(s) && status != FREE
    ensures FreeInv(Born(s, parent, status, pri))
  {
    hide TestBit, FirstAsid, LocalInv, IdInv, AsidInv;
    if s.free != [] { RemoveIs(s.free, s.free[0]); }
  }

  lemma BornLocal(s: State, parent: int, status: int, pri: int)
    requires Inv(s) && pri >= 1 && (status == RUNNABLE || status == NOT_RUNNABLE)
    ensures LocalInv(Born(s, parent, status, pri))
  {
    hide TestBit, FirstAsid, IdInv, AsidInv, SetAsid, NewId, QueueInv;
    var t := Born(s, parent, status, pri);
    if s.free != [] { assert s.free[0] in s.free; }
    forall g: Ix ensures EnvOk(t.envs[g]) { assert EnvOk(s.envs[g]); }
  }

  lemma BornIds(s: State, parent: int, status: int, pri: int)
    requires Inv(s) && status != FREE
    ensures IdInv(Born(s, parent, status, pri))
  {
    hide TestBit, FirstAsid, LocalInv, AsidInv, QueueInv;
    var t := Born(s, parent, status, pri);
    if s.free != [] {
      NewIdIs(s.ids + 1, s.free[0]);
      hide NewId;
      assert s.free[0] in s.free;
      forall g: Ix ensures PlaceOk(t.envs[g], g) && (s.ids + 1 < IDS ==> IdOk(t.envs[g], g, t.ids)) {
        assert PlaceOk(s.envs[g], g) && (s.ids < IDS ==> IdOk(s.envs[g], g, s.ids));
      }
    }
  }

  lemma BornAsids(s: State, parent: int, status: int, pri: int)
    requires Inv(s) && status != FREE
    ensures AsidInv(Born(s, parent, status, pri))
  {
    hide TestBit, SetBit, ClearBit, LocalInv, IdInv, QueueInv, NewId;
    var t := Born(s, parent, status, pri);
    if s.free != [] {
      var e, a := s.free[0], FirstAsid(s.asids, 0);
      assert e in s.free && s.envs[e].status == FREE;
      hide FreeInv;
      if a < NASID {
        forall k ensures IsWord(t.asids[0]) && IsWord(t.asids[1]) && (AsidUsed(t.asids, k) <==> k == a || AsidUsed(s.asids, k)) {
          SetAsidIs(s.asids, a, true, k);
        }
        forall g, i ensures Uses(t, g, i) <==> (if g == e then i == a else Uses(s, g, i)) {
        }
        UsesGrow(s, t, e, a);
      } else {
        forall g, i ensures Uses(t, g, i) <==> Uses(s, g, i) {
        }
        UsesStay(s, t);
      }
    }
  }

  lemma UsesGrow(s: State, t: State, e: Ix, a: int)
    requires WellFormed(s) && WellFormed(t) && AsidInv(s) && !AsidUsed(s.asids, a) && IsWord(t.asids[0]) && IsWord(t.asids[1])
    requires forall k :: AsidUsed(t.asids, k) <==> k == a || AsidUsed(s.asids, k)
    requires forall g, i :: Uses(t, g, i) <==> (if g == e then i == a else Uses(s, g, i))
    requires forall i :: !Uses(s, e, i)
    ensures AsidInv(t)
  {
    hide AsidUsed, Uses;
    forall i | AsidUsed(t.asids, i) ensures exists g :: Uses(t, g, i) {
      if i == a { assert Uses(t, e, i); } else { var g :| Uses(s, g, i); assert Uses(t, g, i); }
    }
  }

  lemma UsesStay(s: State, t: State)
    requires WellFormed(s) && WellFormed(t) && AsidInv(s) && t.asids == s.asids
    requires forall g, i :: Uses(t, g, i) <==> Uses(s, g, i)
    ensures AsidInv(t)
  {
    hide AsidUsed, Uses;
    forall i | AsidUsed(t.asids, i) ensures exists g :: Uses(t, g, i) {
      var g :| Uses(s, g, i);
      assert Uses(t, g, i);
    }
  }

  lemma ExoforkKeeps(s: State)
    requires Inv(s) && Enabled(s, Exofork)
    ensures Inv(AfterExofork(s).0)
  {
    var t := AfterExofork(s).0;
    AllocShape(s, s.envs[s.cur].id);
    assert EnvOk(s.envs[s.cur]);
    assert s.cur !in s.free;
    BornKeeps(s, s.envs[s.cur].id, NOT_RUNNABLE, s.envs[s.cur].pri);
    hide Alloc, FreeInv, IdInv, AsidInv, LocalInv;
    assert t == Born(s, s.envs[s.cur].id, NOT_RUNNABLE, s.envs[s.cur].pri);
  }

  lemma CreateKeeps(s: State, pri: int)
    requires Inv(s) && Enabled(s, Create(pri))
    ensures Inv(AfterCreate(s, pri))
  {
    var t := AfterCreate(s, pri);
    var u := Born(s, 0, RUNNABLE, pri);
    AllocShape(s, 0);
    BornKeeps(s, 0, RUNNABLE, pri);
    var e := Alloc(s, 0).1;
    if e >= 0 { AppendIs(s.queue, e); }
    SameEnvs(u, t);
    hide Alloc, FreeInv, IdInv, AsidInv, LocalInv;
  }

  lemma SameEnvs(s: State, t: State)
    requires WellFormed(s) && t == s.(queue := t.queue, halted := t.halted)
    ensures WellFormed(t) && (FreeInv(s) ==> FreeInv(t)) && (LocalInv(s) ==> LocalInv(t)) && (IdInv(s) ==> IdInv(t))
    ensures AsidInv(s) ==> AsidInv(t)
  {
    FrameKeeps(s, t);
  }

  lemma FreeKeeps(s: State, e: Ix)
    requires Inv(s) && s.envs[e].status == RUNNABLE
    ensures 0 <= s.envs[e].asid < NASID
    ensures Inv(FreeEnv(s, e).(cur := -1)) && (s.cur != e ==> Inv(FreeEnv(s, e)))
  {
    assert Uses(s, e, s.envs[e].asid);
    assert AsidUsed(s.asids, s.envs[e].asid);
    var t := FreeEnv(s, e);
    FreeAsids(s, e);
    FreeLists(s, e);
    hide TestBit, SetBit, ClearBit, AsidInv, QueueInv, FreeInv, SetAsid;
    assert EnvOk(s.envs[e]);
    forall g: Ix ensures EnvOk(t.envs[g]) && PlaceOk(t.envs[g], g) && (t.ids < IDS ==> IdOk(t.envs[g], g, t.ids)) {
      assert EnvOk(s.envs[g]) && PlaceOk(s.envs[g], g) && (s.ids < IDS ==> IdOk(s.envs[g], g, s.ids));
    }
    var u := t.(cur := -1);
    FrameKeeps(t, u);
    assert QueueInv(u) by { NoCurInQueue(t, u); }
  }

  lemma NoCurInQueue(s: State, t: State)
    requires WellFormed(s) && QueueInv(s) && t == s.(cur := -1)
    ensures QueueInv(t)
  {}

  lemma FreeLists(s: State, e: Ix)
    requires Inv(s) && s.envs[e].status == RUNNABLE && 0 <= s.envs[e].asid < NASID
    ensures QueueInv(FreeEnv(s, e)) && FreeInv(FreeEnv(s, e))
  {
    hide TestBit, SetAsid, LocalInv, IdInv, AsidInv;
    RemoveIs(s.queue, e);
    AppendIs(s.free, e);
  }

  lemma FreeAsids(s: State, e: Ix)
    requires Inv(s) && s.envs[e].status == RUNNABLE && 0 <= s.envs[e].asid < NASID
    ensures AsidInv(FreeEnv(s, e))
  {
    hide TestBit, SetBit, ClearBit, LocalInv, IdInv, QueueInv, FreeInv;
    var t, a := FreeEnv(s, e), s.envs[e].asid;
    assert Uses(s, e, a);
    forall k ensures IsWord(t.asids[0]) && IsWord(t.asids[1]) && (AsidUsed(t.asids, k) <==> k != a && AsidUsed(s.asids, k)) {
      SetAsidIs(s.asids, a, false, k);
    }
    hide AsidUsed, SetAsid;
    forall g, i ensures Uses(t, g, i) <==> g != e && Uses(s, g, i) {
    }
    forall i | AsidUsed(t.asids, i) ensures exists g :: Uses(t, g, i) {
      var g :| Uses(s, g, i);
      assert Uses(t, g, i);
    }
  }

  lemma DestroyKeeps(s: State, envid: int)
    requires Inv(s) && Enabled(s, Destroy(envid))
    ensures Inv(AfterDestroy(s, envid).0)
  {
    var e := Envid2Env(s, envid, true);
    if e >= 0 {
      FreeKeeps(s, e);
      if s.cur == e { ScheduleKeeps(FreeEnv(s, e).(cur := -1), true); }
    }
  }

  /** Every call keeps the invariant. */
  lemma StepKeeps(s: State, a: Action)
    requires Inv(s) && Enabled(s, a)
    ensures Inv(After(s, a))
  {
    match a
    case Tick(yield_) => ScheduleKeeps(s, yield_);
    case Recv(dstva) => RecvKeeps(s, dstva);
    case TrySend(envid, value, srcva, perm, found, inserted) =>
      var e := Envid2Env(s, envid, false);
      if e >= 0 && s.envs[e].recving { DeliverKeeps(s, e, value, perm); }
    case SetStatus(envid, status) => SetStatusKeepsExactly(s, envid, status);
    case Exofork => ExoforkKeeps(s);
    case Destroy(envid) => DestroyKeeps(s, envid);
    case Create(pri) => CreateKeeps(s, pri);
    case Observe => ObserveKeeps(s);
  }
}
