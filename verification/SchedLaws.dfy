/** What each call does, said of the environments and the run queue before and after it: what a caller may
    rely on, for every state with the invariant. */
module SchedLaws {
  import opened Words
  import opened Counting
  import opened SchedModel
  import opened SchedProof
  import opened SchedRuns
  import Sv32

  // ---------- finding environments ----------

  /** The id of a living environment leads to it; with the check on, only from itself or from its parent. */
  lemma LivingIsFound(s: State, e: Ix, checkperm: bool)
    requires Inv(s) && IsEnv(s.cur) && s.envs[e].status != FREE && s.envs[e].id != 0
    ensures !checkperm || e == s.cur || s.envs[e].parent == s.envs[s.cur].id ==> Envid2Env(s, s.envs[e].id, checkperm) == e
    ensures checkperm && e != s.cur && s.envs[e].parent != s.envs[s.cur].id ==> Envid2Env(s, s.envs[e].id, checkperm) == -E_BAD_ENV
  {
    hide QueueInv, FreeInv, LocalInv, AsidInv;
    assert PlaceOk(s.envs[e], e);
    PlaceOfId(s.envs[e].id, e);
  }

  lemma PlaceOfId(x: int, e: Ix)
    requires x % 2048 == e
    ensures x % NENV == e
  {
    Sv32.DivByParts(x, x / 2048 * 2, e, NENV);
  }

  lemma SelfIsFound(s: State, checkperm: bool)
    requires WellFormed(s) && IsEnv(s.cur)
    ensures Envid2Env(s, 0, checkperm) == s.cur
  {}

  lemma GoneIsNotFound(s: State, x: int, checkperm: bool)
    requires WellFormed(s) && IsEnv(s.cur) && x != 0 && Gone(s, x)
    ensures Envid2Env(s, x, checkperm) == -E_BAD_ENV
  {
    assert IsEnv(x % NENV);
  }

  /** What is found is living, has that id, and with the check on is the caller or its child. */
  lemma FoundIsRight(s: State, x: int, checkperm: bool)
    requires Inv(s) && IsEnv(s.cur) && Envid2Env(s, x, checkperm) != -E_BAD_ENV
    ensures var e := Envid2Env(s, x, checkperm);
            IsEnv(e) && s.envs[e].status != FREE && (if x == 0 then e == s.cur else s.envs[e].id == x) &&
            (checkperm ==> e == s.cur || s.envs[e].parent == s.envs[s.cur].id)
    ensures x != 0 ==> !Gone(s, x)
  {}

  // ---------- schedule ----------

  lemma {:induction false} RemoveSplits(a: seq<Ix>, x: Ix, b: seq<Ix>)
    requires x !in a
    ensures Remove(a + [x] + b, x) == a + b
  {
    if a == [] {
      assert (a + [x] + b)[1..] == a + b;
    } else {
      RemoveSplits(a[1..], x, b);
      assert (a + [x] + b)[1..] == a[1..] + [x] + b;
      assert [a[0]] + (a[1..] + b) == a + b;
    }
  }

  /** Environment e has been given the processor, with a new slice. */
  ghost predicate Started(s: State, t: State, e: Ix) {
    WellFormed(s) && WellFormed(t) && t.cur == e && t.count == s.envs[e].pri - 1 && t.halted == s.halted &&
    t.envs[e] == s.envs[e].(runs := s.envs[e].runs + 1) && forall g: Ix :: g != e ==> t.envs[g] == s.envs[g]
  }

  /** A yield, or a slice that is used up: the caller goes to the end of the queue, and the first of the
      queue runs; that is another environment unless the caller is alone. */
  lemma YieldRunsAnother(s: State, yield_: bool, a: seq<Ix>, b: seq<Ix>)
    requires Inv(s) && CurRuns(s) && s.queue == a + [s.cur] + b && (yield_ || s.count == 0)
    ensures var t := Schedule(s, yield_);
            t.queue == a + b + [s.cur] && Started(s, t, (a + b + [s.cur])[0]) && (|s.queue| >= 2 ==> t.cur != s.cur)
  {
    hide IdInv, AsidInv, FreeInv, LocalInv, EnvOk;
    QueuePlaces(s.queue, a, s.cur, b);
    RemoveSplits(a, s.cur, b);
    hide Inv, Remove;
    assert Rotated(s) == a + b + [s.cur];
  }

  /** Around an element that stands in a queue once. */
  lemma QueuePlaces(q: seq<Ix>, a: seq<Ix>, x: Ix, b: seq<Ix>)
    requires NoDup(q) && q == a + [x] + b
    ensures x !in a && x !in b && (|q| >= 2 ==> (a + b + [x])[0] != x)
  {
    assert forall k :: 0 <= k < |a| ==> q[k] == a[k];
    assert forall k :: 0 <= k < |b| ==> q[|a| + 1 + k] == b[k];
    assert q[|a|] == x;
    if |q| >= 2 {
      assert (a + b + [x])[0] == if a != [] then a[0] else b[0];
    }
  }

  /** The running environment is in the queue, so that there always are such a and b. */
  lemma RunningIsQueued(s: State) returns (a: seq<Ix>, b: seq<Ix>)
    requires Inv(s) && CurRuns(s)
    ensures s.queue == a + [s.cur] + b
  {
    var k :| 0 <= k < |s.queue| && s.queue[k] == s.cur;
    a, b := s.queue[..k], s.queue[k + 1..];
  }

  /** Yielding never runs the caller again while another one is runnable. */
  lemma YieldGivesWay(s: State)
    requires Inv(s) && CurRuns(s) && |s.queue| >= 2
    ensures Schedule(s, true).cur != s.cur && CurRuns(Schedule(s, true))
  {
    var a, b := RunningIsQueued(s);
    YieldRunsAnother(s, true, a, b);
    ScheduleKeeps(s, true);
    assert (a + b + [s.cur])[0] in s.queue;
  }

  /** An interrupt inside of a slice: the same environment goes on, with one call less. */
  lemma SliceGoesOn(s: State)
    requires WellFormed(s) && CurRuns(s) && s.count != 0
    ensures var t := Schedule(s, false);
            t.cur == s.cur && t.count == s.count - 1 && t.queue == s.queue && t.halted == s.halted &&
            t.envs == s.envs[s.cur := s.envs[s.cur].(runs := s.envs[s.cur].runs + 1)]
  {}

  /** Without a running environment the first of the queue runs, or the kernel panics. */
  lemma NobodyWasRunning(s: State, yield_: bool)
    requires WellFormed(s) && !CurRuns(s)
    ensures var t := Schedule(s, yield_);
            t.queue == s.queue && if s.queue == [] then t.halted && t.envs == s.envs else Started(s, t, s.queue[0])
  {}

  // ---------- messages ----------

  predicate LegalVa(va: int) { 0x3F_E000 <= va < 0x7F40_0000 }

  /** A living environment of id x that does not wait for a message. */
  predicate LivesIdle(s: State, e: Ix, x: int)
    requires WellFormed(s)
  {
    s.envs[e].status != FREE && s.envs[e].id == x && !s.envs[e].recving
  }

  /** The result of each refused send, and nothing changes. */
  lemma RefusedSend(s: State, x: int, value: int, srcva: int, perm: int, found: bool, inserted: int)
    requires Inv(s) && IsEnv(s.cur)
    ensures srcva != 0 && !LegalVa(srcva) ==> AfterSend(s, x, value, srcva, perm, found, inserted) == (s, -E_INVAL)
    ensures (srcva == 0 || LegalVa(srcva)) && x != 0 && Gone(s, x) ==>
      AfterSend(s, x, value, srcva, perm, found, inserted) == (s, -E_BAD_ENV)
    ensures forall e: Ix :: (srcva == 0 || LegalVa(srcva)) && x != 0 && LivesIdle(s, e, x) ==>
      AfterSend(s, x, value, srcva, perm, found, inserted) == (s, -E_IPC_NOT_RECV)
  {
    if x != 0 && Gone(s, x) { GoneIsNotFound(s, x, false); }
    forall e: Ix | x != 0 && LivesIdle(s, e, x) ensures Envid2Env(s, x, false) == e {
      LivingIsFound(s, e, false);
    }
  }

  /** The message of a send to a waiting environment arrives, the environment runs again from the end of
      the queue, and nobody else changes; the page decides the result alone. */
  lemma AcceptedSend(s: State, e: Ix, value: int, srcva: int, perm: int, found: bool, inserted: int)
    requires Inv(s) && CurRuns(s) && s.envs[e].recving && s.envs[e].id != 0 && (srcva == 0 || LegalVa(srcva))
    ensures var (t, r) := AfterSend(s, s.envs[e].id, value, srcva, perm, found, inserted);
            r == if srcva == 0 then 0 else if !found then -E_INVAL else inserted
    ensures var t := AfterSend(s, s.envs[e].id, value, srcva, perm, found, inserted).0;
            WellFormed(t) && t.queue == s.queue + [e] && t.cur == s.cur && t.count == s.count && forall g: Ix :: g != e ==> t.envs[g] == s.envs[g]
    ensures var v := AfterSend(s, s.envs[e].id, value, srcva, perm, found, inserted).0.envs[e];
            v.value == value && v.from == s.envs[s.cur].id && !v.recving && v.status == RUNNABLE && v.dstva == s.envs[e].dstva
    ensures forall k: nat ::
      TestBit(AfterSend(s, s.envs[e].id, value, srcva, perm, found, inserted).0.envs[e].perm, k) <==>
        TestBit(perm, k) || k == 0 || k == 4 || (k == 1 && TestBit(perm, 2))
  {
    assert EnvOk(s.envs[e]);
    LivingIsFound(s, e, false);
    forall k: nat ensures TestBit(MsgPerm(perm), k) <==> TestBit(perm, k) || k == 0 || k == 4 || (k == 1 && TestBit(perm, 2)) {
      MessagePerm(perm, k);
    }
  }

  /** A message page is valid and user-accessible, and readable if it is writable. */
  lemma MessagePerm(perm: int, k: nat)
    ensures TestBit(MsgPerm(perm), k) <==> TestBit(perm, k) || k == 0 || k == 4 || (k == 1 && TestBit(perm, 2))
  {
    var p := if TestBit(perm, 2) then SetBit(perm, 1) else perm;
    SetBitIs(perm, 1, k);
    SetBitIs(p, 4, k);
    SetBitIs(SetBit(p, 4), 0, k);
  }

  /** The caller waits for a message, and the first of the other queued environments runs, if there is one. */
  ghost predicate Blocked(s: State, t: State, dstva: int, rest: seq<Ix>) {
    WellFormed(s) && WellFormed(t) && IsEnv(s.cur) && t.queue == rest && (rest == [] ==> t.halted) &&
    (rest != [] ==> t.cur == rest[0] && t.cur != s.cur) &&
    t.envs[s.cur] == s.envs[s.cur].(recving := true, dstva := dstva, status := NOT_RUNNABLE, phase := InRecv)
  }

  /** The caller of receive waits for a message and the first other environment of the queue runs. */
  lemma ReceiveBlocks(s: State, dstva: int, a: seq<Ix>, b: seq<Ix>)
    requires Inv(s) && CurRuns(s) && s.queue == a + [s.cur] + b
    ensures dstva != 0 && !LegalVa(dstva) ==> AfterRecv(s, dstva) == (s, -E_INVAL)
    ensures dstva == 0 || LegalVa(dstva) ==> AfterRecv(s, dstva).1 == 0 && Blocked(s, AfterRecv(s, dstva).0, dstva, a + b)
  {
    hide IdInv, AsidInv, FreeInv, LocalInv, EnvOk;
    QueuePlaces(s.queue, a, s.cur, b);
    RemoveSplits(a, s.cur, b);
    var m := WithEnv(s, s.cur, s.envs[s.cur].(recving := true, dstva := dstva, status := NOT_RUNNABLE, phase := InRecv))
             .(queue := a + b);
    NobodyWasRunning(m, true);
  }

  // ---------- life ----------

  /** Setting the status of an environment: it stops or becomes runnable, in the queue and out of it. */
  lemma StatusIsSet(s: State, e: Ix, status: int)
    requires Inv(s) && CurRuns(s) && s.envs[e].status != FREE && s.envs[e].id != 0
    requires e == s.cur || s.envs[e].parent == s.envs[s.cur].id
    ensures status != RUNNABLE && status != NOT_RUNNABLE ==> AfterSetStatus(s, s.envs[e].id, status) == (s, -E_INVAL)
    ensures status == RUNNABLE || status == NOT_RUNNABLE ==>
      var (t, r) := AfterSetStatus(s, s.envs[e].id, status);
      r == 0 && t.envs == s.envs[e := s.envs[e].(status := status)] && t == s.(envs := t.envs, queue := t.queue) &&
      (s.envs[e].status == status ==> t.queue == s.queue) &&
      (s.envs[e].status != status && status == RUNNABLE ==> t.queue == s.queue + [e]) &&
      (status == NOT_RUNNABLE ==> e !in t.queue && forall g: Ix :: g != e ==> (g in t.queue <==> g in s.queue))
  {
    LivingIsFound(s, e, true);
    RemoveIs(s.queue, e);
  }

  lemma StatusOfOthers(s: State, x: int, status: int)
    requires Inv(s) && CurRuns(s) && x != 0
    requires Gone(s, x) || exists e: Ix ::
      s.envs[e].id == x && s.envs[e].status != FREE && e != s.cur && s.envs[e].parent != s.envs[s.cur].id
    ensures AfterSetStatus(s, x, status) == (s, if status != RUNNABLE && status != NOT_RUNNABLE then -E_INVAL else -E_BAD_ENV)
  {
    if Gone(s, x) {
      GoneIsNotFound(s, x, true);
    } else {
      var e: Ix :| s.envs[e].id == x && s.envs[e].status != FREE && e != s.cur && s.envs[e].parent != s.envs[s.cur].id;
      LivingIsFound(s, e, true);
    }
  }

  /** The environment that env_alloc takes: the first free one. */
  lemma FirstFreeIsTaken(s: State, parent: int)
    requires Inv(s) && Alloc(s, parent).1 != -E_NO_FREE_ENV
    ensures s.free != []
    ensures var (t, e) := Alloc(s, parent);
            e == s.free[0] && t.free == s.free[1..] && t.queue == s.queue && t.cur == s.cur && t.count == s.count &&
            forall g: Ix :: g != e ==> t.envs[g] == s.envs[g]
    ensures var (t, e) := Alloc(s, parent);
            t.envs[e].parent == parent && t.envs[e].runs == 0 && t.envs[e].id == NewId(s.ids + 1, e) && t.ids == s.ids + 1 &&
            forall k :: AsidUsed(t.asids, k) <==> AsidUsed(s.asids, k) || k == t.envs[e].asid
  {
    hide QueueInv, LocalInv, IdInv, TestBit, SetBit, ClearBit, NewId;
    var a := FirstAsid(s.asids, 0);
    assert s.free != [] && a < NASID;
    forall k ensures AsidUsed(SetAsid(s.asids, a, true), k) <==> if k == a then true else AsidUsed(s.asids, k) {
      SetAsidIs(s.asids, a, true, k);
    }
  }

  /** A fork's child: not runnable and not queued, with the caller's priority, and the caller gets its id. */
  lemma ChildIsMade(s: State)
    requires Inv(s) && CurRuns(s)
    ensures var (t, r) := AfterExofork(s);
            if Alloc(s, s.envs[s.cur].id).1 == -E_NO_FREE_ENV then r == -E_NO_FREE_ENV && t == Alloc(s, s.envs[s.cur].id).0
            else
              s.free != [] && var e := s.free[0];
              r == t.envs[e].id == NewId(s.ids + 1, e) && t.envs[e].status == NOT_RUNNABLE && t.envs[e].pri == s.envs[s.cur].pri &&
              t.envs[e].parent == s.envs[s.cur].id && t.queue == s.queue && t.cur == s.cur && t.free == s.free[1..] &&
              forall g: Ix :: g != e ==> t.envs[g] == s.envs[g]
  {
    var parent := s.envs[s.cur].id;
    if Alloc(s, parent).1 != -E_NO_FREE_ENV {
      FirstFreeIsTaken(s, parent);
      assert s.free[0] in s.free;
    }
    hide Alloc, IdInv, AsidInv, QueueInv, LocalInv;
  }

  /** An environment of the start: runnable, first in the queue, without a parent. */
  lemma FirstProgram(s: State, pri: int)
    requires Inv(s) && Enabled(s, Create(pri))
    ensures var t := AfterCreate(s, pri);
            if Alloc(s, 0).1 == -E_NO_FREE_ENV then t.halted
            else
              s.free != [] && var e := s.free[0];
              t.queue == [e] + s.queue && t.envs[e].status == RUNNABLE && t.envs[e].pri == pri && t.envs[e].parent == 0 &&
              t.cur == s.cur && t.free == s.free[1..] && forall g: Ix :: g != e ==> t.envs[g] == s.envs[g]
  {
    if Alloc(s, 0).1 != -E_NO_FREE_ENV { FirstFreeIsTaken(s, 0); }
    hide Alloc, IdInv, AsidInv, QueueInv, LocalInv;
  }

  /** Destroying a child: it is free and out of the queue, its ASID is unused, and the caller goes on. */
  lemma ChildIsDestroyed(s: State, e: Ix)
    requires Inv(s) && CurRuns(s) && s.envs[e].status == RUNNABLE && s.envs[e].id != 0
    requires e != s.cur && s.envs[e].parent == s.envs[s.cur].id && 0 <= s.envs[e].asid < NASID
    ensures var (t, r) := AfterDestroy(s, s.envs[e].id);
            r == 0 && t.envs == s.envs[e := s.envs[e].(status := FREE)] && t.free == [e] + s.free && t.cur == s.cur &&
            t.count == s.count && e !in t.queue && (forall g: Ix :: g != e ==> (g in t.queue <==> g in s.queue)) &&
            forall k :: AsidUsed(t.asids, k) <==> AsidUsed(s.asids, k) && k != s.envs[e].asid
  {
    LivingIsFound(s, e, true);
    RemoveIs(s.queue, e);
    hide Inv, TestBit, SetBit, ClearBit, SetAsid;
    forall k ensures AsidUsed(SetAsid(s.asids, s.envs[e].asid, false), k) <==> AsidUsed(s.asids, k) && k != s.envs[e].asid {
      SetAsidIs(s.asids, s.envs[e].asid, false, k);
    }
  }

  /** Destroying itself: the first other environment of the queue runs. */
  lemma SelfIsDestroyed(s: State, x: int, a: seq<Ix>, b: seq<Ix>)
    requires Inv(s) && CurRuns(s) && s.queue == a + [s.cur] + b && (x == 0 || x == s.envs[s.cur].id)
    requires 0 <= s.envs[s.cur].asid < NASID
    ensures var (t, r) := AfterDestroy(s, x);
            r == 0 && t.envs[s.cur].status == FREE && t.free == [s.cur] + s.free && t.queue == a + b &&
            (a + b == [] ==> t.halted) && (a + b != [] ==> t.cur == (a + b)[0] && t.cur != s.cur)
  {
    hide IdInv, AsidInv, FreeInv;
    if x == 0 { SelfIsFound(s, true); } else { LivingIsFound(s, s.cur, true); }
    QueuePlaces(s.queue, a, s.cur, b);
    RemoveSplits(a, s.cur, b);
    hide Inv, TestBit, SetBit, ClearBit, SetAsid;
    NobodyWasRunning(FreeEnv(s, s.cur).(cur := -1), true);
  }
}
