/** Bounded waiting: how many calls of `schedule` a queued environment waits at most, over any run. */
module SchedWait {
  import opened Counting
  import opened Words
  import opened SchedModel
  import opened SchedProof
  import opened SchedRuns

  /** The sum of the priorities of the environments before e in the queue, without `cur`. */
  ghost function Ahead(envs: seq<Env>, q: seq<Ix>, e: Ix, cur: int): int
    requires |envs| == NENV
  {
    if q == [] || q[0] == e then 0
    else (if q[0] == cur then 0 else envs[q[0]].pri) + Ahead(envs, q[1..], e, cur)
  }

  /** The current slice, the slices of those ahead, and one. */
  ghost function Bound(s: State, e: Ix): int
    requires WellFormed(s)
  {
    (if CurRuns(s) then s.count else 0) + Ahead(s.envs, s.queue, e, s.cur) + 1
  }

  ghost predicate PriOk(envs: seq<Env>, q: seq<Ix>)
    requires |envs| == NENV
  {
    forall x :: x in q ==> envs[x].pri >= 1
  }

  lemma {:induction false} AheadNotNegative(envs: seq<Env>, q: seq<Ix>, e: Ix, cur: int)
    requires |envs| == NENV && PriOk(envs, q)
    ensures Ahead(envs, q, e, cur) >= 0
  {
    if q != [] && q[0] != e { AheadNotNegative(envs, q[1..], e, cur); }
  }

  lemma {:induction false} AheadAppend(envs: seq<Env>, q: seq<Ix>, e: Ix, cur: int, x: Ix)
    requires |envs| == NENV && e in q
    ensures Ahead(envs, q + [x], e, cur) == Ahead(envs, q, e, cur)
  {
    if q[0] != e {
      assert (q + [x])[1..] == q[1..] + [x];
      AheadAppend(envs, q[1..], e, cur, x);
    }
  }

  lemma {:induction false} AheadSame(envs: seq<Env>, fs: seq<Env>, q: seq<Ix>, e: Ix, cur: int)
    requires |envs| == NENV == |fs| && forall x :: x in q ==> envs[x].pri == fs[x].pri
    ensures Ahead(fs, q, e, cur) == Ahead(envs, q, e, cur)
  {
    if q != [] && q[0] != e { AheadSame(envs, fs, q[1..], e, cur); }
  }

  /** Removing another environment lowers the sum by its priority, if it was ahead. */
  lemma {:induction false} AheadRemove(envs: seq<Env>, q: seq<Ix>, e: Ix, cur: int, x: int)
    requires |envs| == NENV && e in q && x != e && PriOk(envs, q)
    ensures Ahead(envs, Remove(q, x), e, cur) <= Ahead(envs, q, e, cur) && e in Remove(q, x)
  {
    if q[0] == e {
    } else if q[0] == x {
    } else {
      AheadRemove(envs, q[1..], e, cur, x);
      assert Remove(q, x)[1..] == Remove(q[1..], x);
    }
  }

  /** Taking the current environment out changes nothing, as it does not count. */
  lemma {:induction false} AheadWithoutCur(envs: seq<Env>, q: seq<Ix>, e: Ix, cur: int)
    requires |envs| == NENV && e in q && cur != e && NoDup(q)
    ensures Ahead(envs, Remove(q, cur), e, -1) == Ahead(envs, q, e, cur) && e in Remove(q, cur)
  {
    assert q == [q[0]] + q[1..];
    if q[0] == e {
    } else if q[0] == cur {
      assert cur !in q[1..];
      AheadNoCur(envs, q[1..], e, cur);
    } else {
      assert NoDup(q[1..]);
      AheadWithoutCur(envs, q[1..], e, cur);
      assert Remove(q, cur)[1..] == Remove(q[1..], cur);
    }
  }

  lemma {:induction false} AheadNoCur(envs: seq<Env>, q: seq<Ix>, e: Ix, cur: int)
    requires |envs| == NENV && cur !in q
    ensures Ahead(envs, q, e, -1) == Ahead(envs, q, e, cur)
  {
    if q != [] && q[0] != e { AheadNoCur(envs, q[1..], e, cur); }
  }

  lemma QueuePri(s: State)
    requires Inv(s)
    ensures PriOk(s.envs, s.queue)
  {
    forall x | x in s.queue ensures s.envs[x].pri >= 1 { assert EnvOk(s.envs[x]); }
  }

  /** One call of schedule runs e, or brings it nearer by one. */
  lemma ScheduleBringsNearer(s: State, yield_: bool, e: Ix)
    requires Inv(s) && e in s.queue && s.cur != e
    ensures var t := Schedule(s, yield_);
            WellFormed(t) && !(t.halted && !s.halted) && e in t.queue && (t.cur == e || Bound(t, e) <= Bound(s, e) - 1)
  {
    var t := Schedule(s, yield_);
    hide IdInv, AsidInv, FreeInv, Bound;
    ScheduleKeeps(s, yield_);
    QueuePri(s);
    if Switches(s, yield_) {
      RotatedIs(s);
      RotatedAhead(s, e);
      var q := Rotated(s);
      AheadSame(s.envs, t.envs, q, e, t.cur);
      if t.cur != e {
        assert q == [q[0]] + q[1..];
        AheadNoCur(s.envs, q[1..], e, q[0]);
        BoundIs(s, e);
        BoundIs(t, e);
      }
    } else {
      AheadSame(s.envs, t.envs, s.queue, e, s.cur);
      BoundIs(s, e);
      BoundIs(t, e);
    }
  }

  lemma BoundIs(s: State, e: Ix)
    requires Inv(s)
    ensures Bound(s, e) == (if CurRuns(s) then s.count else 0) + Ahead(s.envs, s.queue, e, s.cur) + 1
    ensures Bound(s, e) >= Ahead(s.envs, s.queue, e, s.cur) + 1
  {}

  lemma RotatedAhead(s: State, e: Ix)
    requires Inv(s) && e in s.queue && s.cur != e
    ensures Ahead(s.envs, Rotated(s), e, -1) == Ahead(s.envs, s.queue, e, s.cur)
  {
    if CurRuns(s) {
      AheadWithoutCur(s.envs, s.queue, e, s.cur);
      AheadAppend(s.envs, Remove(s.queue, s.cur), e, -1, s.cur);
    } else {
      AheadNoCur(s.envs, s.queue, e, s.cur);
    }
  }

  /** A call that does not schedule and does not touch e's place. */
  ghost predicate Mild(s: State, t: State, e: Ix) {
    WellFormed(s) && WellFormed(t) && t.count == s.count && (CurRuns(t) ==> CurRuns(s) && t.cur == s.cur) &&
    (forall x :: x in t.queue ==> t.envs[x].pri == s.envs[x].pri) &&
    (t.queue == s.queue || (exists x: Ix :: t.queue == s.queue + [x]) || (exists x: Ix :: x != e && t.queue == Remove(s.queue, x)))
  }

  lemma MildIsNoFurther(s: State, t: State, e: Ix)
    requires Inv(s) && Inv(t) && Mild(s, t, e) && e in s.queue && (t.cur == s.cur || (t.cur == -1 && s.cur !in t.queue))
    ensures e in t.queue && Bound(t, e) <= Bound(s, e)
  {
    hide IdInv, AsidInv, FreeInv;
    QueuePri(s);
    if x: Ix :| t.queue == s.queue + [x] {
      AheadAppend(s.envs, s.queue, e, s.cur, x);
    } else if x: Ix :| x != e && t.queue == Remove(s.queue, x) {
      AheadRemove(s.envs, s.queue, e, s.cur, x);
    }
    AheadSame(s.envs, t.envs, t.queue, e, t.cur);
    if t.cur == -1 { AheadNoCur(s.envs, t.queue, e, s.cur); }
  }

  /** The call ends in `schedule`. */
  ghost predicate Schedules(s: State, a: Action)
    requires Enabled(s, a)
  {
    match a
    case Tick(_) => true
    case Recv(dstva) => !(dstva != 0 && IllegalVa(dstva))
    case Destroy(envid) => Envid2Env(s, envid, true) == s.cur
    case _ => false
  }

  lemma WaitStep(s: State, a: Action, e: Ix)
    requires Inv(s) && Enabled(s, a) && !a.Create? && e in s.queue && s.cur != e && e in After(s, a).queue
    ensures var t := After(s, a);
            if Schedules(s, a) then t.cur == e || Bound(t, e) <= Bound(s, e) - 1
            else t.cur == s.cur && Bound(t, e) <= Bound(s, e)
  {
    StepKeeps(s, a);
    if a.Tick? {
      ScheduleBringsNearer(s, a.yield_, e);
    } else if a.Recv? {
      if Schedules(s, a) { RecvBringsNearer(s, a.dstva, e); }
    } else if a.Destroy? {
      DestroyBringsNearer(s, a.envid, e);
    } else {
      OthersAreMild(s, a, e);
      MildIsNoFurther(s, After(s, a), e);
    }
  }

  lemma OthersAreMild(s: State, a: Action, e: Ix)
    requires Inv(s) && Enabled(s, a) && e in s.queue && s.cur != e && e in After(s, a).queue
    requires a.TrySend? || a.SetStatus? || a.Exofork? || a.Observe?
    ensures Mild(s, After(s, a), e) && After(s, a).cur == s.cur
  {
    hide IdInv, AsidInv, SetBit, ClearBit, TestBit, FirstAsid, NewId, MsgPerm, LocalInv;
    if a.Exofork? && s.free != [] {
      assert s.free[0] in s.free;
    }
    if a.SetStatus? {
      RemoveIs(s.queue, Envid2Env(s, a.envid, true));
    }
  }

  lemma RecvBringsNearer(s: State, dstva: int, e: Ix)
    requires Inv(s) && Enabled(s, Recv(dstva)) && e in s.queue && s.cur != e && !(dstva != 0 && IllegalVa(dstva))
    ensures var t := AfterRecv(s, dstva).0; WellFormed(t) && (t.cur == e || Bound(t, e) <= Bound(s, e) - 1)
  {
    var c := s.cur;
    var m := WithEnv(s, c, s.envs[c].(recving := true, dstva := dstva, status := NOT_RUNNABLE, phase := InRecv))
             .(queue := Remove(s.queue, c));
    BlockedKeeps(s, dstva);
    RemoveIs(s.queue, c);
    assert Mild(s, m, e) by { hide IdInv, AsidInv, LocalInv; }
    MildIsNoFurther(s, m, e);
    ScheduleBringsNearer(m, true, e);
  }

  lemma DestroyBringsNearer(s: State, envid: int, e: Ix)
    requires Inv(s) && Enabled(s, Destroy(envid)) && e in s.queue && s.cur != e && e in AfterDestroy(s, envid).0.queue
    ensures WellFormed(AfterDestroy(s, envid).0)
    ensures var t := AfterDestroy(s, envid).0;
      if Envid2Env(s, envid, true) == s.cur then t.cur == e || Bound(t, e) <= Bound(s, e) - 1
      else t.cur == s.cur && Bound(t, e) <= Bound(s, e)
  {
    var g := Envid2Env(s, envid, true);
    if g >= 0 {
      FreeKeeps(s, g);
      RemoveIs(s.queue, g);
      var m := FreeEnv(s, g);
      var m1 := if g == s.cur then m.(cur := -1) else m;
      FreeIsMild(s, g, e);
      if g == s.cur {
        MildIsNoFurther(s, m1, e);
        ScheduleBringsNearer(m1, true, e);
      } else {
        assert e in m.queue;
        MildIsNoFurther(s, m, e);
      }
    }
  }

  lemma FreeIsMild(s: State, g: Ix, e: Ix)
    requires Inv(s) && 0 <= s.envs[g].asid < NASID && e in s.queue && (g == s.cur ==> s.cur != e)
    requires s.envs[g].status == RUNNABLE && (g != s.cur ==> e in FreeEnv(s, g).queue)
    ensures Mild(s, if g == s.cur then FreeEnv(s, g).(cur := -1) else FreeEnv(s, g), e)
  {
    hide IdInv, AsidInv, LocalInv, SetBit, ClearBit, TestBit;
    RemoveIs(s.queue, g);
    var t := if g == s.cur then FreeEnv(s, g).(cur := -1) else FreeEnv(s, g);
    assert g != e && t.queue == Remove(s.queue, g);
  }

  ghost function Calls(states: seq<State>, actions: seq<Action>): nat
    requires IsRun(states, actions)
  {
    if actions == [] then 0
    else
      var n := |actions| - 1;
      RunPrefix(states, actions);
      Calls(states[..n + 1], actions[..n]) + if Schedules(states[n], actions[n]) then 1 else 0
  }

  /** Bounded waiting: in a run after start-up in which e stays in the run queue and is not run, schedule
      is called fewer than Bound times; so e is run within that many calls. */
  lemma {:induction false} BoundedWaiting(states: seq<State>, actions: seq<Action>, e: Ix)
    requires IsRun(states, actions) && forall k :: 0 <= k < |actions| ==> !actions[k].Create?
    requires forall k :: 0 <= k < |states| ==> e in states[k].queue && states[k].cur != e
    ensures WellFormed(states[0]) && Calls(states, actions) < Bound(states[0], e)
    ensures Inv(states[|actions|]) && Bound(states[|actions|], e) + Calls(states, actions) <= Bound(states[0], e)
    decreases |actions|
  {
    hide After, Enabled, Schedules, Bound, QueueInv, FreeInv, IdInv, AsidInv, LocalInv;
    var n := |actions|;
    RunKeeps(states, actions, n);
    if n > 0 {
      RunPrefix(states, actions);
      BoundedWaiting(states[..n], actions[..n - 1], e);
      RunKeeps(states, actions, n - 1);
      assert states[n] == After(states[n - 1], actions[n - 1]);
      WaitStep(states[n - 1], actions[n - 1], e);
    }
    BoundPositive(states[n], e);
  }

  lemma BoundPositive(s: State, e: Ix)
    requires Inv(s)
    ensures Bound(s, e) >= 1
  {
    QueuePri(s);
    AheadNotNegative(s.envs, s.queue, e, s.cur);
  }

  lemma {:induction false} AheadAtMost(envs: seq<Env>, q: seq<Ix>, e: Ix, cur: int, i: nat, p: nat)
    requires |envs| == NENV && i < |q| && q[i] == e && forall x :: x in q ==> envs[x].pri <= p
    ensures Ahead(envs, q, e, cur) <= p * i
  {
    if q[0] != e {
      AheadAtMost(envs, q[1..], e, cur, i - 1, p);
      assert p * i == p * (i - 1) + p;
    }
  }

  /** Every timer interrupt and every yield is a call of schedule. */
  lemma {:induction false} TicksAreCalls(states: seq<State>, actions: seq<Action>)
    requires IsRun(states, actions) && forall k :: 0 <= k < |actions| ==> actions[k].Tick?
    ensures Calls(states, actions) == |actions|
    decreases |actions|
  {
    hide After, Inv;
    if actions != [] {
      RunPrefix(states, actions);
      TicksAreCalls(states[..|actions|], actions[..|actions| - 1]);
    }
  }

  /** In numbers: behind i others, none with more than p slices to go, an environment that stays queued is
      run within p * (i + 1) calls of schedule; in a run of interrupts and yields these are all its steps. */
  lemma WaitsAtMost(states: seq<State>, actions: seq<Action>, e: Ix, i: nat, p: nat)
    requires IsRun(states, actions) && forall k :: 0 <= k < |actions| ==> !actions[k].Create?
    requires forall k :: 0 <= k < |states| ==> e in states[k].queue && states[k].cur != e
    requires i < |states[0].queue| && states[0].queue[i] == e && states[0].count <= p
    requires forall x :: x in states[0].queue ==> x < |states[0].envs| && states[0].envs[x].pri <= p
    ensures Calls(states, actions) <= p * (i + 1)
    ensures (forall k :: 0 <= k < |actions| ==> actions[k].Tick?) ==> |actions| <= p * (i + 1)
  {
    hide After, QueueInv, FreeInv, IdInv, AsidInv, LocalInv;
    BoundedWaiting(states, actions, e);
    var s := states[0];
    AheadAtMost(s.envs, s.queue, e, s.cur, i, p);
    assert p * (i + 1) == p * i + p;
    if forall k :: 0 <= k < |actions| ==> actions[k].Tick? { TicksAreCalls(states, actions); }
  }

  // ---------- why priorities are at least one ----------

  /** n timer interrupts. */
  ghost function Ticks(s: State, n: nat): State
    requires WellFormed(s)
    ensures WellFormed(Ticks(s, n))
  {
    if n == 0 then s else Schedule(Ticks(s, n - 1), false)
  }

  /** A slice of length `count` ends after so many interrupts if and only if the count is not negative;
      a priority of zero gives the count -1. */
  lemma {:induction false} SliceLasts(s: State, n: nat)
    requires WellFormed(s) && CurRuns(s) && (s.count < 0 || n <= s.count)
    ensures var t := Ticks(s, n); t.cur == s.cur && CurRuns(t) && t.count == s.count - n && t.queue == s.queue
  {
    if n > 0 { SliceLasts(s, n - 1); }
  }

  lemma PriorityZeroStarves(s: State, n: nat)
    requires WellFormed(s) && Switches(s, false) && Rotated(s) != [] && s.envs[Rotated(s)[0]].status == RUNNABLE
    requires s.envs[Rotated(s)[0]].pri == 0
    ensures Ticks(Schedule(s, false), n).cur == Rotated(s)[0]
  {
    SliceLasts(Schedule(s, false), n);
  }

  /** With a priority of at least one the slice is over after exactly that many calls. */
  lemma PositivePriorityEnds(s: State)
    requires WellFormed(s) && Switches(s, false) && Rotated(s) != [] && s.envs[Rotated(s)[0]].status == RUNNABLE
    requires s.envs[Rotated(s)[0]].pri >= 1
    ensures var t := Schedule(s, false); var p := s.envs[Rotated(s)[0]].pri;
            forall n: nat :: n < p ==> Ticks(t, n).cur == t.cur && (Switches(Ticks(t, n), false) <==> n == p - 1)
  {
    var t, p := Schedule(s, false), s.envs[Rotated(s)[0]].pri;
    forall n: nat | n < p ensures Ticks(t, n).cur == t.cur && (Switches(Ticks(t, n), false) <==> n == p - 1) {
      SliceLasts(t, n);
    }
  }
}
