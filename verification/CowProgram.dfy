/** fork.c itself, as a program over the system calls: each of its calls is a run of the transition system,
    and the whole fork is one copy of the address space. */
module CowProgram {
  import opened CowModel
  import opened CowProof
  import opened CowFork

  /** The address spaces and frames that the system calls of fork.c work on. The control-point fields
      of an env (fork, cow, shown) are bookkeeping for the runs. */
  class Machine {
    var envs: map<int, Env>
    var mem: map<int, Page>

    constructor (es: map<int, Env>, frames: map<int, Page>)
      ensures envs == es && mem == frames
    {
      envs, mem := es, frames;
    }

    ghost function View(): State
      reads this
    {
      State(envs, mem)
    }

    /** `syscall_mem_map`, with the checks of its callers. */
    method MemMap(src: int, sv: int, dst: int, dv: int, perm: Perm)
      requires Maps(View(), src, sv) && dst in envs
      modifies `envs
      ensures envs == old(envs)[dst := MapPage(old(envs)[dst], dv, old(Entry(View(), src, sv)).frame, perm)]
    {
      var pp := envs[src].space[sv].frame;
      envs := envs[dst := MapPage(envs[dst], dv, pp, perm)];
    }

    /** The loop counter moves on; the child's pages below it are complete. */
    method PageDone(e: int, c: int, i: int)
      requires e in envs && c in envs && c != e && !envs[e].fork.NoFork? && envs[e].fork.child == c && envs[e].fork.i == i
      modifies `envs
      ensures View() == NextPage(old(View()), e)
    {
      envs := envs[c := WithShown(envs[c], i + 1)];
      envs := envs[e := WithFork(envs[e], Scan(c, i + 1))];
    }

    /** `perm = vpt[vpn] & 0x3FF` */
    method ReadVpt(e: int, c: int, vpn: int) returns (perm: Perm)
      requires Enabled(View(), DupLook(e)) && envs[e].fork == Scan(c, vpn)
      modifies `envs
      ensures View() == After(old(View()), DupLook(e)) && perm == old(envs)[e].space[vpn].perm
      ensures e in envs && envs[e].fork == Looked(c, vpn, perm)
    {
      perm := envs[e].space[vpn].perm;
      envs := envs[e := WithFork(envs[e], Looked(c, vpn, perm))];
    }

    /** The map call that gives the page to the child. */
    method MapInChild(e: int, c: int, vpn: int, perm: Perm)
      requires Enabled(View(), DupChild(e)) && envs[e].fork.child == c && envs[e].fork.i == vpn
      requires perm == if NeedsCow(envs[e].fork.perm) then CowPerm(envs[e].fork.perm) else envs[e].fork.perm
      modifies `envs
      ensures View() == After(old(View()), DupChild(e))
      ensures e in envs && envs[e].fork ==
        if old(NeedsCow(envs[e].fork.perm)) then ChildDone(c, vpn, perm) else Scan(c, vpn + 1)
      ensures envs[e].runnable && envs[e].cow.Idle?
    {
      var cow := NeedsCow(envs[e].fork.perm);
      MemMap(e, vpn, c, vpn, perm);
      if cow {
        envs := envs[e := WithFork(envs[e], ChildDone(c, vpn, perm))];
      } else {
        PageDone(e, c, vpn);
      }
    }

    /** The map call that takes the write permission from the parent. */
    method MapInParent(e: int, c: int, vpn: int, perm: Perm)
      requires Enabled(View(), DupParent(e)) && envs[e].fork == ChildDone(c, vpn, perm)
      modifies `envs
      ensures View() == After(old(View()), DupParent(e))
      ensures e in envs && envs[e].fork == Scan(c, vpn + 1) && envs[e].runnable && envs[e].cow.Idle?
    {
      MemMap(e, vpn, e, vpn, perm);
      PageDone(e, c, vpn);
    }

    /** `duppage`: hand page `vpn` of env `e` to the child `c`. */
    method DupPage(e: int, c: int, vpn: int) returns (ghost acts: seq<Action>)
      requires Inv(View()) && Running(View(), e) && envs[e].cow.Idle? && envs[e].fork == Scan(c, vpn)
      requires vpn < USTACK_PN && vpn in envs[e].space
      modifies `envs
      ensures Runs(old(View()), acts, View()) && ForkActions(acts, e) && Inv(View())
      ensures Running(View(), e) && envs[e].cow.Idle? && envs[e].fork == Scan(c, vpn + 1)
    {
      hide Inv, Runs;
      ghost var s0 := View();
      assert Enabled(s0, DupLook(e));
      hide Enabled, After;
      var perm := ReadVpt(e, c, vpn);
      ghost var s1 := View();
      DupLookReady(s0, s1, e);
      acts := [DupLook(e)];
      if NeedsCow(perm) {
        perm := CowPerm(perm);
        MapInChild(e, c, vpn, perm);
        DupCowReady(s1, View(), e);
        acts := acts + [DupChild(e)];
        ghost var s2 := View();
        MapInParent(e, c, vpn, perm);
        ghost var s3 := View();
        KeepsInv(s2, DupParent(e));
        Runs3(s0, DupLook(e), s1, DupChild(e), s2, DupParent(e), s3);
        acts := acts + [DupParent(e)];
      } else {
        MapInChild(e, c, vpn, perm);
        KeepsInv(s1, DupChild(e));
        acts := acts + [DupChild(e)];
        Runs2(s0, DupLook(e), s1, DupChild(e), View());
      }
    }

    /** The page is not mapped: the loop passes it by. */
    method SkipPage(e: int, c: int, vpn: int)
      requires Enabled(View(), ForkSkip(e)) && envs[e].fork == Scan(c, vpn) && c != e
      modifies `envs
      ensures View() == After(old(View()), ForkSkip(e))
      ensures e in envs && envs[e].fork == Scan(c, vpn + 1) && envs[e].runnable && envs[e].cow.Idle?
    {
      PageDone(e, c, vpn);
    }

    /** `syscall_exofork`, which picks the free slot `c`. */
    method Exofork(e: int, c: int)
      requires Enabled(View(), ForkStart(e, c))
      modifies `envs
      ensures View() == After(old(View()), ForkStart(e, c))
      ensures e in envs && envs[e].fork == Scan(c, 0) && envs[e].runnable && envs[e].cow.Idle?
    {
      envs := envs[c := Env(map[], false, 0, NoFork, Idle)];
      envs := envs[e := WithFork(envs[e], Scan(c, 0))];
    }

    /** `syscall_set_env_status(child, ENV_RUNNABLE)` */
    method SetRunnable(e: int, c: int)
      requires Enabled(View(), ForkEnd(e)) && envs[e].fork.child == c
      modifies `envs
      ensures View() == After(old(View()), ForkEnd(e))
    {
      envs := envs[c := Env(envs[c].space, true, UTOP_PN, envs[c].fork, envs[c].cow)];
      envs := envs[e := WithFork(envs[e], NoFork)];
    }

    /** `fork`, when nobody interferes: the child sees exactly what the parent sees below USTACKTOP,
        and nothing changes for anybody else. */
    method Fork(e: int, c: int) returns (ghost acts: seq<Action>)
      requires Inv(View()) && Enabled(View(), ForkStart(e, c))
      modifies `envs
      ensures Inv(View()) && Runs(old(View()), [ForkStart(e, c)] + acts + [ForkEnd(e)], View())
      ensures e in old(envs) && c in envs && envs[c].runnable
      ensures Abs(View()).spaces == Abs(old(View())).spaces[c := BelowStackTop(Abs(old(View())).spaces[e])]
      ensures Abs(View()).live == Abs(old(View())).live + {c}
    {
      hide Inv, Runs, After, Abs;
      ghost var s := View();
      Exofork(e, c);
      ghost var s1 := View();
      KeepsInv(s, ForkStart(e, c));
      acts := [];
      assert Runs(s1, acts, s1) by { RunsEmpty(s1); }
      hide Enabled;
      var i := 0;
      while i < USTACK_PN
        invariant 0 <= i <= USTACK_PN
        invariant Runs(s1, acts, View()) && ForkActions(acts, e) && Inv(View())
        invariant Running(View(), e) && envs[e].cow.Idle? && envs[e].fork == Scan(c, i)
      {
        ghost var t := View();
        ghost var more: seq<Action>;
        if i in envs[e].space {
          more := DupPage(e, c, i);
        } else {
          CanSkip(t, e);
          SkipPage(e, c, i);
          KeepsInv(t, ForkSkip(e));
          more := [ForkSkip(e)];
          RunsOne(t, ForkSkip(e));
        }
        RunsCompose(s1, acts, t, more, View());
        acts := acts + more;
        i := i + 1;
      }
      ghost var t := View();
      CanEnd(t, e);
      SetRunnable(e, c);
      KeepsInv(t, ForkEnd(e));
      WholeRun(s, e, c, acts, t);
      ForkDone(s, e, c, acts, t, View());
    }

    /** A zero page in frame `f`, as passive_alloc maps it on a fault. */
    method FillPage(e: int, v: int, perm: Perm, f: int)
      requires Enabled(View(), Alloc(e, v, perm, f))
      modifies `envs, `mem
      ensures View() == After(old(View()), Alloc(e, v, perm, f))
    {
      mem := mem[f := ZeroPage()];
      envs := envs[e := MapPage(envs[e], v, f, perm)];
    }

    /** `perm = vpt[VPN(va)] & 0x3FF`, then COW off and W on. */
    method SavePerm(e: int, v: int) returns (perm: Perm)
      requires Enabled(View(), CowFault(e, v))
      modifies `envs
      ensures View() == After(old(View()), CowFault(e, v))
      ensures perm == old(envs)[e].space[v].perm.(cow := false, w := true)
    {
      perm := envs[e].space[v].perm;
      assert perm.cow;  // otherwise: user panic
      perm := perm.(cow := false, w := true);
      envs := envs[e := WithCow(envs[e], Saved(v, InsertPerm(perm)))];
    }

    /** `syscall_mem_alloc(0, UCOW, perm)`, which finds frame `f`. */
    method AllocWorkPage(e: int, v: int, perm: Perm, f: int)
      requires Enabled(View(), CowAlloc(e, f)) && envs[e].cow == Saved(v, InsertPerm(perm))
      modifies `envs, `mem
      ensures View() == After(old(View()), CowAlloc(e, f))
    {
      mem := mem[f := ZeroPage()];
      envs := envs[e := MapPage(envs[e], UCOW_PN, f, perm)];
      envs := envs[e := WithCow(envs[e], Allocated(v, InsertPerm(perm)))];
    }

    /** `memcpy` of the whole faulting page. */
    method CopyToWorkPage(e: int, v: int)
      requires Enabled(View(), CowCopy(e)) && envs[e].cow.v == v
      modifies `envs, `mem
      ensures View() == After(old(View()), CowCopy(e))
    {
      mem := mem[envs[e].space[UCOW_PN].frame := mem[envs[e].space[v].frame]];
      envs := envs[e := WithCow(envs[e], Copied(v, envs[e].cow.perm))];
    }

    /** `syscall_mem_map(0, UCOW, 0, va, perm)` */
    method MapWorkPage(e: int, v: int, perm: Perm)
      requires Enabled(View(), CowMap(e)) && envs[e].cow == Copied(v, InsertPerm(perm))
      modifies `envs
      ensures View() == After(old(View()), CowMap(e))
    {
      MemMap(e, UCOW_PN, e, v, perm);
      envs := envs[e := WithCow(envs[e], Remapped(v))];
    }

    /** `syscall_mem_unmap(0, UCOW)` */
    method DropWorkPage(e: int)
      requires Enabled(View(), CowUnmap(e))
      modifies `envs
      ensures View() == After(old(View()), CowUnmap(e))
    {
      envs := envs[e := UnmapPage(envs[e], UCOW_PN)];
      envs := envs[e := WithCow(envs[e], Idle)];
    }

    /** `cow_entry`: the faulting page becomes a private writable page with the same contents, and no
        env can tell the difference. */
    method CowEntry(e: int, v: int, f: int) returns (ghost acts: seq<Action>)
      requires Inv(View()) && Enabled(View(), CowFault(e, v)) && Unused(View(), f)
      modifies `envs, `mem
      ensures acts == [CowFault(e, v), CowAlloc(e, f), CowCopy(e), CowMap(e), CowUnmap(e)]
      ensures Inv(View()) && Runs(old(View()), acts, View()) && Abs(View()) == Abs(old(View()))
      ensures Maps(View(), e, v) && Entry(View(), e, v) == Pte(f, OwnPerm(old(Entry(View(), e, v)).perm))
      ensures UserCode(View(), e, v) && UCOW_PN !in envs[e].space
    {
      hide Inv, Runs, Abs, Enabled, After;
      ghost var s0 := View();
      HandlerStart(s0, e, v);
      var perm := SavePerm(e, v);
      ghost var s1 := View();
      HandlerSaved(s0, s1, e, v, f);
      AllocWorkPage(e, v, perm, f);
      ghost var s2 := View();
      HandlerAllocated(s1, s2, e, v, f);
      CopyToWorkPage(e, v);
      ghost var s3 := View();
      HandlerCopied(s2, s3, e, v);
      MapWorkPage(e, v, perm);
      ghost var s4 := View();
      HandlerMapped(s3, s4, e, v);
      DropWorkPage(e);
      HandlerDone(s4, View(), e, v);
      acts := [CowFault(e, v), CowAlloc(e, f), CowCopy(e), CowMap(e), CowUnmap(e)];
      Runs3(s2, CowCopy(e), s3, CowMap(e), s4, CowUnmap(e), View());
      Runs2(s0, CowFault(e, v), s1, CowAlloc(e, f), s2);
      RunsCompose(s0, [CowFault(e, v)] + [CowAlloc(e, f)], s2, [CowCopy(e)] + [CowMap(e)] + [CowUnmap(e)], View());
      assert acts == ([CowFault(e, v)] + [CowAlloc(e, f)]) + ([CowCopy(e)] + [CowMap(e)] + [CowUnmap(e)]);
    }
  }

  // The states between the calls of cow_entry.

  lemma HandlerStart(s: State, e: int, v: int)
    requires Inv(s) && Enabled(s, CowFault(e, v))
    ensures UserCode(s, e, v) && s.envs[e].cow.Idle? && Maps(s, e, v) && Entry(s, e, v).perm.cow
  {}

  lemma HandlerSaved(s: State, t: State, e: int, v: int, f: int)
    requires Inv(s) && Enabled(s, CowFault(e, v)) && t == After(s, CowFault(e, v)) && Unused(s, f)
    ensures Inv(t) && Abs(t) == Abs(s) && Enabled(t, CowAlloc(e, f))
    ensures t.envs[e].space == s.envs[e].space && t.envs[e].cow == Saved(v, OwnPerm(s.envs[e].space[v].perm))
  {
    CowFaultKeepsInv(s, CowFault(e, v));
    hide Inv;
    forall e', v' | Maps(t, e', v') ensures Maps(s, e', v') && Entry(t, e', v') == Entry(s, e', v') {
    }
  }

  lemma HandlerAllocated(s: State, t: State, e: int, v: int, f: int)
    requires Inv(s) && Enabled(s, CowAlloc(e, f)) && t == After(s, CowAlloc(e, f)) && s.envs[e].cow.v == v
    ensures Inv(t) && Abs(t) == Abs(s) && Enabled(t, CowCopy(e))
    ensures t.envs[e].cow == Allocated(v, s.envs[e].cow.perm) && Maps(t, e, UCOW_PN) && Entry(t, e, UCOW_PN).frame == f
  {
    CowAllocKeepsInv(s, CowAlloc(e, f));
    CowAllocStep(s, CowAlloc(e, f));
    assert EnvOk(t, e);
  }

  lemma HandlerCopied(s: State, t: State, e: int, v: int)
    requires Inv(s) && Enabled(s, CowCopy(e)) && t == After(s, CowCopy(e)) && s.envs[e].cow.v == v
    ensures Inv(t) && Abs(t) == Abs(s) && Enabled(t, CowMap(e))
    ensures t.envs[e].cow == Copied(v, s.envs[e].cow.perm) && t.envs[e].space == s.envs[e].space
  {
    CowCopyKeepsInv(s, CowCopy(e));
    CowCopyStep(s, CowCopy(e));
  }

  lemma HandlerMapped(s: State, t: State, e: int, v: int)
    requires Inv(s) && Enabled(s, CowMap(e)) && t == After(s, CowMap(e)) && s.envs[e].cow.v == v
    ensures Inv(t) && Abs(t) == Abs(s) && Enabled(t, CowUnmap(e)) && t.envs[e].cow == Remapped(v)
    ensures Maps(t, e, v) && Entry(t, e, v) == Pte(Entry(s, e, UCOW_PN).frame, InsertPerm(s.envs[e].cow.perm))
  {
    CowMapKeepsInv(s, CowMap(e));
    CowMapStep(s, CowMap(e));
  }

  lemma HandlerDone(s: State, t: State, e: int, v: int)
    requires Inv(s) && Enabled(s, CowUnmap(e)) && t == After(s, CowUnmap(e)) && s.envs[e].cow == Remapped(v)
    ensures Inv(t) && Abs(t) == Abs(s) && t.envs[e].cow == Idle && UCOW_PN !in t.envs[e].space
    ensures Running(t, e) && v != UCOW_PN && 0 <= v < UTOP_PN && Maps(t, e, v) && Entry(t, e, v) == Entry(s, e, v)
  {
    CowUnmapKeepsInv(s, CowUnmap(e));
    CowUnmapStep(s, CowUnmap(e));
    assert EnvOk(s, e) && Maps(s, e, v);
  }

  lemma CanSkip(s: State, e: int)
    requires Inv(s) && Running(s, e) && s.envs[e].cow.Idle? && s.envs[e].fork.Scan? && s.envs[e].fork.i < USTACK_PN
    requires s.envs[e].fork.i !in s.envs[e].space
    ensures Enabled(s, ForkSkip(e)) && s.envs[e].fork.child != e
  {
    assert EnvOk(s, e);
  }

  lemma CanEnd(s: State, e: int)
    requires Inv(s) && Running(s, e) && s.envs[e].cow.Idle? && s.envs[e].fork.Scan? && s.envs[e].fork.i == USTACK_PN
    ensures Enabled(s, ForkEnd(e))
  {
    assert EnvOk(s, e);
  }

  /** The actions of fork's loop disturb nothing and build only the child's space. */
  lemma {:induction false} ForkActionsBuild(s: State, acts: seq<Action>, t: State, p: int, c: int)
    requires Inv(s) && Runs(s, acts, t) && ForkActions(acts, p)
    requires p in s.envs && !s.envs[p].fork.NoFork? && s.envs[p].fork.child == c && c in s.envs && c != p
    ensures Undisturbed(s, acts, t, p, c, {})
    ensures t.envs.Keys == s.envs.Keys && Abs(t).live == Abs(s).live
    ensures forall x :: x in s.envs && x != c ==> Abs(t).spaces[x] == Abs(s).spaces[x]
    decreases |acts|
  {
    if acts != [] {
      ForkActionBuilds(s, acts[0], p, c);
      assert forall k :: 0 <= k < |acts[1..]| ==> acts[1..][k] == acts[k + 1];
      hide Inv, Enabled, After, Abs;
      ForkActionsBuild(After(s, acts[0]), acts[1..], t, p, c);
    }
  }

  lemma ForkActionBuilds(s: State, a: Action, p: int, c: int)
    requires Inv(s) && Enabled(s, a) && a.e == p && (a.ForkSkip? || a.DupLook? || a.DupChild? || a.DupParent?)
    requires p in s.envs && !s.envs[p].fork.NoFork? && s.envs[p].fork.child == c && c in s.envs && c != p
    ensures Inv(After(s, a)) && !Disturbs(s, a, p, {})
    ensures After(s, a).envs.Keys == s.envs.Keys && Abs(After(s, a)).live == Abs(s).live
    ensures !After(s, a).envs[p].fork.NoFork? && After(s, a).envs[p].fork.child == c
    ensures forall x :: x in s.envs && x != c ==> Abs(After(s, a)).spaces[x] == Abs(s).spaces[x]
  {
    ForkActionPc(s, a, p, c);
    hide Inv, After, Enabled, Abs, RefStep;
    StepRefines(s, a);
    BuildsOnly(Abs(s), RefStep(s, a), c);
    AbsKeys(s);
    AbsKeys(After(s, a));
  }

  lemma AbsKeys(s: State)
    ensures Abs(s).spaces.Keys == s.envs.Keys
  {}

  lemma BuildsOnly(q: RefState, r: RefAction, c: int)
    requires RefEnabled(q, r) && (r.RefNothing? || (r.RefCopy? && r.c == c))
    ensures RefAfter(q, r).live == q.live && RefAfter(q, r).spaces.Keys == q.spaces.Keys
    ensures forall x :: x in q.spaces && x != c ==> RefAfter(q, r).spaces[x] == q.spaces[x]
  {}

  lemma ForkActionPc(s: State, a: Action, p: int, c: int)
    requires Enabled(s, a) && a.e == p && (a.ForkSkip? || a.DupLook? || a.DupChild? || a.DupParent?)
    requires p in s.envs && !s.envs[p].fork.NoFork? && s.envs[p].fork.child == c && c in s.envs && c != p
    ensures !Disturbs(s, a, p, {}) && After(s, a).envs.Keys == s.envs.Keys
    ensures !After(s, a).envs[p].fork.NoFork? && After(s, a).envs[p].fork.child == c
    ensures RefStep(s, a).RefNothing? || (RefStep(s, a).RefCopy? && RefStep(s, a).c == c)
  {}

  lemma ForkDone(s: State, p: int, c: int, acts: seq<Action>, t: State, u: State)
    requires Inv(s) && Enabled(s, ForkStart(p, c))
    requires Runs(After(s, ForkStart(p, c)), acts, t) && ForkActions(acts, p)
    requires Enabled(t, ForkEnd(p)) && t.envs[p].fork.child == c && u == After(t, ForkEnd(p))
    ensures p in s.envs && c in u.envs && u.envs[c].runnable
    ensures Abs(u).spaces == Abs(s).spaces[c := BelowStackTop(Abs(s).spaces[p])]
    ensures Abs(u).live == Abs(s).live + {c}
  {
    hide Inv, Mirrors, Enabled, Abs, RefEnabled, RefAfter, RefStep, After;
    var s1 := After(s, ForkStart(p, c));
    KeepsInv(s, ForkStart(p, c));
    ForkStartStep(s, ForkStart(p, c));
    StartStep(s, p, c);
    EndStep(t, p, c);
    ForkActionsBuild(s1, acts, t, p, c);
    ForkIsOneCopy(s, p, c, acts, t, {});
    AbsKeys(s);
    AbsKeys(s1);
    AbsKeys(t);
    hide Undisturbed, ForkActions, BelowStackTop;
    WholeFork(Abs(s), Abs(s1), Abs(t), Abs(u), p, c);
  }

  lemma WholeRun(s: State, p: int, c: int, acts: seq<Action>, t: State)
    requires Enabled(s, ForkStart(p, c)) && Runs(After(s, ForkStart(p, c)), acts, t) && Enabled(t, ForkEnd(p))
    ensures Runs(s, [ForkStart(p, c)] + acts + [ForkEnd(p)], After(t, ForkEnd(p)))
  {
    hide Enabled, After;
    RunsOne(s, ForkStart(p, c));
    RunsCompose(s, [ForkStart(p, c)], After(s, ForkStart(p, c)), acts, t);
    RunsExtend(s, [ForkStart(p, c)] + acts, t, ForkEnd(p));
  }

  lemma WholeFork(q: RefState, q1: RefState, r: RefState, u: RefState, p: int, c: int)
    requires RefEnabled(q, RefFork(p, c)) && q1 == RefAfter(q, RefFork(p, c)) && p in q.spaces && p != c
    requires r.spaces.Keys == q1.spaces.Keys && r.live == q1.live
    requires forall x :: x in q1.spaces && x != c ==> r.spaces[x] == q1.spaces[x]
    requires c in r.spaces && r.spaces[c] == BelowStackTop(r.spaces[p])
    requires RefEnabled(r, RefRun(c)) && u == RefAfter(r, RefRun(c))
    ensures u.spaces == q.spaces[c := BelowStackTop(q.spaces[p])] && u.live == q.live + {c}
  {
    var w := q.spaces[c := BelowStackTop(q.spaces[p])];
    assert q1.spaces[p] == q.spaces[p] && r.spaces[p] == q.spaces[p];
    assert u.spaces.Keys == w.Keys;
    forall x | x in w ensures u.spaces[x] == w[x] {
      if x != c { assert q1.spaces[x] == q.spaces[x]; }
    }
  }

  /** The parent's own actions inside the loop of fork: none of them disturbs a page. */
  ghost predicate ForkActions(acts: seq<Action>, p: int) {
    forall k :: 0 <= k < |acts| ==>
      acts[k].e == p && (acts[k].ForkSkip? || acts[k].DupLook? || acts[k].DupChild? || acts[k].DupParent?)
  }

  lemma DupLookReady(s: State, t: State, e: int)
    requires Inv(s) && Enabled(s, DupLook(e)) && t == After(s, DupLook(e))
    ensures Inv(t) && Enabled(t, DupChild(e))
    ensures e in t.envs && t.envs[e].runnable && t.envs[e].cow.Idle?
  {
    assert EnvOk(s, e) && ForkOk(s, e);
    DupLookKeepsInv(s, DupLook(e));
  }

  lemma DupCowReady(s: State, t: State, e: int)
    requires Inv(s) && Enabled(s, DupChild(e)) && NeedsCow(s.envs[e].fork.perm) && t == After(s, DupChild(e))
    ensures Inv(t) && Enabled(t, DupParent(e))
  {
    DupCowKeepsInv(s, DupChild(e));
  }
}
