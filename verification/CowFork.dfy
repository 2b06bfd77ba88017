/** Whole forks: for every page that the parent leaves alone after handing it over, the page-by-page fork
    amounts to copying the address space at once; a page that it goes on writing is copied as it was when
    it was handed over. CowProgram is fork.c itself. */
module CowFork {
  import opened CowModel
  import opened CowProof

  // ---------- fork as one copy ----------

  /** The child `c` shows pages below `i` only, and outside of D exactly the parent's. */
  ghost predicate Mirrors(q: RefState, p: int, c: int, i: int, D: set<int>) {
    p in q.spaces && c in q.spaces && p != c && c !in q.live &&
    (forall v :: v in q.spaces[c] ==> v < i) &&
    (forall v :: v !in D ==> (v in q.spaces[c] <==> v in q.spaces[p] && v < i)) &&
    (forall v :: v !in D && v in q.spaces[c] ==> q.spaces[c][v] == q.spaces[p][v])
  }

  /** Actions of the parent that change a page outside of D that it has already handed over. */
  ghost predicate Disturbs(s: State, a: Action, p: int, D: set<int>) {
    a.e == p && p in s.envs && !s.envs[p].fork.NoFork? &&
    match a
    case Store(e, v, _, _) => v !in D && v < s.envs[p].fork.i && Maps(s, p, v) && !Entry(s, p, v).perm.lib
    case Alloc(e, v, _, _) => v !in D && v < s.envs[p].fork.i
    case Unmap(e, v) => v !in D && v < s.envs[p].fork.i
    case Exit(e) => true
    case _ => false
  }

  /** A run during which the parent `p` is inside the fork of `c` and, of the pages it has handed over,
      touches those of D only. */
  ghost predicate Undisturbed(s: State, acts: seq<Action>, t: State, p: int, c: int, D: set<int>)
    requires Runs(s, acts, t)
    decreases |acts|
  {
    p in s.envs && !s.envs[p].fork.NoFork? && s.envs[p].fork.child == c &&
    (acts != [] ==> !Disturbs(s, acts[0], p, D) && Undisturbed(After(s, acts[0]), acts[1..], t, p, c, D))
  }

  /** A reference step that leaves the pages of `p` below `i`, outside of D, and the pages of `c` in agreement. */
  ghost predicate Harmless(q: RefState, r: RefAction, p: int, c: int, i: int, D: set<int>) {
    match r
    case RefStore(e, v, _, _) => e == p && v < i && v !in D ==> RefMaps(q, p, v) && q.spaces[p][v].Shared?
    case RefAlloc(e, v, _) => e == p ==> v >= i || v in D
    case RefUnmap(e, v) => e == p ==> v >= i || v in D
    case RefExit(e) => e != p
    case RefCopy(e, c', v) => c' != c && c' != p
    case RefRun(c') => c' != c
    case _ => true
  }

  lemma RefStepKeepsMirror(q: RefState, r: RefAction, p: int, c: int, i: int, D: set<int>)
    requires Mirrors(q, p, c, i, D) && RefEnabled(q, r) && Harmless(q, r, p, c, i, D)
    ensures Mirrors(RefAfter(q, r), p, c, i, D)
  {
    var q' := RefAfter(q, r);
    if r.RefStore? {
      var w := WritePage(q.spaces[r.e][r.v], r.off, r.val);
      if w.Shared? {
        assert q'.spaces[c] == StoreShared(q.spaces[c], w.cell, w.data);
        assert q'.spaces[p] == StoreShared(q.spaces[p], w.cell, w.data);
      }
    }
  }

  lemma RefCopyExtendsMirror(q: RefState, p: int, c: int, i: int, D: set<int>)
    requires Mirrors(q, p, c, i, D) && RefEnabled(q, RefCopy(p, c, i))
    ensures Mirrors(RefAfter(q, RefCopy(p, c, i)), p, c, i + 1, D)
  {}

  lemma SkipExtendsMirror(q: RefState, p: int, c: int, i: int, D: set<int>)
    requires Mirrors(q, p, c, i, D) && i !in q.spaces[p]
    ensures Mirrors(q, p, c, i + 1, D)
  {}

  lemma StepKeepsMirror(s: State, a: Action, p: int, c: int, D: set<int>)
    requires Inv(s) && Enabled(s, a) && !Disturbs(s, a, p, D)
    requires p in s.envs && !s.envs[p].fork.NoFork? && s.envs[p].fork.child == c
    requires Mirrors(Abs(s), p, c, s.envs[p].fork.i, D)
    requires p in After(s, a).envs && !After(s, a).envs[p].fork.NoFork?
    ensures After(s, a).envs[p].fork.child == c
    ensures Mirrors(Abs(After(s, a)), p, c, After(s, a).envs[p].fork.i, D)
  {
    hide Inv, Mirrors, RefEnabled, RefAfter;
    StepRefines(s, a);
    if a.e == p && (a.DupParent? || (a.DupChild? && !NeedsCow(s.envs[p].fork.perm))) {
      RefCopyExtendsMirror(Abs(s), p, c, s.envs[p].fork.i, D);
      hide Abs;
    } else if a.e == p && a.ForkSkip? {
      assert s.envs[p].fork.i !in Abs(s).spaces[p];
      SkipExtendsMirror(Abs(s), p, c, s.envs[p].fork.i, D);
      ForkSkipKeepsInv(s, a);
    } else {
      hide Abs, Enabled, After;
      OtherStepKeepsMirror(s, a, p, c, D);
    }
  }

  lemma OtherStepKeepsMirror(s: State, a: Action, p: int, c: int, D: set<int>)
    requires Inv(s) && Enabled(s, a) && !Disturbs(s, a, p, D)
    requires p in s.envs && !s.envs[p].fork.NoFork? && s.envs[p].fork.child == c
    requires Mirrors(Abs(s), p, c, s.envs[p].fork.i, D) && RefEnabled(Abs(s), RefStep(s, a))
    requires p in After(s, a).envs && !After(s, a).envs[p].fork.NoFork?
    requires a.e == p ==> !a.ForkSkip? && !a.DupParent? && (a.DupChild? ==> NeedsCow(s.envs[p].fork.perm))
    ensures After(s, a).envs[p].fork.child == c && After(s, a).envs[p].fork.i == s.envs[p].fork.i
    ensures Mirrors(RefAfter(Abs(s), RefStep(s, a)), p, c, s.envs[p].fork.i, D)
  {
    StepIsHarmless(s, a, p, c, D);
    hide Inv, Mirrors, Harmless, RefEnabled, RefAfter, RefStep, Abs;
    RefStepKeepsMirror(Abs(s), RefStep(s, a), p, c, s.envs[p].fork.i, D);
  }

  lemma StepIsHarmless(s: State, a: Action, p: int, c: int, D: set<int>)
    requires Inv(s) && Enabled(s, a) && !Disturbs(s, a, p, D)
    requires p in s.envs && !s.envs[p].fork.NoFork? && s.envs[p].fork.child == c
    requires p in After(s, a).envs && !After(s, a).envs[p].fork.NoFork?
    requires a.e == p ==> !a.ForkSkip? && !a.DupParent? && (a.DupChild? ==> NeedsCow(s.envs[p].fork.perm))
    ensures After(s, a).envs[p].fork.child == c && After(s, a).envs[p].fork.i == s.envs[p].fork.i
    ensures Harmless(Abs(s), RefStep(s, a), p, c, s.envs[p].fork.i, D)
  {
    hide FramesOk, LibraryOk, Exclusive, HandlerOk;
    assert EnvOk(s, p) && ForkOk(s, p) && EnvOk(s, c);
    assert a.e in s.envs && EnvOk(s, a.e);
    if !s.envs[a.e].fork.NoFork? && a.e != p {
      assert Forking(s, a.e) && Forking(s, p);
    }
  }

  lemma {:induction false} MirrorsAlong(s: State, acts: seq<Action>, t: State, p: int, c: int, D: set<int>)
    requires Inv(s) && Runs(s, acts, t) && Undisturbed(s, acts, t, p, c, D)
    requires Mirrors(Abs(s), p, c, s.envs[p].fork.i, D)
    ensures Inv(t) && p in t.envs && !t.envs[p].fork.NoFork? && t.envs[p].fork.child == c
    ensures Mirrors(Abs(t), p, c, t.envs[p].fork.i, D)
    decreases |acts|
  {
    if acts != [] {
      hide Mirrors, Inv, Abs;
      StepRefines(s, acts[0]);
      var m := After(s, acts[0]);
      assert Undisturbed(m, acts[1..], t, p, c, D);
      StepKeepsMirror(s, acts[0], p, c, D);
      MirrorsAlong(m, acts[1..], t, p, c, D);
    }
  }

  ghost function BelowStackTop(space: map<int, RefPage>): map<int, RefPage> {
    map v | v in space && v < USTACK_PN :: space[v]
  }

  /** At the end of fork the child sees, page by page, what the parent sees below USTACKTOP, whatever all
      other envs did in the meantime: private pages are copies, LIBRARY pages are the same page. D are
      the pages that the parent itself has changed after handing them over, such as its stack; for
      them see ChildGetsPageOfThatMoment. */
  lemma ForkIsOneCopy(s: State, p: int, c: int, acts: seq<Action>, t: State, D: set<int>)
    requires Inv(s) && Enabled(s, ForkStart(p, c))
    requires Runs(After(s, ForkStart(p, c)), acts, t) && Undisturbed(After(s, ForkStart(p, c)), acts, t, p, c, D)
    requires Enabled(t, ForkEnd(p))
    ensures Inv(t)
    ensures RefEnabled(Abs(t), RefRun(c)) && Abs(After(t, ForkEnd(p))) == RefAfter(Abs(t), RefRun(c))
    ensures p in Abs(t).spaces && c in Abs(t).spaces
    ensures forall v :: v in Abs(t).spaces[c] ==> v < USTACK_PN
    ensures forall v :: v < USTACK_PN && v !in D ==>
      (v in Abs(t).spaces[c] <==> v in Abs(t).spaces[p]) &&
      (v in Abs(t).spaces[c] ==> Abs(t).spaces[c][v] == Abs(t).spaces[p][v])
    ensures D == {} ==> Abs(t).spaces[c] == BelowStackTop(Abs(t).spaces[p])
  {
    hide Enabled, After, Inv, Abs, RefStep, RefAfter, RefEnabled, Mirrors;
    var s1 := After(s, ForkStart(p, c));
    KeepsInv(s, ForkStart(p, c));
    MirrorsAtStart(s, p, c, D);
    MirrorsAlong(s1, acts, t, p, c, D);
    StepRefines(t, ForkEnd(p));
    EndStep(t, p, c);
    MirrorMeans(Abs(t), p, c, D);
  }

  lemma MirrorMeans(q: RefState, p: int, c: int, D: set<int>)
    requires Mirrors(q, p, c, USTACK_PN, D)
    ensures p in q.spaces && c in q.spaces && forall v :: v in q.spaces[c] ==> v < USTACK_PN
    ensures forall v :: v < USTACK_PN && v !in D ==>
      (v in q.spaces[c] <==> v in q.spaces[p]) && (v in q.spaces[c] ==> q.spaces[c][v] == q.spaces[p][v])
    ensures D == {} ==> q.spaces[c] == BelowStackTop(q.spaces[p])
  {}

  // ---------- the pages that the parent goes on using ----------

  /** The parent is inside the fork of `c` all along, and may do anything else. */
  ghost predicate StaysInFork(s: State, acts: seq<Action>, t: State, p: int, c: int)
    requires Runs(s, acts, t)
    decreases |acts|
  {
    p in s.envs && !s.envs[p].fork.NoFork? && s.envs[p].fork.child == c &&
    (acts != [] ==> StaysInFork(After(s, acts[0]), acts[1..], t, p, c))
  }

  /** The child's page `v` is the page `page`: the same bytes, or for LIBRARY the same shared page. */
  ghost predicate SamePage(q: RefState, c: int, v: int, page: RefPage) {
    RefMaps(q, c, v) && if page.Private? then q.spaces[c][v] == page
    else q.spaces[c][v].Shared? && q.spaces[c][v] == page.(data := q.spaces[c][v].data)
  }

  /** The page that the child has at the end of fork is the page that the parent had when it handed it
      over, for every page and every run; stores of the parent after that moment do not show. */
  lemma ChildGetsPageOfThatMoment(s: State, a: Action, acts: seq<Action>, t: State, p: int, c: int)
    requires Inv(s) && Enabled(s, a) && a.e == p && Runs(After(s, a), acts, t) && StaysInFork(After(s, a), acts, t, p, c)
    requires a.DupParent? || (a.DupChild? && !NeedsCow(s.envs[p].fork.perm))
    ensures Inv(t) && p in s.envs && !s.envs[p].fork.NoFork?
    ensures var v := s.envs[p].fork.i; RefMaps(Abs(s), p, v) && SamePage(Abs(t), c, v, Abs(s).spaces[p][v])
  {
    StepRefines(s, a);
    HandOverStep(s, a, p, c);
    hide Inv, Abs, Enabled, After, RefStep;
    ChildKeepsPage(After(s, a), acts, t, p, c, s.envs[p].fork.i);
  }

  lemma HandOverStep(s: State, a: Action, p: int, c: int)
    requires Enabled(s, a) && a.e == p && (a.DupParent? || (a.DupChild? && !NeedsCow(s.envs[p].fork.perm)))
    requires p in After(s, a).envs && !After(s, a).envs[p].fork.NoFork? && After(s, a).envs[p].fork.child == c
    ensures p in s.envs && !s.envs[p].fork.NoFork? && RefStep(s, a) == RefCopy(p, c, s.envs[p].fork.i)
  {}

  /** Whatever the parent and all other envs do while the fork goes on, a page that the child has got
      stays as it is. */
  lemma {:induction false} ChildKeepsPage(s: State, acts: seq<Action>, t: State, p: int, c: int, v: int)
    requires Inv(s) && Runs(s, acts, t) && StaysInFork(s, acts, t, p, c) && RefMaps(Abs(s), c, v)
    ensures Inv(t) && SamePage(Abs(t), c, v, Abs(s).spaces[c][v])
    decreases |acts|
  {
    if acts != [] {
      var m := After(s, acts[0]);
      assert StaysInFork(m, acts[1..], t, p, c);
      StepKeepsChildPage(s, acts[0], p, c, v);
      hide Inv, Abs, Enabled, After;
      ChildKeepsPage(m, acts[1..], t, p, c, v);
    }
  }

  lemma StepKeepsChildPage(s: State, a: Action, p: int, c: int, v: int)
    requires Inv(s) && Enabled(s, a) && RefMaps(Abs(s), c, v)
    requires p in s.envs && !s.envs[p].fork.NoFork? && s.envs[p].fork.child == c
    requires p in After(s, a).envs && !After(s, a).envs[p].fork.NoFork?
    ensures Inv(After(s, a)) && SamePage(Abs(After(s, a)), c, v, Abs(s).spaces[c][v])
  {
    StepRefines(s, a);
    StepSparesChildPage(s, a, p, c, v);
    hide Inv, Abs, Enabled, After, RefStep;
    SparedIsKept(Abs(s), RefStep(s, a), c, v);
  }

  /** A reference step that does not give page v of the waiting env c a new meaning. */
  ghost predicate Spares(q: RefState, r: RefAction, c: int, v: int) {
    c !in q.live && (r.RefCopy? ==> r.c != c || r.v != v) && (r.RefExit? ==> r.e != c) && (r.RefFork? ==> r.c != c)
  }

  lemma SparedIsKept(q: RefState, r: RefAction, c: int, v: int)
    requires RefEnabled(q, r) && RefMaps(q, c, v) && Spares(q, r, c, v)
    ensures SamePage(RefAfter(q, r), c, v, q.spaces[c][v])
  {
    if r.RefStore? {
      var w := WritePage(q.spaces[r.e][r.v], r.off, r.val);
      if w.Shared? {
        assert RefAfter(q, r).spaces[c] == StoreShared(q.spaces[c], w.cell, w.data);
      }
    }
  }

  lemma StepSparesChildPage(s: State, a: Action, p: int, c: int, v: int)
    requires Inv(s) && Enabled(s, a) && RefMaps(Abs(s), c, v)
    requires p in s.envs && !s.envs[p].fork.NoFork? && s.envs[p].fork.child == c
    requires p in After(s, a).envs && !After(s, a).envs[p].fork.NoFork?
    ensures Spares(Abs(s), RefStep(s, a), c, v)
  {
    ChildWaits(s, p, c, v);
    if a.e == p { OwnStepSpares(s, a, p, c, v); } else { OtherStepSpares(s, a, p, c, v); }
    hide Inv, Enabled, After, RefStep, Abs, Spares;
  }

  lemma ChildWaits(s: State, p: int, c: int, v: int)
    requires Inv(s) && p in s.envs && !s.envs[p].fork.NoFork? && s.envs[p].fork.child == c && RefMaps(Abs(s), c, v)
    ensures c in s.envs && !s.envs[c].runnable && c != p && v < s.envs[p].fork.i && Running(s, p)
    ensures forall e :: Forking(s, e) && e != p ==> s.envs[e].fork.child != c
  {
    hide FramesOk, LibraryOk, Exclusive, HandlerOk;
    assert EnvOk(s, p) && ForkOk(s, p) && EnvOk(s, c);
    assert Visible(s, c, v);
    forall e | Forking(s, e) && e != p ensures s.envs[e].fork.child != c {
      assert Forking(s, p);
    }
  }

  lemma OwnStepSpares(s: State, a: Action, p: int, c: int, v: int)
    requires Enabled(s, a) && a.e == p && p in s.envs && !s.envs[p].fork.NoFork? && s.envs[p].fork.child == c
    requires p in After(s, a).envs && !After(s, a).envs[p].fork.NoFork?
    requires c in s.envs && !s.envs[c].runnable && c != p && v < s.envs[p].fork.i
    ensures Spares(Abs(s), RefStep(s, a), c, v)
  {
    hide AbsPage, AbsSpace;
  }

  lemma OtherStepSpares(s: State, a: Action, p: int, c: int, v: int)
    requires Enabled(s, a) && a.e != p && c in s.envs && !s.envs[c].runnable
    requires forall e :: Forking(s, e) && e != p ==> s.envs[e].fork.child != c
    ensures Spares(Abs(s), RefStep(s, a), c, v)
  {
    hide AbsPage, AbsSpace;
    assert a.e in s.envs && (Forking(s, a.e) ==> s.envs[a.e].fork.child != c);
  }

  lemma MirrorsAtStart(s: State, p: int, c: int, D: set<int>)
    requires Inv(s) && Enabled(s, ForkStart(p, c))
    ensures p in After(s, ForkStart(p, c)).envs && After(s, ForkStart(p, c)).envs[p].fork == Scan(c, 0)
    ensures Mirrors(Abs(After(s, ForkStart(p, c))), p, c, 0, D)
  {
    hide LibraryOk, Exclusive, ChildrenDistinct, EnvOk;
    var s1 := After(s, ForkStart(p, c));
    var q1 := Abs(s1);
    forall v | v in q1.spaces[p] ensures v >= 0 {
      assert Maps(s1, p, v) && Maps(s, p, v);
    }
    assert q1.spaces[c] == map[];
  }

  lemma EndStep(t: State, p: int, c: int)
    requires Enabled(t, ForkEnd(p)) && t.envs[p].fork.child == c
    ensures RefStep(t, ForkEnd(p)) == RefRun(c) && t.envs[p].fork.i == USTACK_PN
    ensures c in After(t, ForkEnd(p)).envs && After(t, ForkEnd(p)).envs[c].runnable
  {}

  lemma StartStep(s: State, p: int, c: int)
    requires Enabled(s, ForkStart(p, c))
    ensures RefStep(s, ForkStart(p, c)) == RefFork(p, c) && p in s.envs && c != p
    ensures c in After(s, ForkStart(p, c)).envs && p in After(s, ForkStart(p, c)).envs
    ensures After(s, ForkStart(p, c)).envs[p].fork == Scan(c, 0)
  {}

  // ---------- runs put together ----------

  /** One action appended to a run. */
  lemma {:induction false} RunsExtend(s: State, acts: seq<Action>, t: State, a: Action)
    requires Runs(s, acts, t) && Enabled(t, a)
    ensures Runs(s, acts + [a], After(t, a))
    decreases |acts|
  {
    if acts == [] {
      assert [a][1..] == [];
    } else {
      RunsExtend(After(s, acts[0]), acts[1..], t, a);
      assert (acts + [a])[1..] == acts[1..] + [a];
    }
  }

  lemma {:induction false} RunsCompose(s: State, a1: seq<Action>, t: State, a2: seq<Action>, u: State)
    requires Runs(s, a1, t) && Runs(t, a2, u)
    ensures Runs(s, a1 + a2, u)
    decreases |a1|
  {
    if a1 == [] {
      assert a1 + a2 == a2;
    } else {
      RunsCompose(After(s, a1[0]), a1[1..], t, a2, u);
      assert (a1 + a2)[1..] == a1[1..] + a2;
    }
  }

  lemma RunsEmpty(s: State)
    ensures Runs(s, [], s)
  {}

  lemma RunsOne(s: State, a: Action)
    requires Enabled(s, a)
    ensures Runs(s, [a], After(s, a))
  {
    assert [a][1..] == [];
  }

  lemma KeepsInv(s: State, a: Action)
    requires Inv(s) && Enabled(s, a)
    ensures Inv(After(s, a))
  {
    hide Inv, Enabled, After;
    StepRefines(s, a);
  }

  lemma Runs2(s: State, a: Action, t: State, b: Action, u: State)
    requires Enabled(s, a) && t == After(s, a) && Enabled(t, b) && u == After(t, b)
    ensures Runs(s, [a] + [b], u)
  {
    hide Enabled, After;
    assert [b][1..] == [];
    assert Runs(u, [], u);
    assert Runs(t, [b], u);
    assert ([a] + [b])[1..] == [b];
  }

  lemma Runs3(s: State, a: Action, t: State, b: Action, u: State, d: Action, w: State)
    requires Enabled(s, a) && t == After(s, a) && Enabled(t, b) && u == After(t, b) && Enabled(u, d) && w == After(u, d)
    ensures Runs(s, [a] + [b] + [d], w)
  {
    hide Enabled, After;
    Runs2(t, b, u, d, w);
    assert ([a] + [b] + [d])[1..] == [b] + [d];
  }

  // ---------- why the order of the two map calls and the pause between them matter ----------

  /** The state in which a store to a COW page has just faulted, without asking whether fork has read
      the entry of this very page. */
  ghost function FaultTaken(s: State, e: int, v: int): State
    requires Maps(s, e, v)
  {
    SetEnv(s, e, WithCow(s.envs[e], Saved(v, OwnPerm(Entry(s, e, v).perm))))
  }

  /** A store that faults between reading `vpt` and the first map call breaks the isolation, in every
      state, for every offset and every value: the handler gives the parent a private page, the child is
      then mapped to that very page, and the parent keeps the right to write it, so that its next store
      shows in the child. Where no such fault happens, CowRefinesEager holds. */
  lemma FaultInTransitLeaks(s: State, e: int, f: int, off: int, val: int)
    requires Inv(s) && Enabled(s, DupChild(e)) && s.envs[e].fork.perm.cow && Unused(s, f) && 0 <= off < BY2PG
    ensures var v := s.envs[e].fork.i; UserCode(s, e, v) && InTransit(s, e, v) && Entry(s, e, v).perm.cow
    ensures exists h ::
      Runs(FaultTaken(s, e, s.envs[e].fork.i), [CowAlloc(e, f), CowCopy(e), CowMap(e), CowUnmap(e)], h) &&
      Enabled(h, DupChild(e)) && ShowsInChild(After(h, DupChild(e)), e, s.envs[e].fork.child, s.envs[e].fork.i, off, val)
  {
    var v := s.envs[e].fork.i;
    var h := HandlerInTransit(s, e, f);
    hide Inv, Runs;
    LeakShows(h, e, f, off, val);
  }

  /** The four steps of the handler, from such a fault on. */
  lemma HandlerInTransit(s: State, e: int, f: int) returns (h: State)
    requires Inv(s) && Enabled(s, DupChild(e)) && s.envs[e].fork.perm.cow && Unused(s, f)
    ensures var v := s.envs[e].fork.i; UserCode(s, e, v) && InTransit(s, e, v) && Entry(s, e, v).perm.cow
    ensures Runs(FaultTaken(s, e, s.envs[e].fork.i), [CowAlloc(e, f), CowCopy(e), CowMap(e), CowUnmap(e)], h)
    ensures Enabled(h, DupChild(e)) && h.envs[e].fork == s.envs[e].fork && f in h.mem && |h.mem[f]| == BY2PG
    ensures var v := s.envs[e].fork.i; v != UCOW_PN && 0 <= v < UTOP_PN && h.envs[e].space[v] == Pte(f, OwnPerm(s.envs[e].fork.perm))
    ensures !s.envs[e].fork.perm.lib
  {
    hide LibraryOk, Exclusive, ChildrenDistinct;
    var v := s.envs[e].fork.i;
    assert EnvOk(s, e) && ForkOk(s, e) && EnvOk(s, s.envs[e].fork.child);
    assert |s.mem[Entry(s, e, v).frame]| == BY2PG && PermOk(Entry(s, e, v).perm);
    hide FramesOk, EnvOk, Runs;
    var s1 := FaultTaken(s, e, v);
    assert forall x, y :: Maps(s1, x, y) ==> Maps(s, x, y) && Entry(s1, x, y) == Entry(s, x, y);
    assert Enabled(s1, CowAlloc(e, f));
    var s2 := After(s1, CowAlloc(e, f));
    assert Enabled(s2, CowCopy(e));
    var s3 := After(s2, CowCopy(e));
    assert Enabled(s3, CowMap(e));
    var s4 := After(s3, CowMap(e));
    assert Enabled(s4, CowUnmap(e));
    h := After(s4, CowUnmap(e));
    HandlerRuns(s1, s2, s3, s4, h, e, f);
    assert h.envs[e].space[v] == Pte(f, OwnPerm(s.envs[e].fork.perm));
  }

  lemma HandlerRuns(s1: State, s2: State, s3: State, s4: State, h: State, e: int, f: int)
    requires Enabled(s1, CowAlloc(e, f)) && s2 == After(s1, CowAlloc(e, f)) && Enabled(s2, CowCopy(e))
    requires s3 == After(s2, CowCopy(e)) && Enabled(s3, CowMap(e)) && s4 == After(s3, CowMap(e))
    requires Enabled(s4, CowUnmap(e)) && h == After(s4, CowUnmap(e))
    ensures Runs(s1, [CowAlloc(e, f), CowCopy(e), CowMap(e), CowUnmap(e)], h)
  {
    hide Enabled, After;
    Runs3(s2, CowCopy(e), s3, CowMap(e), s4, CowUnmap(e), h);
    RunsOne(s1, CowAlloc(e, f));
    RunsCompose(s1, [CowAlloc(e, f)], s2, [CowCopy(e)] + [CowMap(e)] + [CowUnmap(e)], h);
    assert [CowAlloc(e, f)] + ([CowCopy(e)] + [CowMap(e)] + [CowUnmap(e)]) ==
      [CowAlloc(e, f), CowCopy(e), CowMap(e), CowUnmap(e)];
  }

  /** A store of env e to page v is possible, and then page v of env c, complete and private, has that byte. */
  ghost predicate ShowsInChild(s: State, e: int, c: int, v: int, off: int, val: int) {
    Enabled(s, Store(e, v, off, val)) && c != e &&
    var t := After(s, Store(e, v, off, val));
    Visible(t, c, v) && AbsPage(t, Entry(t, c, v)).Private? && off < |AbsPage(t, Entry(t, c, v)).data| &&
    AbsPage(t, Entry(t, c, v)).data[off] == val
  }

  lemma LeakShows(h: State, e: int, f: int, off: int, val: int)
    requires Enabled(h, DupChild(e)) && f in h.mem && |h.mem[f]| == BY2PG && 0 <= off < BY2PG
    requires h.envs[e].fork.perm.cow && !h.envs[e].fork.perm.lib
    requires h.envs[e].space[h.envs[e].fork.i] == Pte(f, OwnPerm(h.envs[e].fork.perm))
    requires h.envs[e].fork.i != UCOW_PN && 0 <= h.envs[e].fork.i < UTOP_PN
    ensures ShowsInChild(After(h, DupChild(e)), e, h.envs[e].fork.child, h.envs[e].fork.i, off, val)
  {
    var d := After(h, DupChild(e));
    var c, v := h.envs[e].fork.child, h.envs[e].fork.i;
    assert Entry(d, c, v).frame == f && Entry(d, e, v).frame == f && Visible(d, c, v);
  }
}
