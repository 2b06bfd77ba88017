/** Copy-on-write refines eager copy: the invariant of the fork protocol and the simulation proof. */
module CowProof {
  import opened CowModel

  // ---------- the invariant ----------

  ghost predicate FramesOk(s: State) {
    forall e, v :: Maps(s, e, v) ==>
      0 <= v < UTOP_PN && Entry(s, e, v).frame in s.mem && |s.mem[Entry(s, e, v).frame]| == BY2PG &&
      PermOk(Entry(s, e, v).perm)
  }

  ghost predicate SameFrame(s: State, e1: int, v1: int, e2: int, v2: int) {
    Maps(s, e1, v1) && Maps(s, e2, v2) && Entry(s, e1, v1).frame == Entry(s, e2, v2).frame
  }

  /** A frame is LIBRARY in all places or in none. */
  ghost predicate LibraryOk(s: State) {
    forall e1, v1, e2, v2 :: SameFrame(s, e1, v1, e2, v2) ==> Entry(s, e1, v1).perm.lib == Entry(s, e2, v2).perm.lib
  }

  /** The two moments at which a writable private frame has a second mapping: between the two map
      calls of duppage, and between the last two calls of the fault handler. */
  ghost predicate Excused(s: State, e1: int, v1: int, e2: int, v2: int)
    requires e1 in s.envs
  {
    (s.envs[e1].fork.ChildDone? && s.envs[e1].fork.child == e2 && v1 == v2 == s.envs[e1].fork.i) ||
    (e1 == e2 && s.envs[e1].cow.Remapped? &&
      ((v1 == s.envs[e1].cow.v && v2 == UCOW_PN) || (v1 == UCOW_PN && v2 == s.envs[e1].cow.v)))
  }

  /** A writable private frame has no second mapping, except at those moments. */
  ghost predicate Exclusive(s: State) {
    forall e1, v1, e2, v2 ::
      SameFrame(s, e1, v1, e2, v2) && (e1 != e2 || v1 != v2) && Owned(s, e1, v1) ==> Excused(s, e1, v1, e2, v2)
  }

  ghost predicate Owned(s: State, e: int, v: int)
    requires Maps(s, e, v)
  {
    Entry(s, e, v).perm.w && !Entry(s, e, v).perm.lib
  }

  ghost predicate Forking(s: State, e: int) { e in s.envs && !s.envs[e].fork.NoFork? }

  ghost predicate HandlerOk(s: State, e: int)
    requires e in s.envs
  {
    var env := s.envs[e];
    match env.cow
    case Idle => UCOW_PN !in env.space
    case Saved(v, p) => UCOW_PN !in env.space && Faulted(env, v, p)
    case Allocated(v, p) => Faulted(env, v, p) && WorkPage(env, p)
    case Copied(v, p) =>
      Faulted(env, v, p) && WorkPage(env, p) && env.space[v].frame in s.mem && env.space[UCOW_PN].frame in s.mem &&
      s.mem[env.space[UCOW_PN].frame] == s.mem[env.space[v].frame]
    case Remapped(v) =>
      v != UCOW_PN && v in env.space && UCOW_PN in env.space && env.space[v] == env.space[UCOW_PN] &&
      env.space[v].perm.w && !env.space[v].perm.lib
  }

  ghost predicate Faulted(env: Env, v: int, p: Perm) {
    v != UCOW_PN && 0 <= v < UTOP_PN && v in env.space && env.space[v].perm.cow && p == OwnPerm(env.space[v].perm)
  }

  ghost predicate WorkPage(env: Env, p: Perm) {
    UCOW_PN in env.space && env.space[UCOW_PN].perm == p && p.w && !p.lib
  }

  ghost predicate ForkOk(s: State, e: int)
    requires e in s.envs && !s.envs[e].fork.NoFork?
  {
    var env := s.envs[e];
    var c, i := env.fork.child, env.fork.i;
    c != e && c in s.envs && !s.envs[c].runnable && s.envs[c].shown == i && 0 <= i <= USTACK_PN &&
    (forall v :: v in s.envs[c].space ==> v < i || (v == i && env.fork.ChildDone?)) &&
    (!env.fork.Scan? ==>
      i < USTACK_PN && i != UCOW_PN && i in env.space && (!env.cow.Idle? ==> env.cow.v != i)) &&
    (env.fork.Looked? ==> env.space[i].perm == env.fork.perm) &&
    (env.fork.ChildDone? ==>
      NeedsCow(env.space[i].perm) && env.fork.perm == CowPerm(env.space[i].perm) &&
      i in s.envs[c].space && s.envs[c].space[i] == Pte(env.space[i].frame, env.fork.perm))
  }

  ghost predicate EnvOk(s: State, e: int)
    requires e in s.envs
  {
    HandlerOk(s, e) &&
    (s.envs[e].runnable ==> s.envs[e].shown == UTOP_PN) &&
    (!s.envs[e].runnable ==> s.envs[e].fork.NoFork? && s.envs[e].cow.Idle?) &&
    (!s.envs[e].fork.NoFork? ==> ForkOk(s, e))
  }

  ghost predicate ChildrenDistinct(s: State) {
    forall e1, e2 ::
      Forking(s, e1) && Forking(s, e2) && e1 != e2 ==> s.envs[e1].fork.child != s.envs[e2].fork.child
  }

  ghost predicate Inv(s: State) {
    FramesOk(s) && LibraryOk(s) && Exclusive(s) && ChildrenDistinct(s) && forall e :: e in s.envs ==> EnvOk(s, e)
  }

  // ---------- consequences ----------

  /** No running env can see a private frame that somebody else can write. */
  lemma PrivateWhenRunning(s: State, e1: int, v1: int, e2: int, v2: int)
    requires Inv(s) && SameFrame(s, e1, v1, e2, v2) && (e1 != e2 || v1 != v2)
    requires Entry(s, e1, v1).perm.w && !Entry(s, e1, v1).perm.lib
    requires s.envs[e2].runnable
    ensures e1 == e2 && s.envs[e1].cow.Remapped? && (v1 == UCOW_PN || v2 == UCOW_PN)
  {
    assert EnvOk(s, e1);
    assert Excused(s, e1, v1, e2, v2);
  }

  // ---------- the observable space of one env ----------

  lemma SameSpaceSameAbs(s: State, t: State, e: int)
    requires e in s.envs && e in t.envs
    requires t.envs[e].space == s.envs[e].space && t.envs[e].shown == s.envs[e].shown
    requires forall v :: Maps(s, e, v) ==> SameContents(s, t, Entry(s, e, v).frame)
    ensures AbsSpace(t, e) == AbsSpace(s, e)
  {
    forall v ensures Visible(t, e, v) == Visible(s, e, v) {
    }
  }

  ghost predicate SameContents(s: State, t: State, f: int) {
    (f in t.mem <==> f in s.mem) && (f in s.mem ==> t.mem[f] == s.mem[f])
  }

  // ---------- loads and stores ----------

  lemma LoadStep(s: State, a: Action)
    requires Inv(s) && Enabled(s, a) && a.Load?
    ensures RefEnabled(Abs(s), RefStep(s, a)) && Abs(After(s, a)) == RefAfter(Abs(s), RefStep(s, a))
  {
    assert EnvOk(s, a.e);
    assert Visible(s, a.e, a.v);
  }

  lemma StoreKeepsInv(s: State, a: Action)
    requires Inv(s) && Enabled(s, a) && a.Store?
    ensures Inv(After(s, a))
  {
    var t := After(s, a);
    var f := Entry(s, a.e, a.v).frame;
    forall e, v ensures Maps(t, e, v) <==> Maps(s, e, v) {
    }
    forall e1, v1, e2, v2 ensures SameFrame(t, e1, v1, e2, v2) <==> SameFrame(s, e1, v1, e2, v2) {
    }
    forall e | e in t.envs ensures EnvOk(t, e) {
      assert EnvOk(s, e);
      if s.envs[e].cow.Copied? {
        var v := s.envs[e].cow.v;
        assert EnvOk(s, a.e);
        if s.envs[e].space[UCOW_PN].frame == f {
          assert SameFrame(s, a.e, a.v, e, UCOW_PN);
          PrivateOrLibrary(s, a.e, a.v, e, UCOW_PN);
        }
        if s.envs[e].space[v].frame == f {
          assert SameFrame(s, a.e, a.v, e, v);
          PrivateOrLibrary(s, a.e, a.v, e, v);
        }
      }
    }
  }

  /** Two running envs share a frame that one of them writes only if the frame is LIBRARY. */
  lemma PrivateOrLibrary(s: State, e1: int, v1: int, e2: int, v2: int)
    requires Inv(s) && SameFrame(s, e1, v1, e2, v2) && (e1 != e2 || v1 != v2)
    requires Entry(s, e1, v1).perm.w && s.envs[e2].runnable && v1 != UCOW_PN
    requires s.envs[e2].cow.Copied?
    ensures Entry(s, e2, v2).perm.lib
  {
    if !Entry(s, e1, v1).perm.lib {
      PrivateWhenRunning(s, e1, v1, e2, v2);
    }
  }

  /** A page that user code may write shares its frame with a visible page only if it is LIBRARY. */
  lemma WritersAlone(s: State, e1: int, v1: int, e2: int, v2: int)
    requires Inv(s) && SameFrame(s, e1, v1, e2, v2) && (e1 != e2 || v1 != v2)
    requires UserCode(s, e1, v1) && Entry(s, e1, v1).perm.w && Visible(s, e2, v2)
    ensures Entry(s, e1, v1).perm.lib && Entry(s, e2, v2).perm.lib
  {
    assert EnvOk(s, e1);
    assert !Excused(s, e1, v1, e2, v2);
  }

  lemma StoreStep(s: State, a: Action)
    requires Inv(s) && Enabled(s, a) && a.Store?
    ensures RefEnabled(Abs(s), RefStep(s, a)) && Abs(After(s, a)) == RefAfter(Abs(s), RefStep(s, a))
  {
    hide Inv, EnvOk, Enabled, After, RefStep, RefAfter, RefEnabled;
    StoreAllowed(s, a);
    var t, q, q' := After(s, a), Abs(s), RefAfter(Abs(s), RefStep(s, a));
    StoreSpaces(s, a);
    forall e | e in s.envs ensures AbsSpace(t, e) == q'.spaces[e] {
      forall v | Visible(s, e, v) ensures v in q'.spaces[e] && AbsPage(t, Entry(t, e, v)) == q'.spaces[e][v] {
        StoredPage(s, a, e, v);
      }
    }
  }

  lemma StoreAllowed(s: State, a: Action)
    requires Inv(s) && Enabled(s, a) && a.Store?
    ensures RefEnabled(Abs(s), RefStep(s, a)) && RefStep(s, a) == RefStore(a.e, a.v, a.off, a.val)
    ensures UserCode(s, a.e, a.v) && Visible(s, a.e, a.v) && Entry(s, a.e, a.v).perm.w
    ensures var f := Entry(s, a.e, a.v).frame;
            f in s.mem && 0 <= a.off < |s.mem[f]| && After(s, a) == WriteByte(s, f, a.off, a.val)
  {
    assert EnvOk(s, a.e);
    hide FramesOk, LibraryOk, Exclusive, ChildrenDistinct, HandlerOk, ForkOk;
  }

  /** A store changes no mapping on either side. */
  lemma StoreSpaces(s: State, a: Action)
    requires Enabled(s, a) && a.Store? && RefEnabled(Abs(s), RefStep(s, a))
    ensures After(s, a).envs == s.envs && RefAfter(Abs(s), RefStep(s, a)).live == Abs(s).live
    ensures RefAfter(Abs(s), RefStep(s, a)).spaces.Keys == s.envs.Keys
    ensures forall e :: e in s.envs ==> RefAfter(Abs(s), RefStep(s, a)).spaces[e].Keys == AbsSpace(s, e).Keys
  {
    var q := Abs(s);
    var w := WritePage(q.spaces[a.e][a.v], a.off, a.val);
    forall e | e in s.envs ensures RefAfter(q, RefStep(s, a)).spaces[e].Keys == AbsSpace(s, e).Keys {
      assert w.Shared? ==> StoreShared(q.spaces[e], w.cell, w.data).Keys == q.spaces[e].Keys;
    }
    assert w.Shared? ==> (map e | e in q.spaces :: StoreShared(q.spaces[e], w.cell, w.data)).Keys == q.spaces.Keys;
  }

  /** One page after a store: only the page written, and for LIBRARY its other mappings, have a new byte. */
  lemma StoredPage(s: State, a: Action, e: int, v: int)
    requires Inv(s) && Enabled(s, a) && a.Store? && RefEnabled(Abs(s), RefStep(s, a)) && Visible(s, e, v)
    requires UserCode(s, a.e, a.v) && Visible(s, a.e, a.v) && Entry(s, a.e, a.v).perm.w
    ensures var q' := RefAfter(Abs(s), RefStep(s, a));
            e in q'.spaces && v in q'.spaces[e] && AbsPage(After(s, a), Entry(s, e, v)) == q'.spaces[e][v]
  {
    var pte, own := Entry(s, e, v), Entry(s, a.e, a.v);
    if pte.frame == own.frame && (e != a.e || v != a.v) {
      assert SameFrame(s, a.e, a.v, e, v);
      WritersAlone(s, a.e, a.v, e, v);
    }
    hide Inv;
    assert Abs(s).spaces[e][v] == AbsPage(s, pte) && Abs(s).spaces[a.e][a.v] == AbsPage(s, own);
  }

  // ---------- mapping and unmapping ----------

  /** The excuses of `s` are still excuses in `t`. */
  ghost predicate ExcusesKept(s: State, t: State) {
    s.envs.Keys <= t.envs.Keys &&
    (forall e :: e in s.envs && s.envs[e].fork.ChildDone? ==> t.envs[e].fork == s.envs[e].fork) &&
    (forall e :: e in s.envs && s.envs[e].cow.Remapped? ==> t.envs[e].cow == s.envs[e].cow)
  }

  /** `t` has the mappings of `s`, except that (e, v) is `pte`. */
  ghost predicate MapsOver(s: State, t: State, e: int, v: int, pte: Pte) {
    Maps(t, e, v) && Entry(t, e, v) == pte &&
    (forall e', v' :: e' != e || v' != v ==> (Maps(t, e', v') <==> Maps(s, e', v'))) &&
    (forall e', v' :: (e' != e || v' != v) && Maps(s, e', v') ==> Entry(t, e', v') == Entry(s, e', v'))
  }

  /** Mapping an unused frame creates no sharing. */
  lemma FreshMapKeepsPairs(s: State, t: State, e: int, v: int, pte: Pte)
    requires LibraryOk(s) && Exclusive(s) && Unused(s, pte.frame) && MapsOver(s, t, e, v, pte) && ExcusesKept(s, t)
    ensures LibraryOk(t) && Exclusive(t)
  {
    forall e1, v1, e2, v2 | SameFrame(t, e1, v1, e2, v2) && (e1 != e2 || v1 != v2)
      ensures SameFrame(s, e1, v1, e2, v2) && (e1 != e || v1 != v) && (e2 != e || v2 != v)
    {
    }
  }

  lemma AllocKeepsInv(s: State, a: Action)
    requires Inv(s) && Enabled(s, a) && a.Alloc?
    ensures Inv(After(s, a))
  {
    AllocKeepsFrames(s, a);
    AllocKeepsEnvs(s, a);
    hide FramesOk, LibraryOk, Exclusive, EnvOk, Enabled, After;
  }

  lemma AllocKeepsFrames(s: State, a: Action)
    requires Inv(s) && Enabled(s, a) && a.Alloc?
    ensures FramesOk(After(s, a)) && LibraryOk(After(s, a)) && Exclusive(After(s, a))
  {
    FreshMapKeepsPairs(s, After(s, a), a.e, a.v, Pte(a.f, InsertPerm(a.perm)));
    hide LibraryOk, Exclusive, HandlerOk, ForkOk;
  }

  lemma AllocKeepsEnvs(s: State, a: Action)
    requires Inv(s) && Enabled(s, a) && a.Alloc?
    ensures ChildrenDistinct(After(s, a)) && forall e :: e in After(s, a).envs ==> EnvOk(After(s, a), e)
  {
    hide LibraryOk, Exclusive;
    var t := After(s, a);
    forall e | e in t.envs ensures EnvOk(t, e) {
      assert EnvOk(s, e);
      if s.envs[e].cow.Copied? {
        assert Maps(s, e, UCOW_PN) && Maps(s, e, s.envs[e].cow.v);
      }
    }
  }

  lemma AllocStep(s: State, a: Action)
    requires Inv(s) && Enabled(s, a) && a.Alloc?
    ensures RefEnabled(Abs(s), RefStep(s, a)) && Abs(After(s, a)) == RefAfter(Abs(s), RefStep(s, a))
  {
    var t := After(s, a);
    assert t == State(s.envs[a.e := MapPage(s.envs[a.e], a.v, a.f, a.perm)], s.mem[a.f := ZeroPage()]);
    var p := AbsPage(t, Entry(t, a.e, a.v));
    assert RefStep(s, a) == RefAlloc(a.e, a.v, p);
    assert EnvOk(s, a.e);
    hide FramesOk, LibraryOk, Exclusive, ChildrenDistinct, EnvOk, HandlerOk, ForkOk, Enabled, After, RefStep;
    forall e | e in s.envs && e != a.e ensures AbsSpace(t, e) == AbsSpace(s, e) {
      SameSpaceSameAbs(s, t, e);
    }
    assert Visible(t, a.e, a.v);
    forall v | v != a.v && Maps(s, a.e, v) ensures Visible(t, a.e, v) == Visible(s, a.e, v) {
    }
    assert AbsSpace(t, a.e) == AbsSpace(s, a.e)[a.v := p];
    assert Abs(t).spaces == Abs(s).spaces[a.e := AbsSpace(s, a.e)[a.v := p]];
    assert Abs(t).live == Abs(s).live;
  }

  lemma UnmapKeepsInv(s: State, a: Action)
    requires Inv(s) && Enabled(s, a) && a.Unmap?
    ensures Inv(After(s, a))
  {
    UnmapKeepsFrames(s, a);
    UnmapKeepsEnvs(s, a);
    hide FramesOk, LibraryOk, Exclusive, EnvOk, Enabled, After;
  }

  lemma UnmapKeepsFrames(s: State, a: Action)
    requires Inv(s) && Enabled(s, a) && a.Unmap?
    ensures FramesOk(After(s, a)) && LibraryOk(After(s, a)) && Exclusive(After(s, a))
  {
    var t := After(s, a);
    assert t == SetEnv(s, a.e, UnmapPage(s.envs[a.e], a.v));
    assert EnvOk(s, a.e);
    hide ForkOk, Enabled, After, LibraryOk, Exclusive, FramesOk;
    forall e, v ensures Maps(t, e, v) <==> Maps(s, e, v) && (e != a.e || v != a.v) {
    }
    FewerMapsKeepPairs(s, t);
  }

  lemma UnmapKeepsEnvs(s: State, a: Action)
    requires Inv(s) && Enabled(s, a) && a.Unmap?
    ensures ChildrenDistinct(After(s, a)) && forall e :: e in After(s, a).envs ==> EnvOk(After(s, a), e)
  {
    hide LibraryOk, Exclusive, FramesOk;
    var t := After(s, a);
    forall e | e in t.envs ensures EnvOk(t, e) {
      assert EnvOk(s, e);
    }
  }

  /** Mappings that go away take their sharing with them. */
  lemma FewerMapsKeepPairs(s: State, t: State)
    requires FramesOk(s) && LibraryOk(s) && Exclusive(s) && t.mem == s.mem
    requires forall e, v :: Maps(t, e, v) ==> Maps(s, e, v) && Entry(t, e, v) == Entry(s, e, v)
    requires forall e :: e in t.envs ==> e in s.envs && t.envs[e].fork == s.envs[e].fork
    requires forall e, v :: Maps(t, e, v) && s.envs[e].cow.Remapped? ==>
      t.envs[e].cow == s.envs[e].cow || UCOW_PN !in t.envs[e].space
    ensures FramesOk(t) && LibraryOk(t) && Exclusive(t)
  {
    forall e1, v1, e2, v2 | SameFrame(t, e1, v1, e2, v2) ensures SameFrame(s, e1, v1, e2, v2) {
    }
  }

  lemma UnmapStep(s: State, a: Action)
    requires Inv(s) && Enabled(s, a) && a.Unmap?
    ensures RefEnabled(Abs(s), RefStep(s, a)) && Abs(After(s, a)) == RefAfter(Abs(s), RefStep(s, a))
  {
    var t := After(s, a);
    assert t == SetEnv(s, a.e, UnmapPage(s.envs[a.e], a.v)) && RefStep(s, a) == RefUnmap(a.e, a.v);
    hide FramesOk, LibraryOk, Exclusive, ChildrenDistinct, EnvOk, Enabled, After, RefStep;
    forall e | e in s.envs && e != a.e ensures AbsSpace(t, e) == AbsSpace(s, e) {
      SameSpaceSameAbs(s, t, e);
    }
    forall v | v != a.v && Maps(s, a.e, v) ensures Visible(t, a.e, v) == Visible(s, a.e, v) {
    }
    assert AbsSpace(t, a.e) == AbsSpace(s, a.e) - {a.v};
    assert Abs(t).spaces == Abs(s).spaces[a.e := AbsSpace(s, a.e) - {a.v}];
    assert Abs(t).live == Abs(s).live;
  }

  lemma ExitKeepsInv(s: State, a: Action)
    requires Inv(s) && Enabled(s, a) && a.Exit?
    ensures Inv(After(s, a))
  {
    var t := After(s, a);
    FewerMapsKeepPairs(s, t);
    hide LibraryOk, Exclusive, FramesOk;
    forall e | e in t.envs ensures EnvOk(t, e) {
      assert EnvOk(s, e);
    }
  }

  lemma ExitStep(s: State, a: Action)
    requires Inv(s) && Enabled(s, a) && a.Exit?
    ensures RefEnabled(Abs(s), RefStep(s, a)) && Abs(After(s, a)) == RefAfter(Abs(s), RefStep(s, a))
  {
    var t := After(s, a);
    var q' := RefAfter(Abs(s), RefStep(s, a));
    forall e | e in t.envs ensures AbsSpace(t, e) == q'.spaces[e] {
      forall v | Maps(t, e, v) ensures Visible(s, e, v) <==> Visible(t, e, v) {
      }
    }
  }

  // ---------- steps that change no mapping ----------

  /** Mappings and their excuses are as before. */
  ghost predicate SameMaps(s: State, t: State) {
    t.mem == s.mem &&
    (forall e, v :: Maps(t, e, v) <==> Maps(s, e, v)) &&
    (forall e, v :: Maps(s, e, v) ==> Entry(t, e, v) == Entry(s, e, v))
  }

  lemma SameMapsKeepPairs(s: State, t: State)
    requires FramesOk(s) && LibraryOk(s) && Exclusive(s) && SameMaps(s, t) && ExcusesKept(s, t)
    ensures FramesOk(t) && LibraryOk(t) && Exclusive(t)
  {
    forall e1, v1, e2, v2 | SameFrame(t, e1, v1, e2, v2) ensures SameFrame(s, e1, v1, e2, v2) {
    }
  }

  lemma SameSpacesSameAbs(s: State, t: State)
    requires t.envs.Keys == s.envs.Keys && t.mem == s.mem
    requires forall e :: e in s.envs ==>
      t.envs[e].space == s.envs[e].space && t.envs[e].shown == s.envs[e].shown &&
      t.envs[e].runnable == s.envs[e].runnable
    ensures Abs(t) == Abs(s)
  {
    forall e | e in s.envs ensures AbsSpace(t, e) == AbsSpace(s, e) {
      SameSpaceSameAbs(s, t, e);
    }
    AbsUnchanged(s, t);
  }

  lemma AbsUnchanged(s: State, t: State)
    requires t.envs.Keys == s.envs.Keys
    requires forall e :: e in s.envs ==> t.envs[e].runnable == s.envs[e].runnable
    requires forall e :: e in s.envs ==> AbsSpace(t, e) == AbsSpace(s, e)
    ensures Abs(t) == Abs(s)
  {
    forall x ensures x in Abs(t).live <==> x in Abs(s).live {
      assert x in t.envs.Keys <==> x in s.envs.Keys;
    }
    assert Abs(t).spaces == Abs(s).spaces;
  }

  // ---------- the fault handler ----------

  lemma CowFaultKeepsInv(s: State, a: Action)
    requires Inv(s) && Enabled(s, a) && a.CowFault?
    ensures Inv(After(s, a)) && Abs(After(s, a)) == Abs(s)
  {
    var t := After(s, a);
    SameMapsKeepPairs(s, t);
    SameSpacesSameAbs(s, t);
    hide LibraryOk, Exclusive, FramesOk, Abs;
    forall e | e in t.envs ensures EnvOk(t, e) {
      assert EnvOk(s, e);
    }
  }

  lemma CowAllocKeepsInv(s: State, a: Action)
    requires Inv(s) && Enabled(s, a) && a.CowAlloc?
    ensures Inv(After(s, a))
  {
    var t := After(s, a);
    assert EnvOk(s, a.e);
    assert InsertPerm(s.envs[a.e].cow.perm) == s.envs[a.e].cow.perm;
    FreshMapKeepsPairs(s, t, a.e, UCOW_PN, Pte(a.f, s.envs[a.e].cow.perm));
    hide LibraryOk, Exclusive;
    assert Maps(s, a.e, s.envs[a.e].cow.v);
    assert FramesOk(t);
    forall e | e in t.envs ensures EnvOk(t, e) {
      assert EnvOk(s, e);
      if s.envs[e].cow.Copied? {
        assert Maps(s, e, UCOW_PN) && Maps(s, e, s.envs[e].cow.v);
      }
    }
  }

  lemma CowAllocStep(s: State, a: Action)
    requires Inv(s) && Enabled(s, a) && a.CowAlloc?
    ensures Abs(After(s, a)) == Abs(s)
  {
    var t := After(s, a);
    assert EnvOk(s, a.e);
    hide LibraryOk, Exclusive, FramesOk, ChildrenDistinct, EnvOk;
    forall e | e in t.envs ensures AbsSpace(t, e) == AbsSpace(s, e) {
      forall v ensures Visible(t, e, v) == Visible(s, e, v) {
      }
    }
    AbsUnchanged(s, t);
  }

  /** Until it is mapped at the faulting address, the work page is mapped once. */
  lemma WorkPageAlone(s: State, e: int)
    requires Inv(s) && Running(s, e) && (s.envs[e].cow.Allocated? || s.envs[e].cow.Copied?)
    ensures Maps(s, e, UCOW_PN)
    ensures forall e', v' :: Maps(s, e', v') && (e' != e || v' != UCOW_PN) ==>
      Entry(s, e', v').frame != Entry(s, e, UCOW_PN).frame
  {
    assert EnvOk(s, e);
    forall e', v' | Maps(s, e', v') && (e' != e || v' != UCOW_PN)
      ensures Entry(s, e', v').frame != Entry(s, e, UCOW_PN).frame
    {
      assert !Excused(s, e, UCOW_PN, e', v');
      assert SameFrame(s, e, UCOW_PN, e', v') <==> Entry(s, e', v').frame == Entry(s, e, UCOW_PN).frame;
    }
  }

  /** The handler's copy goes to its work page, which nobody else maps; its source cannot change, since
      a frame that a running env maps COW is written by nobody. */
  lemma CowCopyKeepsInv(s: State, a: Action)
    requires Inv(s) && Enabled(s, a) && a.CowCopy?
    ensures Inv(After(s, a))
  {
    var t := After(s, a);
    var g := Entry(s, a.e, UCOW_PN).frame;
    assert EnvOk(s, a.e);
    forall e, v ensures Maps(t, e, v) <==> Maps(s, e, v) {
    }
    forall e1, v1, e2, v2 ensures SameFrame(t, e1, v1, e2, v2) <==> SameFrame(s, e1, v1, e2, v2) {
    }
    WorkPageAlone(s, a.e);
    hide LibraryOk, Exclusive;
    forall e | e in t.envs ensures EnvOk(t, e) {
      assert EnvOk(s, e);
      if s.envs[e].cow.Copied? {
        assert Maps(s, e, UCOW_PN) && Maps(s, e, s.envs[e].cow.v);
      }
    }
  }

  lemma CowCopyStep(s: State, a: Action)
    requires Inv(s) && Enabled(s, a) && a.CowCopy?
    ensures Abs(After(s, a)) == Abs(s)
  {
    var t := After(s, a);
    assert EnvOk(s, a.e);
    WorkPageAlone(s, a.e);
    hide LibraryOk, Exclusive, FramesOk, ChildrenDistinct, EnvOk;
    forall e | e in t.envs ensures AbsSpace(t, e) == AbsSpace(s, e) {
      forall v ensures Visible(t, e, v) == Visible(s, e, v) {
      }
    }
    AbsUnchanged(s, t);
  }

  /** Replacing a COW entry by the private copy changes nothing that can be observed. */
  lemma CowMapKeepsInv(s: State, a: Action)
    requires Inv(s) && Enabled(s, a) && a.CowMap?
    ensures Inv(After(s, a))
  {
    var t := After(s, a);
    var v := s.envs[a.e].cow.v;
    var g := Entry(s, a.e, UCOW_PN).frame;
    assert EnvOk(s, a.e);
    assert MapsOver(s, t, a.e, v, Pte(g, s.envs[a.e].cow.perm));
    WorkPageAlone(s, a.e);
    CowMapKeepsPairs(s, t, a.e, v, g, s.envs[a.e].cow.perm);
    hide LibraryOk, Exclusive;
    forall e | e in t.envs ensures EnvOk(t, e) {
      assert EnvOk(s, e);
    }
  }

  lemma CowMapStep(s: State, a: Action)
    requires Inv(s) && Enabled(s, a) && a.CowMap?
    ensures Abs(After(s, a)) == Abs(s)
  {
    var t := After(s, a);
    assert EnvOk(s, a.e);
    WorkPageAlone(s, a.e);
    hide LibraryOk, Exclusive, FramesOk, ChildrenDistinct, EnvOk;
    forall e | e in t.envs ensures AbsSpace(t, e) == AbsSpace(s, e) {
      forall v ensures Visible(t, e, v) == Visible(s, e, v) {
      }
    }
    AbsUnchanged(s, t);
  }

  lemma CowMapKeepsPairs(s: State, t: State, e: int, v: int, g: int, p: Perm)
    requires LibraryOk(s) && Exclusive(s) && MapsOver(s, t, e, v, Pte(g, p)) && v != UCOW_PN
    requires Maps(s, e, UCOW_PN) && Entry(s, e, UCOW_PN) == Pte(g, p)
    requires forall e', v' :: Maps(s, e', v') && (e' != e || v' != UCOW_PN) ==> Entry(s, e', v').frame != g
    requires ExcusesKept(s, t) && t.envs[e].cow == Remapped(v)
    ensures LibraryOk(t) && Exclusive(t)
  {
    forall e1, v1, e2, v2 | SameFrame(t, e1, v1, e2, v2) && (e1 != e2 || v1 != v2)
      ensures Entry(t, e1, v1).perm.lib == Entry(t, e2, v2).perm.lib
      ensures Owned(t, e1, v1) ==> Excused(t, e1, v1, e2, v2)
    {
      if (e1 == e && v1 == v) || (e2 == e && v2 == v) {
      } else {
        assert SameFrame(s, e1, v1, e2, v2);
      }
    }
  }

  lemma CowUnmapKeepsInv(s: State, a: Action)
    requires Inv(s) && Enabled(s, a) && a.CowUnmap?
    ensures Inv(After(s, a))
  {
    var t := After(s, a);
    assert EnvOk(s, a.e);
    FewerMapsKeepPairs(s, t);
    hide LibraryOk, Exclusive, FramesOk;
    forall e | e in t.envs ensures EnvOk(t, e) {
      assert EnvOk(s, e);
    }
  }

  lemma CowUnmapStep(s: State, a: Action)
    requires Inv(s) && Enabled(s, a) && a.CowUnmap?
    ensures Abs(After(s, a)) == Abs(s)
  {
    var t := After(s, a);
    assert EnvOk(s, a.e);
    hide LibraryOk, Exclusive, FramesOk, ChildrenDistinct, EnvOk;
    forall e | e in t.envs ensures AbsSpace(t, e) == AbsSpace(s, e) {
      forall v ensures Visible(t, e, v) == Visible(s, e, v) {
      }
    }
    AbsUnchanged(s, t);
  }

  // ---------- fork ----------

  lemma ForkStartKeepsInv(s: State, a: Action)
    requires Inv(s) && Enabled(s, a) && a.ForkStart?
    ensures Inv(After(s, a))
  {
    var t := After(s, a);
    assert EnvOk(s, a.e);
    SameMapsKeepPairs(s, t);
    forall e | Forking(s, e) ensures s.envs[e].fork.child != a.c {
      assert EnvOk(s, e);
    }
    hide LibraryOk, Exclusive, FramesOk;
    assert ChildrenDistinct(t) by {
      forall e | Forking(t, e) && e != a.e ensures Forking(s, e) {
      }
    }
    forall e | e in t.envs ensures EnvOk(t, e) {
      if e != a.c { assert EnvOk(s, e); }
    }
  }

  lemma ForkStartStep(s: State, a: Action)
    requires Inv(s) && Enabled(s, a) && a.ForkStart?
    ensures RefEnabled(Abs(s), RefStep(s, a)) && Abs(After(s, a)) == RefAfter(Abs(s), RefStep(s, a))
  {
    hide LibraryOk, Exclusive, FramesOk, ChildrenDistinct, EnvOk;
    var t := After(s, a);
    forall e | e in s.envs ensures AbsSpace(t, e) == AbsSpace(s, e) {
      SameSpaceSameAbs(s, t, e);
    }
    assert AbsSpace(t, a.c) == map[];
    assert Abs(t).spaces == RefAfter(Abs(s), RefStep(s, a)).spaces;
    assert Abs(t).live == Abs(s).live;
  }

  lemma ForkSkipKeepsInv(s: State, a: Action)
    requires Inv(s) && Enabled(s, a) && a.ForkSkip?
    ensures Inv(After(s, a)) && Abs(After(s, a)) == Abs(s)
  {
    var t := After(s, a);
    var c := s.envs[a.e].fork.child;
    assert EnvOk(s, a.e) && EnvOk(s, c);
    NextPageKeeps(s, a.e);
    hide Inv, LibraryOk, Exclusive, FramesOk, EnvOk, HandlerOk;
    assert AbsSpace(t, c) == AbsSpace(s, c);
    forall e | e in t.envs && e != c ensures AbsSpace(t, e) == AbsSpace(s, e) {
      SameSpaceSameAbs(s, t, e);
    }
    AbsUnchanged(s, t);
  }

  /** Moving on to the next page keeps the invariant once the current page is settled. */
  lemma NextPageKeeps(s: State, e: int)
    requires Inv(s) && Running(s, e) && s.envs[e].cow.Idle? && s.envs[e].fork.Scan? && s.envs[e].fork.i < USTACK_PN
    requires s.envs[e].fork.child in s.envs
    ensures Inv(NextPage(s, e))
  {
    var t := NextPage(s, e);
    var c := s.envs[e].fork.child;
    assert EnvOk(s, e) && EnvOk(s, c);
    SameMapsKeepPairs(s, t);
    hide LibraryOk, Exclusive, FramesOk;
    forall e' | Forking(s, e') && e' != e ensures s.envs[e'].fork.child != c {
    }
    forall e' | e' in t.envs ensures EnvOk(t, e') {
      assert EnvOk(s, e');
    }
  }

  lemma DupLookKeepsInv(s: State, a: Action)
    requires Inv(s) && Enabled(s, a) && a.DupLook?
    ensures Inv(After(s, a)) && Abs(After(s, a)) == Abs(s)
  {
    var t := After(s, a);
    assert EnvOk(s, a.e);
    SameMapsKeepPairs(s, t);
    SameSpacesSameAbs(s, t);
    hide LibraryOk, Exclusive, FramesOk, Abs;
    forall e | e in t.envs ensures EnvOk(t, e) {
      assert EnvOk(s, e);
    }
  }

  lemma ForkEndKeepsInv(s: State, a: Action)
    requires Inv(s) && Enabled(s, a) && a.ForkEnd?
    ensures Inv(After(s, a))
  {
    var t := After(s, a);
    var c := s.envs[a.e].fork.child;
    assert EnvOk(s, a.e) && EnvOk(s, c);
    SameMapsKeepPairs(s, t);
    hide LibraryOk, Exclusive, FramesOk;
    forall e | Forking(s, e) && e != a.e ensures s.envs[e].fork.child != c {
    }
    forall e | e in t.envs ensures EnvOk(t, e) {
      assert EnvOk(s, e);
    }
  }

  lemma ForkEndStep(s: State, a: Action)
    requires Inv(s) && Enabled(s, a) && a.ForkEnd?
    ensures RefEnabled(Abs(s), RefStep(s, a)) && Abs(After(s, a)) == RefAfter(Abs(s), RefStep(s, a))
  {
    var t := After(s, a);
    var c := s.envs[a.e].fork.child;
    assert EnvOk(s, a.e) && EnvOk(s, c);
    assert t.mem == s.mem && t.envs.Keys == s.envs.Keys && RefStep(s, a) == RefRun(c);
    hide LibraryOk, Exclusive, FramesOk, ChildrenDistinct, EnvOk, HandlerOk, Enabled, RefStep;
    assert AbsSpace(t, c) == AbsSpace(s, c);
    forall e | e in t.envs && e != c ensures AbsSpace(t, e) == AbsSpace(s, e) {
      SameSpaceSameAbs(s, t, e);
    }
    assert Abs(t).spaces == Abs(s).spaces;
    assert Abs(t).live == Abs(s).live + {c};
  }

  /** The forking env runs, so nobody excuses sharing with its pages. */
  lemma NotExcusedWith(s: State, e1: int, v1: int, e: int, v: int)
    requires Inv(s) && e1 in s.envs && Running(s, e) && s.envs[e].cow.Idle?
    ensures !Excused(s, e1, v1, e, v)
  {
    assert EnvOk(s, e1);
  }

  lemma PageInTransit(s: State, e: int)
    requires Inv(s) && Running(s, e) && (s.envs[e].fork.Looked? || s.envs[e].fork.ChildDone?)
    ensures ForkOk(s, e) && Maps(s, e, s.envs[e].fork.i) && PermOk(Entry(s, e, s.envs[e].fork.i).perm)
    ensures s.envs[e].fork.Looked? ==> !Maps(s, s.envs[e].fork.child, s.envs[e].fork.i)
  {
    assert EnvOk(s, e);
  }

  /** A step on the forking env and its child leaves all other envs in order. */
  lemma OthersStayOk(s: State, t: State, e: int, c: int)
    requires Inv(s) && Running(s, e) && Forking(s, e) && s.envs[e].fork.child == c && c in s.envs && c != e
    requires t.mem == s.mem && t.envs.Keys == s.envs.Keys
    requires forall x :: x in s.envs && x != e && x != c ==> t.envs[x] == s.envs[x]
    ensures forall x :: x in t.envs && x != e && x != c ==> EnvOk(t, x)
    ensures forall x :: Forking(s, x) && x != e ==> s.envs[x].fork.child != c
  {
    hide LibraryOk, Exclusive, FramesOk;
    forall x | x in t.envs && x != e && x != c ensures EnvOk(t, x) {
      assert EnvOk(s, x) && x in s.envs.Keys;
    }
  }

  // -- duppage of a private writable page: the child's mapping

  lemma DupCowKeepsPairs(s: State, t: State, e: int, c: int, i: int)
    requires Inv(s) && Running(s, e) && s.envs[e].cow.Idle? && s.envs[e].fork.Looked?
    requires c == s.envs[e].fork.child && i == s.envs[e].fork.i && NeedsCow(s.envs[e].fork.perm)
    requires Maps(s, e, i) && MapsOver(s, t, c, i, Pte(Entry(s, e, i).frame, CowPerm(s.envs[e].fork.perm)))
    requires ExcusesKept(s, t) && t.mem == s.mem && t.envs[e].fork == ChildDone(c, i, CowPerm(s.envs[e].fork.perm))
    ensures FramesOk(t) && LibraryOk(t) && Exclusive(t)
  {
    PageInTransit(s, e);
    var f := Entry(s, e, i).frame;
    forall e', v' | Maps(s, e', v') && (e' != e || v' != i) ensures Entry(s, e', v').frame != f {
      assert !Excused(s, e, i, e', v');
      assert SameFrame(s, e, i, e', v') <==> Entry(s, e', v').frame == f;
    }
    forall e1, v1, e2, v2 | SameFrame(t, e1, v1, e2, v2) && (e1 != e2 || v1 != v2)
      ensures Entry(t, e1, v1).perm.lib == Entry(t, e2, v2).perm.lib
      ensures Owned(t, e1, v1) ==> Excused(t, e1, v1, e2, v2)
    {
      if (e1 == c && v1 == i) || (e2 == c && v2 == i) {
      } else {
        assert SameFrame(s, e1, v1, e2, v2);
      }
    }
  }

  lemma DupCowKeepsInv(s: State, a: Action)
    requires Inv(s) && Enabled(s, a) && a.DupChild? && NeedsCow(s.envs[a.e].fork.perm)
    ensures Inv(After(s, a))
  {
    DupCowKeepsFrames(s, a);
    DupCowKeepsEnvs(s, a);
    hide FramesOk, LibraryOk, Exclusive, EnvOk, Enabled, After;
  }

  lemma DupCowKeepsFrames(s: State, a: Action)
    requires Inv(s) && Enabled(s, a) && a.DupChild? && NeedsCow(s.envs[a.e].fork.perm)
    ensures FramesOk(After(s, a)) && LibraryOk(After(s, a)) && Exclusive(After(s, a))
  {
    hide HandlerOk;
    var pc := s.envs[a.e].fork;
    PageInTransit(s, a.e);
    assert EnvOk(s, a.e) && EnvOk(s, pc.child);
    assert MapsOver(s, After(s, a), pc.child, pc.i, Pte(Entry(s, a.e, pc.i).frame, CowPerm(pc.perm)));
    DupCowKeepsPairs(s, After(s, a), a.e, pc.child, pc.i);
    hide LibraryOk, Exclusive, FramesOk;
  }

  lemma DupCowKeepsEnvs(s: State, a: Action)
    requires Inv(s) && Enabled(s, a) && a.DupChild? && NeedsCow(s.envs[a.e].fork.perm)
    ensures ChildrenDistinct(After(s, a)) && forall e :: e in After(s, a).envs ==> EnvOk(After(s, a), e)
  {
    hide LibraryOk, Exclusive, FramesOk;
    var t, pc := After(s, a), s.envs[a.e].fork;
    PageInTransit(s, a.e);
    assert EnvOk(s, a.e) && EnvOk(s, pc.child);
    OthersStayOk(s, t, a.e, pc.child);
    assert EnvOk(t, a.e) && EnvOk(t, pc.child);
  }

  lemma DupCowStep(s: State, a: Action)
    requires Inv(s) && Enabled(s, a) && a.DupChild? && NeedsCow(s.envs[a.e].fork.perm)
    ensures Abs(After(s, a)) == Abs(s)
  {
    hide LibraryOk, Exclusive, FramesOk, ChildrenDistinct, HandlerOk;
    var t := After(s, a);
    var pc := s.envs[a.e].fork;
    PageInTransit(s, a.e);
    assert EnvOk(s, pc.child);
    hide Inv, EnvOk, Enabled;
    assert !Visible(t, pc.child, pc.i);
    forall e | e in t.envs ensures AbsSpace(t, e) == AbsSpace(s, e) {
      forall v | Maps(s, e, v) ensures Visible(t, e, v) == Visible(s, e, v) {
      }
    }
  }

  // -- duppage of any other page

  lemma DupShareKeepsPairs(s: State, t: State, e: int, c: int, i: int, p: Perm)
    requires Inv(s) && Running(s, e) && s.envs[e].cow.Idle? && s.envs[e].fork.Looked?
    requires i == s.envs[e].fork.i && !NeedsCow(p)
    requires Maps(s, e, i) && Entry(s, e, i).perm == p && MapsOver(s, t, c, i, Entry(s, e, i)) && !Maps(s, c, i)
    requires ExcusesKept(s, t) && t.mem == s.mem
    ensures FramesOk(t) && LibraryOk(t) && Exclusive(t)
  {
    var f := Entry(s, e, i).frame;
    forall e', v' | Maps(s, e', v') && Entry(s, e', v').frame == f
      ensures Entry(s, e', v').perm.lib == p.lib && !Owned(s, e', v')
    {
      NotExcusedWith(s, e', v', e, i);
      assert SameFrame(s, e', v', e, i);
    }
    forall e1, v1, e2, v2 | SameFrame(t, e1, v1, e2, v2) && (e1 != e2 || v1 != v2)
      ensures Entry(t, e1, v1).perm.lib == Entry(t, e2, v2).perm.lib
      ensures Owned(t, e1, v1) ==> Excused(t, e1, v1, e2, v2)
    {
      if (e1 == c && v1 == i) || (e2 == c && v2 == i) {
      } else {
        assert SameFrame(s, e1, v1, e2, v2);
      }
    }
  }

  lemma DupShareKeepsInv(s: State, a: Action)
    requires Inv(s) && Enabled(s, a) && a.DupChild? && !NeedsCow(s.envs[a.e].fork.perm)
    ensures Inv(After(s, a))
  {
    DupShareKeepsFrames(s, a);
    DupShareKeepsEnvs(s, a);
    hide FramesOk, LibraryOk, Exclusive, EnvOk, Enabled, After;
  }

  lemma DupShareKeepsFrames(s: State, a: Action)
    requires Inv(s) && Enabled(s, a) && a.DupChild? && !NeedsCow(s.envs[a.e].fork.perm)
    ensures FramesOk(After(s, a)) && LibraryOk(After(s, a)) && Exclusive(After(s, a))
  {
    hide HandlerOk;
    var pc := s.envs[a.e].fork;
    PageInTransit(s, a.e);
    assert EnvOk(s, a.e) && EnvOk(s, pc.child);
    assert InsertPerm(pc.perm) == pc.perm;
    assert MapsOver(s, After(s, a), pc.child, pc.i, Entry(s, a.e, pc.i));
    DupShareKeepsPairs(s, After(s, a), a.e, pc.child, pc.i, pc.perm);
    hide LibraryOk, Exclusive, FramesOk;
  }

  lemma DupShareKeepsEnvs(s: State, a: Action)
    requires Inv(s) && Enabled(s, a) && a.DupChild? && !NeedsCow(s.envs[a.e].fork.perm)
    ensures ChildrenDistinct(After(s, a)) && forall e :: e in After(s, a).envs ==> EnvOk(After(s, a), e)
  {
    hide LibraryOk, Exclusive, FramesOk;
    var t, pc := After(s, a), s.envs[a.e].fork;
    PageInTransit(s, a.e);
    assert EnvOk(s, a.e) && EnvOk(s, pc.child);
    OthersStayOk(s, t, a.e, pc.child);
    assert EnvOk(t, a.e) && EnvOk(t, pc.child);
  }

  /** Handing page i of env e to the not yet running env c is the reference machine's copy step. */
  lemma CopyIsRefCopy(s: State, t: State, e: int, c: int, i: int)
    requires Running(s, e) && Visible(s, e, i) && c in s.envs && !s.envs[c].runnable && c != e
    requires t.envs.Keys == s.envs.Keys && t.mem == s.mem && Maps(t, c, i) && Visible(t, c, i)
    requires forall x :: x in s.envs ==> t.envs[x].runnable == s.envs[x].runnable
    requires forall x :: x in s.envs && x != c ==> AbsSpace(t, x) == AbsSpace(s, x)
    requires AbsSpace(t, c) == AbsSpace(s, c)[i := AbsPage(s, Entry(t, c, i))]
    requires AbsPage(s, Entry(t, c, i)) == AbsPage(s, Entry(s, e, i))
    ensures RefEnabled(Abs(s), RefCopy(e, c, i)) && Abs(t) == RefAfter(Abs(s), RefCopy(e, c, i))
  {
    var q := Abs(s);
    assert q.spaces[e][i] == AbsPage(s, Entry(s, e, i));
    assert RefMaps(q, e, i);
    forall x ensures x in Abs(t).live <==> x in q.live {
      assert x in t.envs.Keys <==> x in s.envs.Keys;
    }
    assert Abs(t).spaces[c] == q.spaces[c][i := q.spaces[e][i]];
    assert Abs(t).spaces == q.spaces[c := q.spaces[c][i := q.spaces[e][i]]];
  }

  lemma DupShareStep(s: State, a: Action)
    requires Inv(s) && Enabled(s, a) && a.DupChild? && !NeedsCow(s.envs[a.e].fork.perm)
    ensures RefEnabled(Abs(s), RefStep(s, a)) && Abs(After(s, a)) == RefAfter(Abs(s), RefStep(s, a))
  {
    var t := After(s, a);
    var pc := s.envs[a.e].fork;
    var c, i := pc.child, pc.i;
    PageInTransit(s, a.e);
    assert EnvOk(s, a.e) && EnvOk(s, c);
    assert InsertPerm(pc.perm) == pc.perm;
    assert Visible(s, a.e, i) && Entry(t, c, i) == Entry(s, a.e, i);
    hide LibraryOk, Exclusive, FramesOk, ChildrenDistinct, EnvOk, ForkOk, HandlerOk, AbsPage, AbsSpace;
    HandedOver(s, t, c, i);
    forall e | e in t.envs && e != c ensures AbsSpace(t, e) == AbsSpace(s, e) {
      SameSpaceSameAbs(s, t, e);
    }
    CopyIsRefCopy(s, t, a.e, c, i);
  }

  /** Page i has become visible in the child; its earlier pages are as they were. */
  lemma HandedOver(s: State, t: State, c: int, i: int)
    requires c in s.envs && c in t.envs && Visible(t, c, i) && s.mem == t.mem
    requires s.envs[c].shown == i && t.envs[c].shown == i + 1
    requires t.envs[c].space == s.envs[c].space[i := Entry(t, c, i)]
    ensures AbsSpace(t, c) == AbsSpace(s, c)[i := AbsPage(s, Entry(t, c, i))]
  {
    forall v | v != i && Maps(s, c, v) ensures Visible(t, c, v) == Visible(s, c, v) {
    }
  }

  // -- the parent's mapping

  lemma DupParentKeepsPairs(s: State, t: State, e: int, c: int, i: int, p: Perm)
    requires Inv(s) && Running(s, e) && s.envs[e].cow.Idle? && s.envs[e].fork == ChildDone(c, i, p)
    requires Maps(s, e, i) && MapsOver(s, t, e, i, Pte(Entry(s, e, i).frame, p)) && t.mem == s.mem
    requires s.envs.Keys <= t.envs.Keys
    requires forall x :: x in s.envs && s.envs[x].cow.Remapped? ==> t.envs[x].cow == s.envs[x].cow
    requires forall x :: x in s.envs && x != e ==> t.envs[x].fork == s.envs[x].fork
    ensures FramesOk(t) && LibraryOk(t) && Exclusive(t)
  {
    PageInTransit(s, e);
    forall e1, v1, e2, v2 | SameFrame(t, e1, v1, e2, v2) && (e1 != e2 || v1 != v2)
      ensures Entry(t, e1, v1).perm.lib == Entry(t, e2, v2).perm.lib
      ensures Owned(t, e1, v1) ==> Excused(t, e1, v1, e2, v2)
    {
      assert SameFrame(s, e1, v1, e2, v2);
      if e2 == e && v2 == i {
        NotExcusedWith(s, e1, v1, e, i);
      }
    }
  }

  lemma DupParentKeepsInv(s: State, a: Action)
    requires Inv(s) && Enabled(s, a) && a.DupParent?
    ensures Inv(After(s, a))
  {
    DupParentKeepsFrames(s, a);
    DupParentKeepsEnvs(s, a);
    hide FramesOk, LibraryOk, Exclusive, EnvOk, Enabled, After;
  }

  lemma DupParentKeepsFrames(s: State, a: Action)
    requires Inv(s) && Enabled(s, a) && a.DupParent?
    ensures FramesOk(After(s, a)) && LibraryOk(After(s, a)) && Exclusive(After(s, a))
  {
    hide HandlerOk;
    var pc := s.envs[a.e].fork;
    PageInTransit(s, a.e);
    assert EnvOk(s, a.e) && EnvOk(s, pc.child);
    assert MapsOver(s, After(s, a), a.e, pc.i, Pte(Entry(s, a.e, pc.i).frame, pc.perm));
    DupParentKeepsPairs(s, After(s, a), a.e, pc.child, pc.i, pc.perm);
    hide LibraryOk, Exclusive, FramesOk;
  }

  lemma DupParentKeepsEnvs(s: State, a: Action)
    requires Inv(s) && Enabled(s, a) && a.DupParent?
    ensures ChildrenDistinct(After(s, a)) && forall e :: e in After(s, a).envs ==> EnvOk(After(s, a), e)
  {
    hide LibraryOk, Exclusive, FramesOk;
    var t, pc := After(s, a), s.envs[a.e].fork;
    PageInTransit(s, a.e);
    assert EnvOk(s, a.e) && EnvOk(s, pc.child);
    OthersStayOk(s, t, a.e, pc.child);
    assert EnvOk(t, a.e) && EnvOk(t, pc.child);
  }

  lemma DupParentStep(s: State, a: Action)
    requires Inv(s) && Enabled(s, a) && a.DupParent?
    ensures RefEnabled(Abs(s), RefStep(s, a)) && Abs(After(s, a)) == RefAfter(Abs(s), RefStep(s, a))
  {
    var t := After(s, a);
    var pc := s.envs[a.e].fork;
    var c, i := pc.child, pc.i;
    PageInTransit(s, a.e);
    assert EnvOk(s, a.e) && EnvOk(s, c);
    assert Visible(s, a.e, i) && Entry(t, c, i) == Pte(Entry(s, a.e, i).frame, CowPerm(Entry(s, a.e, i).perm));
    assert AbsPage(s, Entry(t, c, i)) == AbsPage(s, Entry(s, a.e, i));
    hide LibraryOk, Exclusive, FramesOk, ChildrenDistinct, EnvOk, ForkOk, HandlerOk;
    HandedOver(s, t, c, i);
    forall e | e in t.envs && e != c ensures AbsSpace(t, e) == AbsSpace(s, e) {
      if e == a.e {
        assert AbsPage(t, Entry(t, e, i)) == AbsPage(s, Entry(s, e, i));
        forall v ensures Visible(t, e, v) == Visible(s, e, v) {
        }
      } else {
        SameSpaceSameAbs(s, t, e);
      }
    }
    CopyIsRefCopy(s, t, a.e, c, i);
  }

  // ---------- every step, every run ----------

  /** One step of fork.c keeps the invariant and is one step, or no step, of the reference machine. */
  lemma StepRefines(s: State, a: Action)
    requires Inv(s) && Enabled(s, a)
    ensures Inv(After(s, a))
    ensures RefEnabled(Abs(s), RefStep(s, a)) && Abs(After(s, a)) == RefAfter(Abs(s), RefStep(s, a))
  {
    hide Inv, Abs, RefAfter, Enabled, After;
    match a
    case Load(_, _, _, _) => LoadStep(s, a); LoadKeepsInv(s, a);
    case Store(_, _, _, _) => StoreStep(s, a); StoreKeepsInv(s, a);
    case Alloc(_, _, _, _) => AllocStep(s, a); AllocKeepsInv(s, a);
    case Unmap(_, _) => UnmapStep(s, a); UnmapKeepsInv(s, a);
    case Exit(_) => ExitStep(s, a); ExitKeepsInv(s, a);
    case ForkStart(_, _) => ForkStartStep(s, a); ForkStartKeepsInv(s, a);
    case ForkEnd(_) => ForkEndStep(s, a); ForkEndKeepsInv(s, a);
    case DupParent(_) => DupParentStep(s, a); DupParentKeepsInv(s, a);
    case DupChild(_) => DupChildStep(s, a);
    case _ => QuietStep(s, a);
  }

  lemma LoadKeepsInv(s: State, a: Action)
    requires Inv(s) && Enabled(s, a) && a.Load?
    ensures Inv(After(s, a))
  {}

  lemma DupChildStep(s: State, a: Action)
    requires Inv(s) && Enabled(s, a) && a.DupChild?
    ensures Inv(After(s, a))
    ensures RefEnabled(Abs(s), RefStep(s, a)) && Abs(After(s, a)) == RefAfter(Abs(s), RefStep(s, a))
  {
    if NeedsCow(s.envs[a.e].fork.perm) {
      hide Inv, Abs;
      DupCowKeepsInv(s, a);
      DupCowStep(s, a);
    } else {
      hide Inv, Abs;
      DupShareKeepsInv(s, a);
      DupShareStep(s, a);
    }
  }

  /** The steps of which the reference machine sees nothing. */
  lemma QuietStep(s: State, a: Action)
    requires Inv(s) && Enabled(s, a)
    requires a.CowFault? || a.CowAlloc? || a.CowCopy? || a.CowMap? || a.CowUnmap? || a.ForkSkip? || a.DupLook?
    ensures Inv(After(s, a))
    ensures RefEnabled(Abs(s), RefStep(s, a)) && Abs(After(s, a)) == RefAfter(Abs(s), RefStep(s, a))
  {
    hide Inv, Abs, Enabled, After;
    match a
    case CowFault(_, _) => CowFaultKeepsInv(s, a);
    case CowAlloc(_, _) => CowAllocStep(s, a); CowAllocKeepsInv(s, a);
    case CowCopy(_) => CowCopyStep(s, a); CowCopyKeepsInv(s, a);
    case CowMap(_) => CowMapStep(s, a); CowMapKeepsInv(s, a);
    case CowUnmap(_) => CowUnmapStep(s, a); CowUnmapKeepsInv(s, a);
    case ForkSkip(_) => ForkSkipKeepsInv(s, a);
    case DupLook(_) => DupLookKeepsInv(s, a);
  }

  /** A run of fork.c: the actions in order, each enabled when it is taken. */
  ghost predicate Runs(s: State, acts: seq<Action>, t: State)
    decreases |acts|
  {
    if acts == [] then s == t
    else Enabled(s, acts[0]) && Runs(After(s, acts[0]), acts[1..], t)
  }

  /** The run of the reference machine that goes with it. */
  ghost function RefActs(s: State, acts: seq<Action>, t: State): (r: seq<RefAction>)
    requires Runs(s, acts, t)
    decreases |acts|
  {
    if acts == [] then [] else [RefStep(s, acts[0])] + RefActs(After(s, acts[0]), acts[1..], t)
  }

  ghost predicate RefRuns(q: RefState, acts: seq<RefAction>, r: RefState)
    decreases |acts|
  {
    if acts == [] then q == r
    else RefEnabled(q, acts[0]) && RefRuns(RefAfter(q, acts[0]), acts[1..], r)
  }

  /** Copy-on-write fork refines eager copy: every run of fork.c, by any number of envs in any
      interleaving, is a run of the machine that copies at once, with the same loads and stores. */
  lemma {:induction false} CowRefinesEager(s: State, acts: seq<Action>, t: State)
    requires Inv(s) && Runs(s, acts, t)
    ensures Inv(t) && RefRuns(Abs(s), RefActs(s, acts, t), Abs(t))
    decreases |acts|
  {
    if acts != [] {
      StepRefines(s, acts[0]);
      CowRefinesEager(After(s, acts[0]), acts[1..], t);
      var r := RefActs(s, acts, t);
      assert r[0] == RefStep(s, acts[0]) && r[1..] == RefActs(After(s, acts[0]), acts[1..], t);
    }
  }

  /** Loads and stores are the same in both runs: same env, page, offset and byte. */
  lemma {:induction false} SameAccesses(s: State, acts: seq<Action>, t: State, k: nat)
    requires Runs(s, acts, t) && k < |acts|
    ensures |RefActs(s, acts, t)| == |acts|
    ensures acts[k].Load? ==> RefActs(s, acts, t)[k] == RefLoad(acts[k].e, acts[k].v, acts[k].off, acts[k].val)
    ensures acts[k].Store? ==> RefActs(s, acts, t)[k] == RefStore(acts[k].e, acts[k].v, acts[k].off, acts[k].val)
    decreases |acts|
  {
    if |acts| > 1 {
      SameAccesses(After(s, acts[0]), acts[1..], t, if k == 0 then 0 else k - 1);
    } else {
      assert RefActs(s, acts, t) == [RefStep(s, acts[0])] + RefActs(After(s, acts[0]), acts[1..], t);
    }
  }

  /** The system before the first fork: any running envs whose pages are not shared. */
  lemma InitialInv(s: State)
    requires FramesOk(s) && LibraryOk(s)
    requires forall e :: e in s.envs ==>
      s.envs[e].runnable && s.envs[e].shown == UTOP_PN && s.envs[e].fork.NoFork? && s.envs[e].cow.Idle? &&
      UCOW_PN !in s.envs[e].space
    requires forall e1, v1, e2, v2 :: SameFrame(s, e1, v1, e2, v2) && (e1 != e2 || v1 != v2) ==> !Owned(s, e1, v1)
    ensures Inv(s)
  {}
}
