/** Copy-on-write fork (user/lib/fork.c) as a transition system over any number of envs that run
    user code, fork and fault at the same time. Each system call of fork.c is one step; the steps of
    different envs interleave freely. The reference machine at the end of the file has no
    copy-on-write: its fork copies a page the moment it is handed to the child. */
module CowModel {
  const BY2PG := 4096
  const USTACK_PN := 0x7_f3fe  // USTACKTOP >> PGSHIFT
  const UCOW_PN := 0x3ff
  const UTOP_PN := 0x7_f400

  type Page = seq<int>

  /** The low ten bits of a page-table entry; `rest` are the bits that fork.c only passes on. */
  datatype Perm = Perm(r: bool, w: bool, cow: bool, lib: bool, rest: int)

  datatype Pte = Pte(frame: int, perm: Perm)

  /** Where an env is inside `fork`; `i` is the page number of the loop. */
  datatype ForkPc =
    | NoFork
    | Scan(child: int, i: int)
    | Looked(child: int, i: int, perm: Perm)     // vpt[i] has been read
    | ChildDone(child: int, i: int, perm: Perm)  // mapped in the child, not yet in the parent

  /** Where an env is inside `cow_entry`; `perm` is the permission the private copy will have. */
  datatype CowPc =
    | Idle
    | Saved(v: int, perm: Perm)
    | Allocated(v: int, perm: Perm)
    | Copied(v: int, perm: Perm)
    | Remapped(v: int)

  /** `shown` bounds the pages that have been handed over completely while the env is being built. */
  datatype Env = Env(space: map<int, Pte>, runnable: bool, shown: int, fork: ForkPc, cow: CowPc)

  datatype State = State(envs: map<int, Env>, mem: map<int, Page>)

  datatype Action =
    | Load(e: int, v: int, off: int, val: int)
    | Store(e: int, v: int, off: int, val: int)
    | Alloc(e: int, v: int, perm: Perm, f: int)
    | Unmap(e: int, v: int)
    | Exit(e: int)
    | CowFault(e: int, v: int)
    | CowAlloc(e: int, f: int)
    | CowCopy(e: int)
    | CowMap(e: int)
    | CowUnmap(e: int)
    | ForkStart(e: int, c: int)
    | ForkSkip(e: int)
    | DupLook(e: int)
    | DupChild(e: int)
    | DupParent(e: int)
    | ForkEnd(e: int)

  function ZeroPage(): Page { seq(BY2PG, _ => 0) }

  /** `page_insert` makes writable pages readable. */
  function InsertPerm(p: Perm): Perm { if p.w then p.(r := true) else p }

  /** The permission under which duppage hands a private writable page to both sides. */
  function CowPerm(p: Perm): Perm { p.(w := false, cow := true) }

  /** The permission of the private copy made by cow_entry. */
  function OwnPerm(p: Perm): Perm { InsertPerm(p.(cow := false, w := true)) }

  predicate NeedsCow(p: Perm) { p.w && !p.cow && !p.lib }

  // ---------- reading the state ----------

  predicate Maps(s: State, e: int, v: int) { e in s.envs && v in s.envs[e].space }

  function Entry(s: State, e: int, v: int): Pte
    requires Maps(s, e, v)
  {
    s.envs[e].space[v]
  }

  /** A frame that page_alloc may return: it exists and no env maps it. */
  ghost predicate Unused(s: State, f: int) {
    f in s.mem && forall e, v :: Maps(s, e, v) ==> Entry(s, e, v).frame != f
  }

  predicate Running(s: State, e: int) { e in s.envs && s.envs[e].runnable }

  /** User code proper; inside the fault handler only the pages above USTACKTOP are in use. */
  predicate UserCode(s: State, e: int, v: int) {
    Running(s, e) && v != UCOW_PN && 0 <= v < UTOP_PN &&
    (s.envs[e].cow.Idle? || (v >= USTACK_PN && v != s.envs[e].cow.v))
  }

  /** The page that an env is handing over right now. */
  predicate InTransit(s: State, e: int, v: int) {
    e in s.envs &&
    ((s.envs[e].fork.Looked? && s.envs[e].fork.i == v) || (s.envs[e].fork.ChildDone? && s.envs[e].fork.i == v))
  }

  predicate PermOk(p: Perm) { !(p.w && p.cow) && !(p.lib && p.cow) && (p.w || p.cow ==> p.r) }

  // ---------- writing the state ----------

  function SetEnv(s: State, e: int, env: Env): State { State(s.envs[e := env], s.mem) }

  function MapPage(env: Env, v: int, frame: int, perm: Perm): Env {
    Env(env.space[v := Pte(frame, InsertPerm(perm))], env.runnable, env.shown, env.fork, env.cow)
  }

  function UnmapPage(env: Env, v: int): Env {
    Env(env.space - {v}, env.runnable, env.shown, env.fork, env.cow)
  }

  function WithFork(env: Env, pc: ForkPc): Env { Env(env.space, env.runnable, env.shown, pc, env.cow) }

  function WithCow(env: Env, pc: CowPc): Env { Env(env.space, env.runnable, env.shown, env.fork, pc) }

  function WithShown(env: Env, n: int): Env { Env(env.space, env.runnable, n, env.fork, env.cow) }

  function WriteByte(s: State, f: int, off: int, val: int): State
    requires f in s.mem && 0 <= off < |s.mem[f]|
  {
    State(s.envs, s.mem[f := s.mem[f][off := val]])
  }

  // ---------- the steps ----------

  ghost predicate Enabled(s: State, a: Action) {
    match a
    case Load(e, v, off, val) =>
      UserCode(s, e, v) && Maps(s, e, v) && Entry(s, e, v).perm.r && 0 <= off < BY2PG &&
      Entry(s, e, v).frame in s.mem && off < |s.mem[Entry(s, e, v).frame]| && s.mem[Entry(s, e, v).frame][off] == val
    case Store(e, v, off, val) =>
      UserCode(s, e, v) && Maps(s, e, v) && Entry(s, e, v).perm.w && 0 <= off < BY2PG &&
      Entry(s, e, v).frame in s.mem && off < |s.mem[Entry(s, e, v).frame]|
    case Alloc(e, v, perm, f) =>
      UserCode(s, e, v) && !InTransit(s, e, v) && PermOk(InsertPerm(perm)) && Unused(s, f)
    case Unmap(e, v) => UserCode(s, e, v) && !InTransit(s, e, v)
    case Exit(e) => Running(s, e)
    // A store to a COW page. It must not hit the page whose entry fork has just read.
    case CowFault(e, v) =>
      UserCode(s, e, v) && s.envs[e].cow.Idle? && Maps(s, e, v) && Entry(s, e, v).perm.cow && !InTransit(s, e, v)
    case CowAlloc(e, f) => Running(s, e) && s.envs[e].cow.Saved? && Unused(s, f)
    case CowCopy(e) =>
      Running(s, e) && s.envs[e].cow.Allocated? && Maps(s, e, UCOW_PN) && Maps(s, e, s.envs[e].cow.v) &&
      Entry(s, e, s.envs[e].cow.v).frame in s.mem
    case CowMap(e) => Running(s, e) && s.envs[e].cow.Copied? && Maps(s, e, UCOW_PN)
    case CowUnmap(e) => Running(s, e) && s.envs[e].cow.Remapped?
    case ForkStart(e, c) => Running(s, e) && s.envs[e].cow.Idle? && s.envs[e].fork.NoFork? && c !in s.envs
    case ForkSkip(e) =>
      Running(s, e) && s.envs[e].cow.Idle? && s.envs[e].fork.Scan? && s.envs[e].fork.i < USTACK_PN &&
      s.envs[e].fork.i !in s.envs[e].space && s.envs[e].fork.child in s.envs
    case DupLook(e) =>
      Running(s, e) && s.envs[e].cow.Idle? && s.envs[e].fork.Scan? && s.envs[e].fork.i < USTACK_PN &&
      s.envs[e].fork.i in s.envs[e].space
    case DupChild(e) =>
      Running(s, e) && s.envs[e].cow.Idle? && s.envs[e].fork.Looked? && Maps(s, e, s.envs[e].fork.i) &&
      s.envs[e].fork.child in s.envs && s.envs[e].fork.child != e
    case DupParent(e) =>
      Running(s, e) && s.envs[e].cow.Idle? && s.envs[e].fork.ChildDone? && Maps(s, e, s.envs[e].fork.i) &&
      s.envs[e].fork.child in s.envs && s.envs[e].fork.child != e
    case ForkEnd(e) =>
      Running(s, e) && s.envs[e].cow.Idle? && s.envs[e].fork.Scan? && s.envs[e].fork.i == USTACK_PN &&
      s.envs[e].fork.child in s.envs && s.envs[e].fork.child != e
  }

  ghost function After(s: State, a: Action): State
    requires Enabled(s, a)
  {
    match a
    case Load(e, v, off, val) => s
    case Store(e, v, off, val) => WriteByte(s, Entry(s, e, v).frame, off, val)
    case Alloc(e, v, perm, f) =>
      State(s.envs[e := MapPage(s.envs[e], v, f, perm)], s.mem[f := ZeroPage()])
    case Unmap(e, v) => SetEnv(s, e, UnmapPage(s.envs[e], v))
    case Exit(e) => State(s.envs - {e}, s.mem)
    case CowFault(e, v) =>
      // vpt[VPN(va)] & 0x3FF, then drop COW and add W
      SetEnv(s, e, WithCow(s.envs[e], Saved(v, OwnPerm(Entry(s, e, v).perm))))
    case CowAlloc(e, f) =>
      var pc := s.envs[e].cow;
      State(s.envs[e := WithCow(MapPage(s.envs[e], UCOW_PN, f, pc.perm), Allocated(pc.v, pc.perm))],
            s.mem[f := ZeroPage()])
    case CowCopy(e) =>
      var pc := s.envs[e].cow;
      State(s.envs[e := WithCow(s.envs[e], Copied(pc.v, pc.perm))],
            s.mem[Entry(s, e, UCOW_PN).frame := s.mem[Entry(s, e, pc.v).frame]])
    case CowMap(e) =>
      var pc := s.envs[e].cow;
      SetEnv(s, e, WithCow(MapPage(s.envs[e], pc.v, Entry(s, e, UCOW_PN).frame, pc.perm), Remapped(pc.v)))
    case CowUnmap(e) => SetEnv(s, e, WithCow(UnmapPage(s.envs[e], UCOW_PN), Idle))
    case ForkStart(e, c) =>
      State(s.envs[c := Env(map[], false, 0, NoFork, Idle)][e := WithFork(s.envs[e], Scan(c, 0))], s.mem)
    case ForkSkip(e) => NextPage(s, e)
    case DupLook(e) =>
      var pc := s.envs[e].fork;
      SetEnv(s, e, WithFork(s.envs[e], Looked(pc.child, pc.i, s.envs[e].space[pc.i].perm)))
    case DupChild(e) =>
      var pc := s.envs[e].fork;
      if NeedsCow(pc.perm) then
        // First the child ...
        SetEnv(SetEnv(s, pc.child, MapPage(s.envs[pc.child], pc.i, Entry(s, e, pc.i).frame, CowPerm(pc.perm))),
               e, WithFork(s.envs[e], ChildDone(pc.child, pc.i, CowPerm(pc.perm))))
      else
        NextPage(SetEnv(s, pc.child, MapPage(s.envs[pc.child], pc.i, Entry(s, e, pc.i).frame, pc.perm)), e)
    case DupParent(e) =>
      // ... then the parent
      var pc := s.envs[e].fork;
      NextPage(SetEnv(s, e, MapPage(s.envs[e], pc.i, Entry(s, e, pc.i).frame, pc.perm)), e)
    case ForkEnd(e) =>
      var c := s.envs[e].fork.child;
      SetEnv(SetEnv(s, c, Env(s.envs[c].space, true, UTOP_PN, s.envs[c].fork, s.envs[c].cow)),
             e, WithFork(s.envs[e], NoFork))
  }

  /** The loop counter of the forking env advances; the child's pages below it are complete. */
  function NextPage(s: State, e: int): State
    requires e in s.envs && !s.envs[e].fork.NoFork? && s.envs[e].fork.child in s.envs
  {
    var pc := s.envs[e].fork;
    SetEnv(SetEnv(s, pc.child, WithShown(s.envs[pc.child], pc.i + 1)), e, WithFork(s.envs[e], Scan(pc.child, pc.i + 1)))
  }

  // ---------- the reference machine ----------

  /** A page of the reference machine. Pages of one `cell` are one page seen in several places. */
  datatype RefPage =
    | Private(data: Page, r: bool, w: bool, rest: int)
    | Shared(cell: int, data: Page, r: bool, w: bool, rest: int)

  datatype RefState = RefState(spaces: map<int, map<int, RefPage>>, live: set<int>)

  datatype RefAction =
    | RefLoad(e: int, v: int, off: int, val: int)
    | RefStore(e: int, v: int, off: int, val: int)
    | RefAlloc(e: int, v: int, page: RefPage)
    | RefUnmap(e: int, v: int)
    | RefExit(e: int)
    | RefFork(e: int, c: int)
    | RefCopy(e: int, c: int, v: int)
    | RefRun(c: int)
    | RefNothing

  predicate RefMaps(q: RefState, e: int, v: int) { e in q.spaces && v in q.spaces[e] }

  ghost predicate RefEnabled(q: RefState, a: RefAction) {
    match a
    case RefLoad(e, v, off, val) =>
      e in q.live && RefMaps(q, e, v) && q.spaces[e][v].r && 0 <= off < |q.spaces[e][v].data| &&
      q.spaces[e][v].data[off] == val
    case RefStore(e, v, off, val) =>
      e in q.live && RefMaps(q, e, v) && q.spaces[e][v].w && 0 <= off < |q.spaces[e][v].data|
    case RefAlloc(e, v, page) =>
      e in q.live && e in q.spaces && page.data == ZeroPage() &&
      (page.Shared? ==> forall e', v' :: RefMaps(q, e', v') && q.spaces[e'][v'].Shared? ==> q.spaces[e'][v'].cell != page.cell)
    case RefUnmap(e, v) => e in q.live && e in q.spaces
    case RefExit(e) => e in q.live
    case RefFork(e, c) => e in q.live && c !in q.spaces
    case RefCopy(e, c, v) => e in q.live && c in q.spaces && c !in q.live && RefMaps(q, e, v)
    case RefRun(c) => c in q.spaces && c !in q.live
    case RefNothing => true
  }

  function WritePage(p: RefPage, off: int, val: int): RefPage
    requires 0 <= off < |p.data|
  {
    p.(data := p.data[off := val])
  }

  /** A store to a shared page is seen wherever its cell is mapped. */
  function StoreShared(m: map<int, RefPage>, cell: int, data: Page): map<int, RefPage> {
    map v | v in m :: if m[v].Shared? && m[v].cell == cell then m[v].(data := data) else m[v]
  }

  ghost function RefAfter(q: RefState, a: RefAction): RefState
    requires RefEnabled(q, a)
  {
    match a
    case RefLoad(e, v, off, val) => q
    case RefStore(e, v, off, val) =>
      var p := WritePage(q.spaces[e][v], off, val);
      if p.Private? then RefState(q.spaces[e := q.spaces[e][v := p]], q.live)
      else RefState(map e' | e' in q.spaces :: StoreShared(q.spaces[e'], p.cell, p.data), q.live)
    case RefAlloc(e, v, page) => RefState(q.spaces[e := q.spaces[e][v := page]], q.live)
    case RefUnmap(e, v) => RefState(q.spaces[e := q.spaces[e] - {v}], q.live)
    case RefExit(e) => RefState(q.spaces - {e}, q.live - {e})
    case RefFork(e, c) => RefState(q.spaces[c := map[]], q.live)
    case RefCopy(e, c, v) => RefState(q.spaces[c := q.spaces[c][v := q.spaces[e][v]]], q.live)
    case RefRun(c) => RefState(q.spaces, q.live + {c})
    case RefNothing => q
  }

  // ---------- the refinement map ----------

  ghost function AbsPage(s: State, t: Pte): RefPage {
    var data := if t.frame in s.mem then s.mem[t.frame] else [];
    if t.perm.lib then Shared(t.frame, data, t.perm.r, t.perm.w, t.perm.rest)
    else Private(data, t.perm.r, t.perm.w || t.perm.cow, t.perm.rest)
  }

  /** A page that counts: mapped, not the handler's work page, and handed over completely. */
  predicate Visible(s: State, e: int, v: int) {
    Maps(s, e, v) && v != UCOW_PN && v < s.envs[e].shown
  }

  ghost function AbsSpace(s: State, e: int): map<int, RefPage>
    requires e in s.envs
  {
    map v | v in s.envs[e].space && Visible(s, e, v) :: AbsPage(s, s.envs[e].space[v])
  }

  /** What the envs can observe: where a page carries COW the reference page is writable. */
  ghost function Abs(s: State): RefState {
    RefState(map e | e in s.envs :: AbsSpace(s, e), set e | e in s.envs && s.envs[e].runnable)
  }

  /** The step of the reference machine that a step of fork.c stands for. The copy happens with the
      last of the two map calls. */
  ghost function RefStep(s: State, a: Action): RefAction
    requires Enabled(s, a)
  {
    match a
    case Load(e, v, off, val) => RefLoad(e, v, off, val)
    case Store(e, v, off, val) => RefStore(e, v, off, val)
    case Alloc(e, v, perm, f) =>
      RefAlloc(e, v, AbsPage(State(s.envs, s.mem[f := ZeroPage()]), Pte(f, InsertPerm(perm))))
    case Unmap(e, v) => RefUnmap(e, v)
    case Exit(e) => RefExit(e)
    case ForkStart(e, c) => RefFork(e, c)
    case DupChild(e) =>
      var pc := s.envs[e].fork;
      if NeedsCow(pc.perm) then RefNothing else CopyStep(e, pc.child, pc.i)
    case DupParent(e) => CopyStep(e, s.envs[e].fork.child, s.envs[e].fork.i)
    case ForkEnd(e) => RefRun(s.envs[e].fork.child)
    case _ => RefNothing
  }

  ghost function CopyStep(e: int, c: int, v: int): RefAction { RefCopy(e, c, v) }
}
