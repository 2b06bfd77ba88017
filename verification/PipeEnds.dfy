/** End-of-pipe detection of user/lib/pipe.c by reference counts: who maps the two Fd pages and the data
    page of a pipe while any number of environments close their ends. */
module PipeEnds {
  datatype End = Read | Write

  /** What one open descriptor of the pipe maps: the Fd page and the data page, the data page only
      (pipe_close has unmapped the Fd page), nothing, or the Fd page only (dup is on its way). */
  datatype Stage = Open | Half | Closed | FdOnly

  datatype Handle = Handle(end: End, stage: Stage)

  function One(b: bool): nat { if b then 1 else 0 }

  predicate MapsFd(h: Handle, e: End) { h.end == e && (h.stage == Open || h.stage == FdOnly) }
  predicate MapsData(h: Handle) { h.stage == Open || h.stage == Half }

  /** pp_ref of the Fd page of one end. */
  function FdRefs(hs: seq<Handle>, e: End): nat {
    if hs == [] then 0 else FdRefs(hs[..|hs| - 1], e) + One(MapsFd(hs[|hs| - 1], e))
  }

  /** pp_ref of the data page. */
  function DataRefs(hs: seq<Handle>): nat {
    if hs == [] then 0 else DataRefs(hs[..|hs| - 1]) + One(MapsData(hs[|hs| - 1]))
  }

  /** Descriptors in the middle of being closed. */
  function HalfOpen(hs: seq<Handle>): nat {
    if hs == [] then 0 else HalfOpen(hs[..|hs| - 1]) + One(hs[|hs| - 1].stage == Half)
  }

  /** Descriptors that dup or fork is in the middle of making. */
  function Dups(hs: seq<Handle>): nat {
    if hs == [] then 0 else Dups(hs[..|hs| - 1]) + One(hs[|hs| - 1].stage == FdOnly)
  }

  function Other(e: End): End { if e == Read then Write else Read }

  /** No dup is on its way. */
  ghost predicate Closing(hs: seq<Handle>) {
    forall k :: 0 <= k < |hs| ==> hs[k].stage != FdOnly
  }

  /** A close step of one handle: first the Fd page, then the data page. */
  ghost predicate CloseStep(hs: seq<Handle>, ts: seq<Handle>, k: int) {
    0 <= k < |hs| && (hs[k].stage == Open || hs[k].stage == Half) &&
    ts == hs[k := hs[k].(stage := if hs[k].stage == Open then Half else Closed)]
  }

  /** Exact accounting at every step of opening, closing and duplicating descriptors. */
  lemma {:induction false} RefsAddUp(hs: seq<Handle>)
    ensures DataRefs(hs) + Dups(hs) == FdRefs(hs, Read) + FdRefs(hs, Write) + HalfOpen(hs)
  {
    if hs != [] {
      RefsAddUp(hs[..|hs| - 1]);
    }
  }

  lemma {:induction false} ClosingHasNoDups(hs: seq<Handle>)
    ensures Closing(hs) <==> Dups(hs) == 0
  {
    if hs != [] {
      var rest, h := hs[..|hs| - 1], hs[|hs| - 1];
      ClosingHasNoDups(rest);
      assert forall k :: 0 <= k < |rest| ==> rest[k] == hs[k];
      assert Closing(hs) <==> Closing(rest) && h.stage != FdOnly;
    }
  }

  lemma StepKeepsClosing(hs: seq<Handle>, ts: seq<Handle>, k: int)
    requires Closing(hs) && CloseStep(hs, ts, k)
    ensures Closing(ts)
  {}

  /** The test of `_pipe_is_closed` on one snapshot. */
  predicate LooksClosed(hs: seq<Handle>, e: End) { FdRefs(hs, e) == DataRefs(hs) }

  /** What the test says of any list of descriptors. */
  lemma LooksClosedExactly(hs: seq<Handle>, e: End)
    ensures LooksClosed(hs, e) <==> FdRefs(hs, Other(e)) + HalfOpen(hs) == Dups(hs)
  {
    RefsAddUp(hs);
  }

  /** While descriptors are only closed, "closed" is never reported with the other end open, and it is
      reported exactly when the other end has no descriptor and no close of either end is unfinished. */
  lemma ClosedExactly(hs: seq<Handle>, e: End)
    requires Closing(hs)
    ensures LooksClosed(hs, e) <==> FdRefs(hs, Other(e)) == 0 && HalfOpen(hs) == 0
  {
    LooksClosedExactly(hs, e);
    ClosingHasNoDups(hs);
  }

  /** What the counts mean for single descriptors. */
  lemma {:induction false} NoRefsNoOpen(hs: seq<Handle>, e: End, k: int)
    requires FdRefs(hs, e) == 0 && 0 <= k < |hs|
    ensures !(hs[k].end == e && hs[k].stage == Open)
  {
    var rest := hs[..|hs| - 1];
    assert FdRefs(hs, e) == FdRefs(rest, e) + One(MapsFd(hs[|hs| - 1], e));
    if k < |rest| {
      NoRefsNoOpen(rest, e, k);
      assert rest[k] == hs[k];
    }
  }

  lemma {:induction false} AllClosedNoRefs(hs: seq<Handle>, e: End)
    requires Closing(hs) && forall k :: 0 <= k < |hs| ==> !(hs[k].end == e && hs[k].stage == Open)
    ensures FdRefs(hs, e) == 0
  {
    if hs != [] {
      var rest := hs[..|hs| - 1];
      assert forall k :: 0 <= k < |rest| ==> rest[k] == hs[k];
      AllClosedNoRefs(rest, e);
    }
  }

  lemma {:induction false} NoneHalfOpen(hs: seq<Handle>)
    requires forall k :: 0 <= k < |hs| ==> hs[k].stage != Half
    ensures HalfOpen(hs) == 0
  {
    if hs != [] {
      var rest := hs[..|hs| - 1];
      assert forall k :: 0 <= k < |rest| ==> rest[k] == hs[k];
      NoneHalfOpen(rest);
    }
  }

  /** Once every descriptor of the other end is closed, and no close is unfinished, it is reported. */
  lemma AllCloseIsReported(hs: seq<Handle>, e: End)
    requires forall k :: 0 <= k < |hs| ==> hs[k].stage == Open || hs[k].stage == Closed
    requires forall k :: 0 <= k < |hs| && hs[k].end == Other(e) ==> hs[k].stage == Closed
    ensures LooksClosed(hs, e)
  {
    AllClosedNoRefs(hs, Other(e));
    NoneHalfOpen(hs);
    ClosedExactly(hs, e);
  }

  /** An end without references never gets one back. */
  lemma {:induction false} StepLowersRefs(hs: seq<Handle>, ts: seq<Handle>, k: int, e: End)
    requires CloseStep(hs, ts, k)
    ensures FdRefs(ts, e) == FdRefs(hs, e) - One(MapsFd(hs[k], e))
    ensures FdRefs(hs, e) >= One(MapsFd(hs[k], e))
  {
    var n := |hs| - 1;
    if k == n {
      assert ts[..n] == hs[..n];
    } else {
      assert ts[..n] == hs[..n][k := ts[k]];
      StepLowersRefs(hs[..n], ts[..n], k, e);
    }
  }

  /** The list with n more descriptors of one end on their way. */
  ghost function WithDups(hs: seq<Handle>, e: End, n: nat): (ts: seq<Handle>)
    ensures hs <= ts
    decreases n
  {
    if n == 0 then hs else WithDups(hs, e, n - 1) + [Handle(e, FdOnly)]
  }

  lemma OneMoreDup(hs: seq<Handle>, e: End)
    ensures var ts := hs + [Handle(e, FdOnly)];
            Dups(ts) == Dups(hs) + 1 && HalfOpen(ts) == HalfOpen(hs) && FdRefs(ts, Other(e)) == FdRefs(hs, Other(e))
  {
    var ts := hs + [Handle(e, FdOnly)];
    assert ts[..|ts| - 1] == hs && ts[|ts| - 1] == Handle(e, FdOnly);
  }

  lemma {:induction false} DupsCounted(hs: seq<Handle>, e: End, n: nat)
    ensures var ts := WithDups(hs, e, n);
            Dups(ts) == Dups(hs) + n && HalfOpen(ts) == HalfOpen(hs) && FdRefs(ts, Other(e)) == FdRefs(hs, Other(e))
    decreases n
  {
    hide Dups, HalfOpen, FdRefs, Other;
    if n > 0 {
      DupsCounted(hs, e, n - 1);
      OneMoreDup(WithDups(hs, e, n - 1), e);
    }
  }

  /** With dup on its way the test can be wrong, whatever is open: with as many of them as the other end
      has references, that end looks closed. */
  lemma DupBreaksTheTest(hs: seq<Handle>, e: End, n: nat)
    requires Closing(hs)
    ensures LooksClosed(WithDups(hs, e, n), e) <==> n == FdRefs(hs, Other(e)) + HalfOpen(hs)
    ensures FdRefs(WithDups(hs, e, n), Other(e)) == FdRefs(hs, Other(e))
  {
    ClosingHasNoDups(hs);
    DupsCounted(hs, e, n);
    LooksClosedExactly(WithDups(hs, e, n), e);
  }

  /** The test is right if and only if no dup is on its way, or the dups are neither matched by what is
      open and half closed nor alone. */
  lemma TestIsRight(hs: seq<Handle>, e: End)
    ensures (LooksClosed(hs, e) <==> FdRefs(hs, Other(e)) == 0 && HalfOpen(hs) == 0) <==>
      (Dups(hs) == 0 || (FdRefs(hs, Other(e)) + HalfOpen(hs) != 0 && FdRefs(hs, Other(e)) + HalfOpen(hs) != Dups(hs)))
  {
    LooksClosedExactly(hs, e);
  }

  /** So it is without a consistent snapshot: the Fd page is counted, another reader closes, and then the
      data page is counted. */
  lemma SnapshotIsNeeded()
    ensures var hs := [Handle(Read, Open), Handle(Read, Open), Handle(Write, Open)];
            var ms := hs[1 := Handle(Read, Half)];
            var ts := hs[1 := Handle(Read, Closed)];
            CloseStep(hs, ms, 1) && CloseStep(ms, ts, 1) && FdRefs(hs, Read) == DataRefs(ts) && FdRefs(ts, Write) == 1
  {
    var a, c, z := Handle(Read, Open), Handle(Write, Open), Handle(Read, Closed);
    var hs, ts := [a, a, c], [a, z, c];
    assert hs[1 := Handle(Read, Half)][1 := z] == ts && hs[1 := z] == ts;
    assert hs[..2] == [a, a] && [a, a][..1] == [a] && [a][..0] == [] && ts[..2] == [a, z] && [a, z][..1] == [a];
    assert FdRefs([a], Read) == 1 && FdRefs([a, a], Read) == 2;
    assert DataRefs([a]) == 1 && DataRefs([a, z]) == 1;
    assert FdRefs([a], Write) == 0 && FdRefs([a, z], Write) == 0;
  }
}
