/** The bounded buffer of user/lib/pipe.c, shared by one reading and one writing environment that may be
    preempted anywhere, while any number of environments close descriptors of the pipe. A byte is moved
    first and the position is bumped then; these are two steps. */
module PipeFifo {
  import opened PipeEnds

  const BY2PIPE := 32

  class Pipe {
    const buf: array<int>
    var rpos: int
    var wpos: int
    var handles: seq<Handle>
    /** `env->env_runs` of the environment that runs the operation, and how often it is still preempted. */
    var runs: int
    var preemptions: nat
    /** Bytes that are moved while the position is not bumped yet: where the two programs are. */
    var stored: seq<int>
    var loaded: seq<int>
    /** All bytes whose write or read is complete. */
    ghost var written: seq<int>
    ghost var taken: seq<int>

    ghost predicate Valid()
      reads this, buf
    {
      buf.Length == BY2PIPE && 0 <= rpos <= wpos <= rpos + BY2PIPE &&
      |written| == wpos && |taken| == rpos && taken == written[..rpos] &&
      (forall k :: rpos <= k < wpos ==> buf[k % BY2PIPE] == written[k]) &&
      |stored| <= 1 && (stored != [] ==> wpos < rpos + BY2PIPE && buf[wpos % BY2PIPE] == stored[0]) &&
      |loaded| <= 1 && (loaded != [] ==> rpos < wpos && loaded[0] == written[rpos]) &&
      Closing(handles)
    }

    constructor (hs: seq<Handle>, preempted: nat)
      requires Closing(hs)
      ensures Valid() && written == [] && taken == [] && stored == [] && loaded == [] && handles == hs && preemptions == preempted
      ensures fresh(buf)
    {
      buf := new int[BY2PIPE](_ => 0);
      rpos, wpos, handles, runs, preemptions := 0, 0, hs, 0, preempted;
      written, taken, stored, loaded := [], [], [], [];
    }

    // ---------- the steps ----------

    /** `p->p_buf[p->p_wpos % BY2PIPE] = c` */
    method Store(c: int)
      requires Valid() && stored == [] && wpos < rpos + BY2PIPE
      modifies buf, `stored
      ensures Valid() && stored == [c]
    {
      forall k | rpos <= k < wpos ensures k % BY2PIPE != wpos % BY2PIPE {
        SlotsDiffer(k, wpos);
      }
      buf[wpos % BY2PIPE] := c;
      stored := [c];
    }

    /** `p->p_wpos++` */
    method BumpWrite()
      requires Valid() && stored != []
      modifies `wpos, `written, `stored
      ensures Valid() && wpos == old(wpos) + 1 && written == old(written) + old(stored) && stored == []
    {
      written, stored := written + stored, [];
      wpos := wpos + 1;
    }

    /** The byte at the read position. */
    method Load() returns (c: int)
      requires Valid() && loaded == [] && rpos < wpos
      modifies `loaded
      ensures Valid() && loaded == [c]
    {
      c := buf[rpos % BY2PIPE];
      loaded := [c];
    }

    /** `p->p_rpos++` */
    method BumpRead()
      requires Valid() && loaded != []
      modifies `rpos, `taken, `loaded
      ensures Valid() && rpos == old(rpos) + 1 && taken == old(taken) + old(loaded) && loaded == []
    {
      assert written[..rpos + 1] == written[..rpos] + [written[rpos]];
      taken, loaded := taken + loaded, [];
      rpos := rpos + 1;
    }

    /** `pipe_close`, one of its two steps, or again a `fd_close` of what is unmapped already. */
    method CloseSome(k: int)
      requires Valid() && 0 <= k < |handles|
      modifies `handles
      ensures Valid() && Closed1(old(handles), handles, k)
    {
      var h := handles[k];
      if h.stage == Open || h.stage == Half {
        var s := if h.stage == Open then Half else Closed;
        handles := handles[k := h.(stage := s)];
        StepKeepsClosing(old(handles), handles, k);
      }
    }

    // ---------- what the others do meanwhile ----------

    /** Steps of the writer, and of descriptors other than `me` being closed. A writer needs an open end. */
    method WriterRuns(me: int)
      requires Valid() && 0 <= me < |handles|
      modifies this`wpos, this`handles, this`written, this`stored, buf
      ensures Valid() && OthersRan(old(handles), handles, me) && old(written) <= written
      ensures FdRefs(old(handles), Write) == 0 ==> written == old(written)
    {
      hide Closing, FdRefs;
      SameEnds(handles, me);
      var n: nat := *;
      while n > 0
        invariant Valid() && OthersRan(old(handles), handles, me) && old(written) <= written
        invariant FdRefs(old(handles), Write) == 0 ==> written == old(written) && FdRefs(handles, Write) == 0
      {
        var k: int := *;
        ghost var hs := handles;
        if 0 <= k < |handles| && k != me {
          CloseSome(k);
          RanOneMore(old(handles), hs, handles, me, k);
        } else if FdRefs(handles, Write) > 0 && stored != [] {
          BumpWrite();
        } else if FdRefs(handles, Write) > 0 && wpos < rpos + BY2PIPE {
          var c: int := *;
          Store(c);
        }
        n := n - 1;
      }
    }

    /** The same with the reader. */
    method ReaderRuns(me: int)
      requires Valid() && 0 <= me < |handles|
      modifies this`rpos, this`handles, this`taken, this`loaded
      ensures Valid() && OthersRan(old(handles), handles, me) && old(taken) <= taken
    {
      hide Closing, FdRefs;
      SameEnds(handles, me);
      var n: nat := *;
      while n > 0
        invariant Valid() && OthersRan(old(handles), handles, me) && old(taken) <= taken
      {
        var k: int := *;
        ghost var hs := handles;
        if 0 <= k < |handles| && k != me {
          CloseSome(k);
          RanOneMore(old(handles), hs, handles, me, k);
        } else if FdRefs(handles, Read) > 0 && loaded != [] {
          BumpRead();
        } else if FdRefs(handles, Read) > 0 && rpos < wpos {
          var c := Load();
        }
        n := n - 1;
      }
    }

    /** The environment of `me` may be preempted here; env_runs tells. */
    method Preempted(me: int)
      requires Valid() && 0 <= me < |handles|
      modifies this`runs, this`preemptions, this`handles, this`wpos, this`written, this`stored, this`rpos, this`taken, this`loaded, buf
      ensures Valid() && Meanwhile(me, old(handles), old(rpos), old(wpos), old(taken), old(written), old(stored), old(loaded))
      ensures runs >= old(runs) && preemptions <= old(preemptions)
      ensures runs == old(runs) ==> handles == old(handles) && rpos == old(rpos) && wpos == old(wpos)
      ensures runs != old(runs) ==> preemptions < old(preemptions)
    {
      hide FdRefs, Closing;
      SameEnds(handles, me);
      var preempted: bool := *;
      if preempted && preemptions > 0 {
        Yield(me);
      }
    }

    /** `syscall_yield` */
    method Yield(me: int)
      requires Valid() && 0 <= me < |handles| && preemptions > 0
      modifies this`runs, this`preemptions, this`handles, this`wpos, this`written, this`stored, this`rpos, this`taken, this`loaded, buf
      ensures Valid() && Meanwhile(me, old(handles), old(rpos), old(wpos), old(taken), old(written), old(stored), old(loaded))
      ensures runs == old(runs) + 1 && preemptions == old(preemptions) - 1
    {
      runs, preemptions := runs + 1, preemptions - 1;
      if handles[me].end == Read {
        WriterRuns(me);
      } else {
        ReaderRuns(me);
      }
    }

    /** What `me` may rely on after others have run. */
    ghost predicate Meanwhile(me: int, handles0: seq<Handle>, rpos0: int, wpos0: int, taken0: seq<int>, written0: seq<int>,
                              stored0: seq<int>, loaded0: seq<int>)
      reads this
    {
      OthersRan(handles0, handles, me) && taken0 <= taken && written0 <= written && rpos0 <= rpos && wpos0 <= wpos &&
      (if handles[me].end == Read then rpos == rpos0 && taken == taken0 && loaded == loaded0
      else wpos == wpos0 && written == written0 && stored == stored0) &&
      (FdRefs(handles0, Write) == 0 ==> written == written0)
    }

    /** `_pipe_is_closed`: the counts are read again until no preemption came in between. */
    method IsClosed(me: int) returns (closed: bool)
      requires Valid() && 0 <= me < |handles| && handles[me].stage == Open
      modifies this`runs, this`preemptions, this`handles, this`wpos, this`written, this`stored, this`rpos, this`taken, this`loaded, buf
      ensures Valid() && Meanwhile(me, old(handles), old(rpos), old(wpos), old(taken), old(written), old(stored), old(loaded))
      ensures closed <==> FdRefs(handles, Other(handles[me].end)) == 0 && HalfOpen(handles) == 0
      ensures preemptions <= old(preemptions)
    {
      hide FdRefs, DataRefs, HalfOpen, Closing;
      SameEnds(handles, me);
      ghost var end := handles[me].end;
      var fdRef, pipeRef := 0, 0;
      while true
        invariant Valid() && 0 <= me < |handles| && preemptions <= old(preemptions)
        invariant Meanwhile(me, old(handles), old(rpos), old(wpos), old(taken), old(written), old(stored), old(loaded))
        decreases preemptions
      {
        var runs0 := runs;
        Preempted(me);
        fdRef := FdRefs(handles, handles[me].end);
        Preempted(me);
        pipeRef := DataRefs(handles);
        Preempted(me);
        if runs0 == runs {
          break;
        }
      }
      closed := fdRef == pipeRef;
      ClosedExactly(handles, handles[me].end);
    }

    /** The waiting loop of `pipe_read`; `some` says that bytes have been read already. */
    method WaitForByte(me: int, some: bool) returns (done: bool, waiting: bool)
      requires Valid() && loaded == [] && 0 <= me < |handles| && handles[me] == Handle(Read, Open)
      modifies this`runs, this`preemptions, this`handles, this`wpos, this`written, this`stored, this`rpos, this`taken, this`loaded, buf
      ensures Valid() && loaded == [] && taken == old(taken) && old(written) <= written && OthersRan(old(handles), handles, me)
      ensures old(FdRefs(handles, Write)) == 0 ==> written == old(written)
      ensures !done && !waiting ==> rpos < wpos
      ensures done && some ==> rpos == wpos
      ensures done && !some ==> FdRefs(handles, Write) == 0
      ensures done && old(FdRefs(handles, Write)) == 0 ==> rpos == wpos
      ensures waiting ==> preemptions == 0 && !some && !done && rpos == wpos && (FdRefs(handles, Write) > 0 || HalfOpen(handles) > 0)
      ensures old(rpos < wpos) ==> !done && !waiting
    {
      hide FdRefs, HalfOpen, Closing;
      SameEnds(handles, me);
      while rpos >= wpos
        invariant Valid() && loaded == [] && taken == old(taken) && old(written) <= written
        invariant old(FdRefs(handles, Write)) == 0 ==> written == old(written)
        invariant OthersRan(old(handles), handles, me)
        decreases preemptions
      {
        if some {
          return true, false;
        }
        var closed := IsClosed(me);
        if closed {
          return true, false;
        }
        if preemptions == 0 {
          return false, rpos >= wpos;
        }
        Yield(me);
      }
      return false, false;
    }

    /** One byte: loaded first, counted then. */
    method ReadByte(me: int) returns (c: int)
      requires Valid() && loaded == [] && rpos < wpos && 0 <= me < |handles| && handles[me] == Handle(Read, Open)
      modifies this`runs, this`preemptions, this`handles, this`wpos, this`written, this`stored, this`rpos, this`taken, this`loaded, buf
      ensures Valid() && loaded == [] && taken == old(taken) + [c] && old(written) <= written
      ensures old(FdRefs(handles, Write)) == 0 ==> written == old(written)
      ensures OthersRan(old(handles), handles, me)
    {
      hide FdRefs, HalfOpen, Closing;
      Preempted(me);
      c := Load();
      Preempted(me);
      BumpRead();
    }

    /** `pipe_read`. `waiting` says that the schedule ended while it was waiting for a byte. A short read
        has drained the buffer; a read of nothing has, if no writer was left before it. */
    method PipeRead(me: int, n: nat) returns (rbuf: seq<int>, waiting: bool)
      requires Valid() && loaded == [] && 0 <= me < |handles| && handles[me] == Handle(Read, Open)
      modifies this`runs, this`preemptions, this`handles, this`wpos, this`written, this`stored, this`rpos, this`taken, this`loaded, buf
      ensures Valid() && loaded == [] && |rbuf| <= n && taken == old(taken) + rbuf && old(written) <= written
      ensures !waiting && |rbuf| == 0 < n ==> FdRefs(handles, Write) == 0
      ensures !waiting && 0 < |rbuf| < n ==> taken == written
      ensures !waiting && |rbuf| < n && old(FdRefs(handles, Write)) == 0 ==> taken == written
      ensures waiting ==> preemptions == 0 && rbuf == [] && rpos == wpos && (FdRefs(handles, Write) > 0 || HalfOpen(handles) > 0)
      ensures n > 0 && old(rpos < wpos) ==> !waiting && |rbuf| > 0
      ensures OthersRan(old(handles), handles, me)
    {
      hide FdRefs, HalfOpen, Closing;
      SameEnds(handles, me);
      rbuf := [];
      while |rbuf| < n
        invariant Valid() && loaded == [] && |rbuf| <= n && taken == old(taken) + rbuf && old(written) <= written
        invariant old(FdRefs(handles, Write)) == 0 ==> written == old(written)
        invariant rbuf == [] ==> (old(rpos < wpos) ==> rpos < wpos)
        invariant OthersRan(old(handles), handles, me)
      {
        Preempted(me);
        var done;
        done, waiting := WaitForByte(me, rbuf != []);
        if done || waiting {
          return;
        }
        var c := ReadByte(me);
        rbuf := rbuf + [c];
      }
      waiting := false;
    }

    /** The waiting loop of `pipe_write`. */
    method WaitForRoom(me: int) returns (closed: bool, waiting: bool)
      requires Valid() && stored == [] && 0 <= me < |handles| && handles[me] == Handle(Write, Open)
      modifies this`runs, this`preemptions, this`handles, this`wpos, this`written, this`stored, this`rpos, this`taken, this`loaded, buf
      ensures Valid() && stored == [] && written == old(written) && old(taken) <= taken && OthersRan(old(handles), handles, me)
      ensures closed ==> FdRefs(handles, Read) == 0
      ensures !closed && !waiting ==> wpos < rpos + BY2PIPE
      ensures waiting ==>
        preemptions == 0 && !closed && wpos == rpos + BY2PIPE && (FdRefs(handles, Read) > 0 || HalfOpen(handles) > 0)
      ensures old(wpos < rpos + BY2PIPE) ==> !closed && !waiting
    {
      hide FdRefs, HalfOpen, Closing;
      SameEnds(handles, me);
      while wpos >= rpos + BY2PIPE
        invariant Valid() && stored == [] && written == old(written) && old(taken) <= taken
        invariant OthersRan(old(handles), handles, me)
        decreases preemptions
      {
        closed := IsClosed(me);
        if closed {
          return true, false;
        }
        if preemptions == 0 {
          return false, wpos >= rpos + BY2PIPE;
        }
        Yield(me);
      }
      return false, false;
    }

    /** One byte: moved first, counted then. */
    method WriteByte(me: int, c: int)
      requires Valid() && stored == [] && wpos < rpos + BY2PIPE && 0 <= me < |handles| && handles[me] == Handle(Write, Open)
      modifies this`runs, this`preemptions, this`handles, this`wpos, this`written, this`stored, this`rpos, this`taken, this`loaded, buf
      ensures Valid() && stored == [] && written == old(written) + [c] && old(taken) <= taken
      ensures OthersRan(old(handles), handles, me)
    {
      hide FdRefs, HalfOpen, Closing;
      Preempted(me);
      Store(c);
      Preempted(me);
      BumpWrite();
    }

    /** `pipe_write` */
    method PipeWrite(me: int, bytes: seq<int>) returns (r: nat, waiting: bool)
      requires Valid() && stored == [] && 0 <= me < |handles| && handles[me] == Handle(Write, Open)
      modifies this`runs, this`preemptions, this`handles, this`wpos, this`written, this`stored, this`rpos, this`taken, this`loaded, buf
      ensures Valid() && stored == [] && r <= |bytes| && written == old(written) + bytes[..r] && old(taken) <= taken
      ensures !waiting && r < |bytes| ==> FdRefs(handles, Read) == 0
      ensures waiting ==>
        preemptions == 0 && r < |bytes| && wpos == rpos + BY2PIPE && (FdRefs(handles, Read) > 0 || HalfOpen(handles) > 0)
      ensures bytes != [] && old(wpos < rpos + BY2PIPE) ==> r > 0
      ensures OthersRan(old(handles), handles, me)
    {
      hide FdRefs, HalfOpen, Closing;
      SameEnds(handles, me);
      r := 0;
      while r < |bytes|
        invariant Valid() && stored == [] && r <= |bytes| && written == old(written) + bytes[..r] && old(taken) <= taken
        invariant OthersRan(old(handles), handles, me)
        invariant r == 0 ==> (old(wpos < rpos + BY2PIPE) ==> wpos < rpos + BY2PIPE)
      {
        Preempted(me);
        var closed;
        closed, waiting := WaitForRoom(me);
        if closed || waiting {
          return;
        }
        WriteByte(me, bytes[r]);
        assert bytes[..r + 1] == bytes[..r] + [bytes[r]];
        r := r + 1;
      }
      waiting := false;
    }

    /** `pipe_close` and the `fd_close` behind it, with the other environments running in between. */
    method PipeClose(me: int)
      requires Valid() && 0 <= me < |handles| && handles[me].stage == Open
      modifies this`runs, this`preemptions, this`handles, this`wpos, this`written, this`stored, this`rpos, this`taken, this`loaded, buf
      ensures Valid() && 0 <= me < |handles| && handles[me].stage == Closed && handles[me].end == old(handles[me].end)
      ensures forall e :: FdRefs(handles, e) <= FdRefs(old(handles), e) - One(e == handles[me].end)
    {
      hide FdRefs, HalfOpen;
      ghost var h0 := handles;
      CloseSome(me);
      ghost var h1 := handles;
      Preempted(me);
      ghost var h2 := handles;
      CloseSome(me);
      ghost var h3 := handles;
      Preempted(me);
      forall e ensures FdRefs(handles, e) <= FdRefs(h0, e) - One(e == h0[me].end) {
        StepLowersRefs(h0, h1, me, e);
        StepLowersRefs(h2, h3, me, e);
      }
    }
  }

  /** A read that returns nothing does not show that the buffer is drained. From every state in which the
      buffer looks empty and a writer is open, the writer can still put a byte in, or count the one it has
      moved already, and every descriptor but the reader's be closed before the second of the two tests,
      which then says closed. */
  method ClosedButNotDrained(p: Pipe, me: int, c: int) returns (empty: bool, closed: bool)
    requires p.Valid() && p.rpos == p.wpos && FdRefs(p.handles, Write) > 0
    requires 0 <= me < |p.handles| && p.handles[me] == Handle(Read, Open)
    modifies p, p.buf
    ensures p.Valid() && empty && closed && p.taken == old(p.taken)
    ensures p.written == old(p.taken) + (if old(p.stored) == [] then [c] else old(p.stored))
    ensures 0 <= me < |p.handles| && p.handles[me] == Handle(Read, Open) && p.rpos < p.wpos
  {
    hide FdRefs, DataRefs, HalfOpen;
    empty := p.rpos >= p.wpos;
    assert p.taken == p.written;
    if p.stored == [] {
      p.Store(c);
    }
    ghost var last := p.stored;
    p.BumpWrite();
    var k := 0;
    while k < |p.handles|
      invariant p.Valid() && 0 <= me < |p.handles| && p.handles[me] == Handle(Read, Open) && 0 <= k <= |p.handles|
      invariant p.taken == old(p.taken) && p.written == old(p.taken) + last
      invariant forall j :: 0 <= j < k && j != me ==> p.handles[j].stage == Closed
    {
      if k != me {
        p.CloseSome(k);
        p.CloseSome(k);
      }
      k := k + 1;
    }
    closed := FdRefs(p.handles, Read) == DataRefs(p.handles);
    AllCloseIsReported(p.handles, Read);
  }

  /** Were the read position bumped before the byte is loaded, a writer could take the slot first. */
  method BumpFirstReadsWrong() returns (p: Pipe, c: int)
    ensures fresh(p) && |p.written| == BY2PIPE && p.written[0] == 0 && c == 99
  {
    p := new Pipe([Handle(Read, Open), Handle(Write, Open)], 0);
    while p.wpos < BY2PIPE
      invariant fresh(p) && fresh(p.buf) && p.Valid() && p.stored == [] && p.loaded == [] && p.rpos == 0 && p.wpos <= BY2PIPE
      invariant p.wpos > 0 ==> p.written[0] == 0
      decreases BY2PIPE - p.wpos
    {
      p.Store(p.wpos);
      p.BumpWrite();
    }
    p.rpos := p.rpos + 1;
    p.buf[p.wpos % BY2PIPE] := 99;
    c := p.buf[(p.rpos - 1) % BY2PIPE];
  }

  ghost predicate Closed1(hs: seq<Handle>, ts: seq<Handle>, k: int) {
    if 0 <= k < |hs| && (hs[k].stage == Open || hs[k].stage == Half) then CloseStep(hs, ts, k) else ts == hs
  }

  /** Descriptors other than `me` may have been closed further. */
  ghost predicate OthersRan(hs: seq<Handle>, ts: seq<Handle>, me: int) {
    |ts| == |hs| && 0 <= me < |hs| && ts[me] == hs[me] && (forall k :: 0 <= k < |hs| ==> ts[k].end == hs[k].end) &&
    (forall e :: FdRefs(ts, e) <= FdRefs(hs, e))
  }

  lemma SlotsDiffer(k: int, w: int)
    requires w - BY2PIPE < k < w
    ensures k % BY2PIPE != w % BY2PIPE
  {}

  lemma SameEnds(hs: seq<Handle>, me: int)
    requires 0 <= me < |hs|
    ensures OthersRan(hs, hs, me)
  {}

  lemma RanOneMore(hs: seq<Handle>, ms: seq<Handle>, ts: seq<Handle>, me: int, k: int)
    requires OthersRan(hs, ms, me) && Closed1(ms, ts, k) && k != me && Closing(ms)
    ensures OthersRan(hs, ts, me) && forall e :: FdRefs(ts, e) <= FdRefs(ms, e)
  {
    if ts != ms {
      forall e ensures FdRefs(ts, e) <= FdRefs(ms, e) { StepLowersRefs(ms, ts, k, e); }
    }
  }
}
