/** The driver of kern/disk_driver.c from its initialised rings on, with a device that may act between
    any two of its steps: it fetches heads in order, works on them in any order, and answers each once. */
module Virtqueue {
  import opened Words
  import opened Counting
  import opened VirtqModel

  const E_INVAL := 3
  const E_NO_RING_DESC := 14
  const KSTACKTOP := 0x80600000

  /** Where the device can be after some steps of its own. */
  ghost predicate DeviceMoved(q: Queue, t: Queue) {
    t.desc == q.desc && t.hdr == q.hdr && t.free == q.free && t.avail == q.avail && t.chains == q.chains &&
    t.reaped == q.reaped && q.done <= t.done &&
    t.fetched + |t.waiting| == q.fetched + |q.waiting| && t.fetched >= q.fetched &&
    t.waiting == q.waiting[t.fetched - q.fetched..]
  }

  /** The heads `added` have joined the end of those that wait, and the device has fetched the first of all. */
  ghost predicate InOrder(waiting0: seq<int>, fetched0: int, waiting: seq<int>, fetched: int, added: seq<int>) {
    fetched0 <= fetched <= fetched0 + |waiting0 + added| && waiting == (waiting0 + added)[fetched - fetched0..]
  }

  lemma InOrderThen(w0: seq<int>, f0: int, w1: seq<int>, f1: int, w2: seq<int>, f2: int, a: seq<int>, b: seq<int>)
    requires InOrder(w0, f0, w1, f1, a) && InOrder(w1, f1, w2, f2, b)
    ensures InOrder(w0, f0, w2, f2, a + b)
  {
    assert w0 + (a + b) == w0 + a + b;
    assert w1 + b == (w0 + a + b)[f1 - f0..];
  }

  lemma JoinsTheEnd(w0: seq<int>, f0: int, w: seq<int>, f: int, h: int)
    requires InOrder(w0, f0, w, f, [])
    ensures InOrder(w0, f0, w + [h], f, [h])
  {
    assert w0 + [] == w0;
    assert (w0 + [h])[f - f0..] == w0[f - f0..] + [h];
  }

  lemma MovedInOrder(q: Queue, t: Queue)
    requires DeviceMoved(q, t)
    ensures InOrder(q.waiting, q.fetched, t.waiting, t.fetched, [])
  {
    assert q.waiting + [] == q.waiting;
  }

  ghost predicate Outstanding(chains: map<int, Chain>, r: int) {
    exists h :: h in chains && chains[h].req == r
  }

  /** Requests in the queue differ, and a status is NO_RESP until the device has answered. */
  ghost predicate Honest(chains: map<int, Chain>, status: map<int, int>, done: seq<int>) {
    (forall h, g :: h in chains && g in chains && chains[h].req == chains[g].req ==> h == g) &&
    (forall h :: h in chains ==> chains[h].req in status) &&
    (forall h :: h in chains ==> (status[chains[h].req] == NO_RESP <==> h !in done))
  }

  /** The device answers requests in the queue only. */
  ghost predicate OthersKept(chains: map<int, Chain>, was: map<int, int>, is_: map<int, int>) {
    forall r :: !Outstanding(chains, r) ==> (r in is_ <==> r in was) && (r in was ==> is_[r] == was[r])
  }

  /** Outstanding requests are honest, and the new one differs from them and has no answer yet. */
  ghost predicate ReadyToPublish(chains: map<int, Chain>, status: map<int, int>, done: seq<int>, req: int) {
    Honest(chains, status, done) && req in status && status[req] == NO_RESP && !Outstanding(chains, req)
  }

  /** There are three free descriptors. */
  ghost predicate ThreeFree(w: int) {
    exists a: nat, b: nat, c: nat ::
      a < NUM && b < NUM && c < NUM && a != b && a != c && b != c && TestBit(w, a) && TestBit(w, b) && TestBit(w, c)
  }

  /** Descriptors ds have been taken out of bitmap `was`, which leaves `w`. */
  ghost predicate Taken(was: int, w: int, ds: seq<int>) {
    NoDup(ds) && (forall k :: 0 <= k < |ds| ==> 0 <= ds[k] < NUM && TestBit(was, ds[k])) &&
    forall k: nat :: k < NUM ==> (TestBit(w, k) <==> TestBit(was, k) && k !in ds)
  }

  class Driver {
    const desc: array<Desc>
    const outhdr: array<OutHdr>
    const avail: array<int>
    const used: array<int>
    var bitmap: int
    var availIdx: int
    var deviceIdx: int
    var usedIdx: int
    var status: map<int, int>
    var lastAvail: int
    var taken: set<int>
    ghost var waiting: seq<int>
    ghost var fetched: nat
    ghost var done: seq<int>
    ghost var reaped: nat
    ghost var chains: map<int, Chain>

    ghost function View(): Queue
      reads this, desc, outhdr, avail, used
    {
      Queue(desc[..], outhdr[..], bitmap, avail[..], used[..], waiting, fetched, taken, done, reaped, chains, status)
    }

    /** `deviceIdx` is used->idx, `usedIdx` the driver's own used_idx; `lastAvail` and `taken` belong to
        the device alone. */
    ghost predicate Valid(drafts: set<int>)
      reads this, desc, outhdr, avail, used
    {
      avail != used && Inv(View(), drafts) &&
      availIdx == AvailIdx(View()) && deviceIdx == UsedIdx(View()) && lastAvail == fetched % WRAP
    }

    /** The state that virtio_disk_init leaves. */
    constructor ()
      ensures Valid({}) && usedIdx == reaped % WRAP && chains == map[] && bitmap == 0xFFFF_FFFF
      ensures fresh(desc) && fresh(outhdr) && fresh(avail) && fresh(used)
    {
      desc := new Desc[NUM](_ => Desc(Nowhere, 0, 0, 0));
      outhdr := new OutHdr[NUM](_ => OutHdr(0, 0, 0));
      avail := new int[NUM](_ => 0);
      used := new int[NUM](_ => 0);
      bitmap, availIdx, deviceIdx, usedIdx, lastAvail := 0xFFFF_FFFF, 0, 0, 0, 0;
      status, waiting, fetched, taken, done, reaped, chains := map[], [], 0, {}, [], 0, map[];
      new;
      hide Inv;
      ghost var q := View();
      assert |q.desc| == |q.hdr| == |q.avail| == |q.used| == NUM && q.waiting == [] && q.done == [];
      AllFree(q);
      assert AvailIdx(q) == 0 && UsedIdx(q) == 0;
    }

    /** Any number of steps of the device. */
    method DeviceRuns(ghost drafts: set<int>)
      requires Valid(drafts)
      modifies this`deviceIdx, this`lastAvail, this`taken, this`status, this`waiting, this`fetched, this`done, used
      ensures Valid(drafts) && DeviceMoved(old(View()), View()) && OthersKept(chains, old(status), status)
      ensures fetched + |waiting| == old(fetched) + |old(waiting)| && old(done) <= done
      ensures InOrder(old(waiting), old(fetched), waiting, fetched, [])
      ensures old(Honest(chains, status, done)) ==> Honest(chains, status, done)
    {
      hide Inv, Honest;
      ghost var q0 := View();
      var n: nat := *;
      while n > 0
        invariant Valid(drafts) && DeviceMoved(q0, View()) && OthersKept(chains, q0.status, status)
        invariant Honest(chains, q0.status, q0.done) ==> Honest(chains, status, done)
      {
        ghost var status0 := status;
        DeviceStep(drafts);
        OthersKeptTwice(chains, q0.status, status0, status);
        n := n - 1;
      }
      MovedInOrder(q0, View());
    }

    /** The device fetches the head at its place in the available ring, or puts a head that it has taken
        into the used ring. */
    method DeviceStep(ghost drafts: set<int>)
      requires Valid(drafts)
      modifies this`deviceIdx, this`lastAvail, this`taken, this`status, this`waiting, this`fetched, this`done, used
      ensures Valid(drafts) && DeviceMoved(old(View()), View()) && OthersKept(chains, old(status), status)
      ensures old(Honest(chains, status, done)) ==> Honest(chains, status, done)
    {
      hide Inv, Honest;
      ghost var q := View();
      RingSizes(q, drafts);
      if * {
        if lastAvail != availIdx {
          DeviceFetch(drafts);
        }
      } else {
        var h: int := *;
        if h in taken {
          DeviceComplete(drafts, h);
        }
      }
    }

    /** The device fetches the head at its place in the available ring. */
    method DeviceFetch(ghost drafts: set<int>)
      requires Valid(drafts) && lastAvail != availIdx
      modifies this`lastAvail, this`taken, this`waiting, this`fetched
      ensures Valid(drafts) && old(waiting) != [] && View() == Fetched(old(View()))
      ensures OthersKept(chains, old(status), status) && DeviceMoved(old(View()), View()) && (old(Honest(chains, status, done)) ==> Honest(chains, status, done))
    {
      hide Inv, Honest;
      ghost var q := View();
      RingSizes(q, drafts);
      WrappedIndex(fetched, |waiting|);
      FetchKeeps(q, drafts);
      var head := avail[lastAvail % NUM];
      taken := taken + {head};
      WrappedIndex(fetched, 0);
      lastAvail := (lastAvail + 1) % WRAP;
      waiting, fetched := waiting[1..], fetched + 1;
      assert View() == Fetched(q);
    }

    /** The device finishes the request of head h: it writes the answer where the third descriptor of the
        chain points, and the head into the used ring. */
    method DeviceComplete(ghost drafts: set<int>, h: int)
      requires Valid(drafts) && h in taken
      modifies this`deviceIdx, this`taken, this`status, this`done, used
      ensures Valid(drafts) && h in old(chains) && done == old(done) + [h] && taken == old(taken) - {h}
      ensures OthersKept(chains, old(status), status) && DeviceMoved(old(View()), View()) && (old(Honest(chains, status, done)) ==> Honest(chains, status, done))
    {
      hide Inv, Honest;
      ghost var q := View();
      TakenBuilt(q, drafts, h);
      RingSizes(q, drafts);
      var answer := 0;
      if * { answer := 1; }
      var last := desc[desc[desc[h].next].next];
      status := status[last.addr.req := answer];
      CompleteKeeps(q, drafts, h, answer);
      WrappedIndex(reaped, |done|);
      used[deviceIdx % NUM] := h;
      deviceIdx := (deviceIdx + 1) % WRAP;
      taken := taken - {h};
      done := done + [h];
      assert View() == Completed(q, h, answer);
      HonestComplete(q, drafts, h, answer);
    }

    /** `alloc_desc`: the first free descriptor. */
    method AllocDesc() returns (r: int)
      requires IsWord(bitmap)
      modifies `bitmap
      ensures r < 0 ==> r == -E_NO_RING_DESC && bitmap == old(bitmap) && forall k: nat :: k < NUM ==> !TestBit(bitmap, k)
      ensures r >= 0 ==> r < NUM && TestBit(old(bitmap), r) && forall k: nat :: k < r ==> !TestBit(old(bitmap), k)
      ensures r >= 0 ==> bitmap == ClearBit(old(bitmap), r) && IsWord(bitmap)
    {
      if bitmap == 0 {
        forall k: nat | k < NUM ensures !TestBit(bitmap, k) { ZeroHasNoBits(k); }
        return -E_NO_RING_DESC;
      }
      var i := 0;
      while i < NUM
        invariant 0 <= i <= NUM && bitmap == old(bitmap)
        invariant forall k: nat :: k < i ==> !TestBit(bitmap, k)
      {
        if TestBit(bitmap, i) {
          WordBits(bitmap, i);
          bitmap := ClearBit(bitmap, i);
          return i;
        }
        i := i + 1;
      }
      WordIsPow2();
      ghost var k := NonzeroHasBit(bitmap, 32);
      assert false;
    }

    /** `free_desc` and its assertions. */
    method FreeDesc(idx: int)
      requires IsWord(bitmap) && 0 <= idx < NUM && !TestBit(bitmap, idx)
      modifies `bitmap
      ensures bitmap == SetBit(old(bitmap), idx) && IsWord(bitmap)
    {
      WordBits(bitmap, idx);
      bitmap := SetBit(bitmap, idx);
    }

    /** `alloc_3_desc`: three descriptors, or none and the bitmap as it was. */
    method Alloc3Desc(idx: array<int>) returns (r: int)
      requires IsWord(bitmap) && idx.Length == 3
      modifies `bitmap, idx
      ensures IsWord(bitmap) && (r == 0 || r == -E_NO_RING_DESC) && (r == 0 <==> ThreeFree(old(bitmap)))
      ensures r != 0 ==> bitmap == old(bitmap)
      ensures r == 0 ==> Taken(old(bitmap), bitmap, idx[..])
    {
      hide TestBit, SetBit, ClearBit, Taken;
      ghost var was := bitmap;
      NothingTaken(was);
      var i := 0;
      while i < 3
        invariant 0 <= i <= 3 && IsWord(bitmap)
        invariant Taken(was, bitmap, idx[..i])
      {
        ghost var w, ds := bitmap, idx[..i];
        var d := AllocDesc();
        idx[i] := d;
        assert idx[..i] == ds;
        if d < 0 {
          NotThree(was, w, ds);
          var j := 0;
          while j < i
            invariant 0 <= j <= i < 3 && IsWord(bitmap) && idx[i] == d && idx[..i] == ds
            invariant Taken(was, bitmap, ds[j..])
          {
            FreeMayGoBack(was, bitmap, ds[j..]);
            ghost var before := bitmap;
            assert idx[j] == ds[j..][0];
            FreeDesc(idx[j]);
            OneGivenBack(was, before, ds[j..]);
            assert ds[j..][1..] == ds[j + 1..];
            j := j + 1;
          }
          AllGivenBack(was, bitmap, ds[j..]);
          return idx[i];
        }
        OneTaken(was, w, ds, d);
        assert idx[..i + 1] == ds + [d];
        i := i + 1;
      }
      assert idx[..3] == idx[..];
      ThreeTaken(was, bitmap, idx[..]);
      r := 0;
    }

    /** `free_chain`, for the head that is next in the used ring. */
    method FreeChain(idx: int)
      requires Valid({}) && done != [] && idx == done[0]
      modifies this`bitmap, this`done, this`reaped, this`chains
      ensures Valid({}) && reaped == old(reaped) + 1 && done == old(done)[1..]
      ensures idx in old(chains) && chains == old(chains) - {idx}
      ensures old(Honest(chains, status, done)) ==> Honest(chains, status, done)
    {
      hide TestBit, SetBit, Inv, Honest;
      ghost var q := View();
      ReapKeeps(q);
      HonestReap(q);
      ghost var c := chains[idx];
      ghost var rest := [idx, c.mid, c.last];
      ReapedWalks(q);
      done, reaped, chains := done[1..], reaped + 1, chains - {idx};
      assert View() == Reaped(q);
      hide Reaped;
      var i, lastFlag, lastNext := idx, 0, 0;
      var more := true;
      while more
        invariant more <==> rest != []
        invariant more ==> i == rest[0] && Walk(desc[..], rest)
        invariant View() == Reaped(q).(free := bitmap) && Valid(DraftSet(rest))
        decreases |rest|
      {
        lastFlag := desc[i].flags;
        lastNext := desc[i].next;
        RestShrinks(desc[..], rest);
        DraftFreed(View(), DraftSet(rest), i);
        FreeDesc(i);
        i := lastNext;
        rest := rest[1..];
        more := lastFlag % 2 == F_NEXT;
      }
      assert DraftSet(rest) == {};
    }

    method WriteDesc(ghost drafts: set<int>, i: int, d: Desc)
      requires Valid(drafts) && i in drafts && 0 <= i < NUM
      modifies desc
      ensures Valid(drafts) && desc[i] == d && forall j :: 0 <= j < NUM && j != i ==> desc[j] == old(desc[j])
    {
      DraftWritten(View(), drafts, i, d, OutHdr(0, 0, 0));
      hide Inv;
      ghost var was := desc[..];
      desc[i] := d;
      assert desc[..] == was[i := d];
    }

    method WriteHdr(ghost drafts: set<int>, i: int, o: OutHdr)
      requires Valid(drafts) && i in drafts && 0 <= i < NUM
      modifies outhdr
      ensures Valid(drafts) && outhdr[i] == o && forall j :: 0 <= j < NUM && j != i ==> outhdr[j] == old(outhdr[j])
    {
      DraftWritten(View(), drafts, i, Desc(Nowhere, 0, 0, 0), o);
      hide Inv;
      ghost var was := outhdr[..];
      outhdr[i] := o;
      assert outhdr[..] == was[i := o];
    }

    /** The last part of `virtio_disk_req`: the head goes into the available ring, then the index moves. */
    method Publish(h: int, ghost c: Chain)
      requires Valid({h, c.mid, c.last}) && h != c.mid && h != c.last && c.mid != c.last && 0 <= h < NUM
      requires 0 <= c.mid < NUM && 0 <= c.last < NUM
      requires desc[h] == Desc(Header(h), HDR_LEN, F_NEXT, c.mid)
      requires desc[c.mid] == Desc(Buffer(c.req), BUF_LEN, (if c.write then 0 else F_WRITE) + F_NEXT, c.last)
      requires desc[c.last] == Desc(Status(c.req), 1, F_WRITE, 0)
      requires outhdr[h] == OutHdr(if c.write then 1 else 0, 0, c.sector)
      modifies this, avail, used
      ensures Valid({}) && usedIdx == old(usedIdx) && reaped == old(reaped)
      ensures h !in old(chains) && chains == old(chains)[h := c] && h !in old(waiting)
      ensures InOrder(old(waiting), old(fetched), waiting, fetched, [h])
      ensures old(ReadyToPublish(chains, status, done, c.req)) ==> Honest(chains, status, done)
    {
      hide Inv, Honest, ReadyToPublish, Outstanding, DeviceMoved, OthersKept, InOrder;
      ghost var drafts := {h, c.mid, c.last};
      ghost var w0, f0 := waiting, fetched;
      NewHeadIsNew(View(), drafts, h);
      PutIntoRing(drafts, h);
      ghost var status0, done0 := status, done;
      DeviceRuns(drafts);
      ghost var chains1, status1, done1, w1, f1 := chains, status, done, waiting, fetched;
      MoveAvailIdx(h, c);
      JoinsTheEnd(w0, f0, w1, f1, h);
      ghost var w2, f2 := waiting, fetched;
      if old(ReadyToPublish(chains, status, done, c.req)) {
        ReadyIsHonest(chains1, status0, done0, c.req);
        StaysReady(chains1, status0, status1, done0, done1, c.req);
        HonestPublish(chains1, status1, done1, h, c);
      }
      DeviceRuns({});
      InOrderThen(w0, f0, w2, f2, waiting, fetched, [h], []);
      assert [h] + [] == [h];
    }

    /** Writing the ring entry alone shows nothing to the device. */
    method PutIntoRing(ghost drafts: set<int>, h: int)
      requires Valid(drafts)
      modifies avail
      ensures Valid(drafts) && avail[availIdx % NUM] == h
    {
      hide Inv;
      ghost var q := View();
      RingSizes(q, drafts);
      AvailWritten(q, drafts, h);
      avail[availIdx % NUM] := h;
      assert View() == q.(avail := q.avail[AvailIdx(q) % NUM := h]);
    }

    /** Moving the index publishes the chain. */
    method MoveAvailIdx(h: int, ghost c: Chain)
      requires Valid({h, c.mid, c.last}) && h != c.mid && h != c.last && c.mid != c.last && 0 <= h < NUM
      requires 0 <= c.mid < NUM && 0 <= c.last < NUM && avail[availIdx % NUM] == h
      requires desc[h] == Desc(Header(h), HDR_LEN, F_NEXT, c.mid)
      requires desc[c.mid] == Desc(Buffer(c.req), BUF_LEN, (if c.write then 0 else F_WRITE) + F_NEXT, c.last)
      requires desc[c.last] == Desc(Status(c.req), 1, F_WRITE, 0)
      requires outhdr[h] == OutHdr(if c.write then 1 else 0, 0, c.sector)
      modifies this`availIdx, this`waiting, this`chains
      ensures Valid({}) && h !in old(chains) && h !in old(done) && |avail[..]| == NUM
      ensures View() == Published(old(View()), h, c)
    {
      hide Inv;
      ghost var q := View();
      RingSizes(q, {h, c.mid, c.last});
      NewHeadIsNew(q, {h, c.mid, c.last}, h);
      PublishKeeps(q, h, c);
      WrappedIndex(fetched, |waiting|);
      WrapThenSlot(q.fetched + |q.waiting|);
      waiting, chains := waiting + [h], chains[h := c];
      availIdx := (availIdx + 1) % WRAP;
      assert avail[..] == q.avail[(q.fetched + |q.waiting|) % NUM := h];
      assert View() == Published(q, h, c);
    }

    /** `virtio_disk_req`; `head` is where the request went. */
    method VirtioDiskReq(req: int, write: bool, sector: int) returns (r: int, ghost head: int)
      requires Valid({})
      modifies this, desc, outhdr, avail, used
      ensures Valid({}) && usedIdx == old(usedIdx) && reaped == old(reaped)
      ensures r == 0 || r == -E_INVAL || r == -E_NO_RING_DESC
      ensures r == -E_INVAL <==> req < KSTACKTOP
      ensures r == 0 <==> req >= KSTACKTOP && ThreeFree(old(bitmap))
      ensures r != 0 ==> bitmap == old(bitmap) && chains == old(chains) && availIdx == old(availIdx) && desc[..] == old(desc[..])
      ensures r == 0 ==> head !in old(chains) && head in chains && chains == old(chains)[head := chains[head]]
      ensures r == 0 ==> chains[head].req == req && chains[head].write == write && chains[head].sector == sector
      ensures r == 0 ==> InOrder(old(waiting), old(fetched), waiting, fetched, [head])
      ensures old(Honest(chains, status, done)) && !old(Outstanding(chains, req)) ==> Honest(chains, status, done)
    {
      hide Inv, Honest, ThreeFree, Outstanding, ReadyToPublish, TestBit, InOrder;
      ghost var w0, f0 := waiting, fetched;
      head := 0;
      if req < KSTACKTOP {
        return -E_INVAL, 0;
      }
      var a, b, c;
      r, a, b, c := ReserveThree();
      if r < 0 {
        return;
      }
      BuildChain(a, b, c, req, write, sector);
      ghost var w1, f1 := waiting, fetched;
      Publish(a, Chain(req, write, sector, b, c));
      InOrderThen(w0, f0, w1, f1, waiting, fetched, [], [a]);
      assert [] + [a] == [a];
      return 0, a;
    }

    /** The first part of `virtio_disk_req`: three descriptors, or an error and nothing changed. */
    method ReserveThree() returns (r: int, a: int, b: int, c: int)
      requires Valid({})
      modifies this`bitmap
      ensures (r == 0 || r == -E_NO_RING_DESC) && (r == 0 <==> ThreeFree(old(bitmap)))
      ensures r != 0 ==> bitmap == old(bitmap) && Valid({})
      ensures r == 0 ==> Valid({a, b, c}) && a != b && a != c && b != c
      ensures r == 0 ==> 0 <= a < NUM && 0 <= b < NUM && 0 <= c < NUM
    {
      hide Inv, Taken, ThreeFree;
      ghost var q := View();
      BitmapIsWord(q, {});
      a, b, c := 0, 0, 0;
      var idx := new int[3];
      r := Alloc3Desc(idx);
      assert View() == q.(free := bitmap);
      if r == 0 {
        a, b, c := idx[0], idx[1], idx[2];
        assert idx[..] == [a, b, c];
        TakenAreDrafts(q, bitmap, a, b, c);
      }
    }

    /** The middle part of `virtio_disk_req`: header and descriptors of a request. */
    method BuildChain(a: int, b: int, c: int, req: int, write: bool, sector: int)
      requires Valid({a, b, c}) && a != b && a != c && b != c
      requires 0 <= a < NUM && 0 <= b < NUM && 0 <= c < NUM
      modifies this`deviceIdx, this`lastAvail, this`taken, this`status, this`waiting, this`fetched, this`done, used, desc, outhdr
      ensures Valid({a, b, c}) && InOrder(old(waiting), old(fetched), waiting, fetched, [])
      ensures desc[a] == Desc(Header(a), HDR_LEN, F_NEXT, b)
      ensures desc[b] == Desc(Buffer(req), BUF_LEN, (if write then 0 else F_WRITE) + F_NEXT, c)
      ensures desc[c] == Desc(Status(req), 1, F_WRITE, 0)
      ensures outhdr[a] == OutHdr(if write then 1 else 0, 0, sector)
      ensures old(Honest(chains, status, done)) && !Outstanding(chains, req) ==> ReadyToPublish(chains, status, done, req)
    {
      hide Inv, Honest, Outstanding, ReadyToPublish, DeviceMoved, OthersKept, InOrder;
      ghost var drafts := {a, b, c};
      ghost var w0, f0 := waiting, fetched;
      BuildRequest(drafts, a, b, c, req, write, sector);
      ghost var w1, f1 := waiting, fetched;
      ghost var status0, done0 := status, done;
      StatusWritten(View(), drafts, status[req := NO_RESP]);
      status := status[req := NO_RESP];
      ghost var status1 := status;
      WriteDesc(drafts, c, Desc(Status(req), 1, F_WRITE, 0));
      DeviceRuns(drafts);
      InOrderThen(w0, f0, w1, f1, waiting, fetched, [], []);
      if old(Honest(chains, status, done)) && !Outstanding(chains, req) {
        StatusReset(chains, status0, done0, req);
        ReadyIsHonest(chains, status1, done0, req);
        StaysReady(chains, status1, status, done0, done, req);
      }
    }

    /** The header and the first two descriptors. */
    method BuildRequest(ghost drafts: set<int>, a: int, b: int, c: int, req: int, write: bool, sector: int)
      requires Valid(drafts) && a in drafts && b in drafts && a != b && 0 <= a < NUM && 0 <= b < NUM
      modifies this`deviceIdx, this`lastAvail, this`taken, this`status, this`waiting, this`fetched, this`done, used, desc, outhdr
      ensures Valid(drafts) && InOrder(old(waiting), old(fetched), waiting, fetched, [])
      ensures desc[a] == Desc(Header(a), HDR_LEN, F_NEXT, b)
      ensures desc[b] == Desc(Buffer(req), BUF_LEN, (if write then 0 else F_WRITE) + F_NEXT, c)
      ensures outhdr[a] == OutHdr(if write then 1 else 0, 0, sector)
      ensures old(Honest(chains, status, done)) ==> Honest(chains, status, done)
    {
      hide Inv, Honest, DeviceMoved, OthersKept, InOrder;
      ghost var w0, f0 := waiting, fetched;
      DeviceRuns(drafts);
      ghost var w1, f1 := waiting, fetched;
      WriteHdr(drafts, a, OutHdr(if write then 1 else 0, 0, sector));
      WriteDesc(drafts, a, Desc(Header(a), HDR_LEN, F_NEXT, b));
      DeviceRuns(drafts);
      InOrderThen(w0, f0, w1, f1, waiting, fetched, [], []);
      WriteDesc(drafts, b, Desc(Buffer(req), BUF_LEN, (if write then 0 else F_WRITE) + F_NEXT, c));
    }

    /** `virtio_disk_intr`: everything in the used ring is reaped; the device may go on meanwhile. */
    method VirtioDiskIntr()
      requires Valid({}) && usedIdx == reaped % WRAP
      modifies this, used
      ensures Valid({}) && usedIdx == reaped % WRAP && done == []
      ensures reaped >= old(reaped) + |old(done)| && chains.Keys <= old(chains).Keys
      ensures forall h :: h in chains ==> h in old(chains) && chains[h] == old(chains)[h] && h !in old(done)
      ensures old(Honest(chains, status, done)) ==> Honest(chains, status, done)
    {
      hide Inv, Honest, ReapedSoFar;
      ghost var chains0, done0, reaped0 := chains, done, reaped;
      NothingReaped(chains0, done0, reaped0);
      IndexShowsDone(View());
      while usedIdx != deviceIdx
        invariant Valid({}) && usedIdx == reaped % WRAP && (usedIdx != deviceIdx <==> done != [])
        invariant ReapedSoFar(chains0, done0, reaped0, chains, done, reaped)
        invariant old(Honest(chains, status, done)) ==> Honest(chains, status, done)
        decreases |chains|
      {
        ghost var chains1, done1 := chains, done;
        ReapOne();
        OneMoreReaped(chains0, done0, reaped0, chains1, done1, reaped - 1, done);
        IndexShowsDone(View());
      }
      AllReaped(chains0, done0, reaped0, chains, done, reaped);
    }

    /** The loop of `virtio_disk_intr`. */
    method ReapOne()
      requires Valid({}) && usedIdx == reaped % WRAP && done != []
      modifies this, used
      ensures Valid({}) && usedIdx == reaped % WRAP && reaped == old(reaped) + 1
      ensures old(done)[0] in old(chains) && chains == old(chains) - {old(done)[0]} && old(done)[1..] <= done
      ensures old(Honest(chains, status, done)) ==> Honest(chains, status, done)
    {
      hide Inv, Honest, OthersKept, DeviceMoved;
      DeviceRuns({});
      NextToReap(View());
      var id := used[usedIdx % NUM];
      FreeChain(id);
      IndexMoves(reaped - 1);
      usedIdx := (usedIdx + 1) % WRAP;
      DeviceRuns({});
    }
  }

  /** What the interrupt handler has done since it started: it takes chains away in the order of the used
      ring, and leaves the others alone. */
  ghost predicate ReapedSoFar(chains0: map<int, Chain>, done0: seq<int>, reaped0: int, chains: map<int, Chain>,
                              done: seq<int>, reaped: int) {
    reaped >= reaped0 && chains.Keys <= chains0.Keys && (forall h :: h in chains ==> chains[h] == chains0[h]) &&
    (reaped - reaped0 <= |done0| ==> done0[reaped - reaped0..] <= done) &&
    forall k :: 0 <= k < |done0| && k < reaped - reaped0 ==> done0[k] !in chains
  }

  lemma AllReaped(chains0: map<int, Chain>, done0: seq<int>, reaped0: int, chains: map<int, Chain>, done: seq<int>, reaped: int)
    requires ReapedSoFar(chains0, done0, reaped0, chains, done, reaped) && done == []
    ensures reaped >= reaped0 + |done0| && chains.Keys <= chains0.Keys
    ensures forall h :: h in chains ==> h in chains0 && chains[h] == chains0[h] && h !in done0
  {
    assert reaped - reaped0 <= |done0| ==> |done0| - (reaped - reaped0) <= |done|;
  }

  lemma NextToReap(q: Queue)
    requires Inv(q, {}) && q.done != []
    ensures |q.used| == NUM && q.used[q.reaped % WRAP % NUM] == q.done[0]
  {
    ReapKeeps(q);
  }

  lemma NothingReaped(chains: map<int, Chain>, done: seq<int>, reaped: int)
    ensures ReapedSoFar(chains, done, reaped, chains, done, reaped)
  {}

  lemma OneMoreReaped(chains0: map<int, Chain>, done0: seq<int>, reaped0: int, chains: map<int, Chain>, done: seq<int>,
                      reaped: int, done1: seq<int>)
    requires ReapedSoFar(chains0, done0, reaped0, chains, done, reaped) && done != [] && done[1..] <= done1
    requires done[0] in chains
    ensures ReapedSoFar(chains0, done0, reaped0, chains - {done[0]}, done1, reaped + 1)
    ensures |chains - {done[0]}| < |chains|
  {
    var k := reaped - reaped0;
    var h := done[0];
    if k < |done0| {
      assert done0[k..][0] == done0[k] && done0[k..][1..] == done0[k + 1..];
    }
    assert (chains - {h}).Keys == chains.Keys - {h};
    assert |(chains - {h}).Keys| == |chains.Keys| - 1;
  }

  lemma IndexMoves(reaped: nat)
    ensures (reaped % WRAP + 1) % WRAP == (reaped + 1) % WRAP
  {
    WrappedIndex(reaped, 0);
  }

  /** The wrapped indices differ if and only if the used ring has something to reap. */
  lemma IndexShowsDone(q: Queue)
    requires Inv(q, {})
    ensures q.reaped % WRAP != UsedIdx(q) <==> q.done != []
  {
    ShortQueues(q, {});
    hide Inv;
    WrappedIndex(q.reaped, |q.done|);
  }

  lemma StatusReset(chains: map<int, Chain>, status: map<int, int>, done: seq<int>, req: int)
    requires Honest(chains, status, done) && !Outstanding(chains, req)
    ensures ReadyToPublish(chains, status[req := NO_RESP], done, req)
  {}

  lemma StaysReady(chains: map<int, Chain>, status: map<int, int>, status1: map<int, int>, done: seq<int>, done1: seq<int>, req: int)
    requires OthersKept(chains, status, status1) && ReadyToPublish(chains, status, done, req)
    requires Honest(chains, status1, done1)
    ensures ReadyToPublish(chains, status1, done1, req)
  {
    hide Honest;
  }

  lemma ReadyIsHonest(chains: map<int, Chain>, status: map<int, int>, done: seq<int>, req: int)
    requires ReadyToPublish(chains, status, done, req)
    ensures Honest(chains, status, done)
  {}

  lemma HonestPublish(chains: map<int, Chain>, status: map<int, int>, done: seq<int>, h: int, c: Chain)
    requires ReadyToPublish(chains, status, done, c.req) && h !in done
    ensures Honest(chains[h := c], status, done)
  {
    assert h in chains ==> chains[h].req != c.req;
  }

  lemma OthersKeptTwice(chains: map<int, Chain>, s: map<int, int>, t: map<int, int>, u: map<int, int>)
    requires OthersKept(chains, s, t) && OthersKept(chains, t, u)
    ensures OthersKept(chains, s, u)
  {
    hide Outstanding;
  }

  lemma BitmapIsWord(q: Queue, drafts: set<int>)
    requires Inv(q, drafts)
    ensures IsWord(q.free)
  {}

  lemma TakenAreDrafts(q: Queue, w: int, a: int, b: int, c: int)
    requires Inv(q, {}) && IsWord(w) && Taken(q.free, w, [a, b, c])
    ensures Inv(q.(free := w), {a, b, c})
    ensures 0 <= a < NUM && 0 <= b < NUM && 0 <= c < NUM && a != b && a != c && b != c
  {
    var ds := [a, b, c];
    assert ds[0] == a && ds[1] == b && ds[2] == c;
    hide Inv, TestBit;
    DraftsTaken(q, w, a, b, c);
  }

  lemma NewHeadIsNew(q: Queue, drafts: set<int>, h: int)
    requires Inv(q, drafts) && h in drafts
    ensures h !in q.done && h !in q.waiting && h !in q.taken && h !in q.chains
  {
    assert h in q.chains ==> Owner(q, h, h);
    assert !Owned(q, h);
  }

  lemma RingSizes(q: Queue, drafts: set<int>)
    requires Inv(q, drafts)
    ensures |q.avail| == NUM && |q.used| == NUM && |q.desc| == NUM && |q.hdr| == NUM
    ensures |q.waiting| <= 10 && |q.done| <= 10 && |q.chains| <= 10
  {
    ShortQueues(q, drafts);
  }

  lemma AllFree(q: Queue)
    requires |q.desc| == |q.hdr| == |q.avail| == |q.used| == NUM && q.free == 0xFFFF_FFFF
    requires q.waiting == [] && q.done == [] && q.taken == {} && q.chains == map[]
    ensures Inv(q, {})
  {
    forall k: nat | k < NUM ensures TestBit(q.free, k) {
      WordIsPow2();
      OnesBits(32, k);
    }
    hide TestBit;
  }

  /** A head that the device has taken leads it to the header, the buffer and the status of its request. */
  lemma TakenBuilt(q: Queue, drafts: set<int>, h: int)
    requires Inv(q, drafts) && h in q.taken
    ensures h in q.chains && 0 <= h < NUM && ChainBuilt(q, h)
    ensures 0 <= q.desc[h].next < NUM && 0 <= q.desc[q.desc[h].next].next < NUM
    ensures q.desc[q.desc[q.desc[h].next].next].addr == Status(q.chains[h].req)
  {
    assert ChainBuilt(q, h);
  }

  lemma HonestComplete(q: Queue, drafts: set<int>, h: int, answer: int)
    requires Inv(q, drafts) && h in q.taken && h in q.chains && answer != NO_RESP
    ensures var st := q.status[q.chains[h].req := answer];
            (Honest(q.chains, q.status, q.done) ==> Honest(q.chains, st, q.done + [h])) && OthersKept(q.chains, q.status, st)
  {
    assert h !in q.done && |q.used| == NUM;
    hide Inv;
    assert Outstanding(q.chains, q.chains[h].req);
  }

  lemma HonestReap(q: Queue)
    requires Inv(q, {}) && q.done != []
    ensures Honest(q.chains, q.status, q.done) ==> Honest(q.chains - {q.done[0]}, q.status, q.done[1..])
  {
    assert q.done == [q.done[0]] + q.done[1..] && Staged(q);
    hide Inv, Partitioned;
  }

  /** The descriptors ds are linked in this order; only the last has no next. */
  ghost predicate Walk(desc: seq<Desc>, ds: seq<int>) {
    |desc| == NUM && NoDup(ds) && (forall k :: 0 <= k < |ds| ==> 0 <= ds[k] < NUM) &&
    (forall k :: 0 <= k < |ds| - 1 ==> desc[ds[k]].flags % 2 == F_NEXT && desc[ds[k]].next == ds[k + 1]) &&
    (ds != [] ==> desc[ds[|ds| - 1]].flags % 2 != F_NEXT)
  }

  lemma ReapedWalks(q: Queue)
    requires Inv(q, {}) && q.done != [] && q.done[0] in q.chains
    ensures var h := q.done[0]; var c := q.chains[h];
            Walk(q.desc, [h, c.mid, c.last]) && DraftSet([h, c.mid, c.last]) == {h, c.mid, c.last}
  {
    assert Apart(q) && ChainBuilt(q, q.done[0]);
    hide Inv, Partitioned;
  }

  ghost function DraftSet(s: seq<int>): set<int> { set i | i in s }

  lemma NothingTaken(w: int)
    ensures Taken(w, w, [])
  {}

  lemma OneTaken(was: int, w: int, ds: seq<int>, d: int)
    requires Taken(was, w, ds) && 0 <= d < NUM && TestBit(w, d)
    ensures Taken(was, ClearBit(w, d), ds + [d])
  {
    forall k: nat ensures TestBit(ClearBit(w, d), k) <==> k != d && TestBit(w, k) { ClearBitIs(w, d, k); }
    hide TestBit, ClearBit;
  }

  /** When nothing is left after fewer than three, there never were three. */
  lemma NotThree(was: int, w: int, ds: seq<int>)
    requires Taken(was, w, ds) && |ds| < 3 && forall k: nat :: k < NUM ==> !TestBit(w, k)
    ensures !ThreeFree(was)
  {
    hide TestBit;
  }

  lemma ThreeTaken(was: int, w: int, ds: seq<int>)
    requires Taken(was, w, ds) && |ds| == 3
    ensures ThreeFree(was)
  {
    hide TestBit;
    assert TestBit(was, ds[0]) && TestBit(was, ds[1]) && TestBit(was, ds[2]);
  }

  lemma FreeMayGoBack(was: int, w: int, ds: seq<int>)
    requires Taken(was, w, ds) && ds != []
    ensures 0 <= ds[0] < NUM && !TestBit(w, ds[0])
  {
    hide TestBit;
  }

  lemma OneGivenBack(was: int, w: int, ds: seq<int>)
    requires Taken(was, w, ds) && ds != []
    ensures ds[0] >= 0 && Taken(was, SetBit(w, ds[0]), ds[1..])
  {
    var d := ds[0];
    forall k: nat ensures TestBit(SetBit(w, d), k) <==> k == d || TestBit(w, k) { SetBitIs(w, d, k); }
    hide TestBit, SetBit;
    assert ds == [d] + ds[1..];
  }

  lemma AllGivenBack(was: int, w: int, ds: seq<int>)
    requires Taken(was, w, ds) && ds == [] && IsWord(was) && IsWord(w)
    ensures w == was
  {
    hide TestBit;
    WordsDiffer(w, was);
  }

  lemma RestShrinks(desc: seq<Desc>, rest: seq<int>)
    requires rest != [] && Walk(desc, rest)
    ensures DraftSet(rest) - {rest[0]} == DraftSet(rest[1..]) && rest[0] in DraftSet(rest)
    ensures Walk(desc, rest[1..]) && 0 <= rest[0] < NUM
    ensures desc[rest[0]].flags % 2 == F_NEXT <==> rest[1..] != []
    ensures rest[1..] != [] ==> desc[rest[0]].next == rest[1..][0]
  {
    assert rest == [rest[0]] + rest[1..];
    forall k | 0 <= k < |rest| - 2
      ensures desc[rest[1..][k]].flags % 2 == F_NEXT && desc[rest[1..][k]].next == rest[1..][k + 1]
    {
      assert rest[1..][k] == rest[k + 1] && rest[1..][k + 1] == rest[k + 2];
    }
  }
}
