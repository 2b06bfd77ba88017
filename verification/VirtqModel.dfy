/** The split virtqueue of kern/disk_driver.c as a value: descriptors, the free bitmap, the available
    and the used ring (VIRTIO 1.0, sections 2.4.5, 2.4.6 and 2.4.8), and where each request is. */
module VirtqModel {
  import opened Words
  import opened Counting
  import Sv32

  const NUM := 32
  const WRAP := 65536
  const F_NEXT := 1
  const F_WRITE := 2
  const HDR_LEN := 16
  const BUF_LEN := 512
  const NO_RESP := 255

  /** What a descriptor points to; a request is known by its address. */
  datatype Addr = Header(d: int) | Buffer(req: int) | Status(req: int) | Nowhere

  datatype Desc = Desc(addr: Addr, len: int, flags: int, next: int)

  datatype OutHdr = OutHdr(kind: int, ioprio: int, sector: int)

  /** A request in the queue: its address, direction and sector, and its second and third descriptor. */
  datatype Chain = Chain(req: int, write: bool, sector: int, mid: int, last: int)

  /** `free` is desc_free_bitmap. `waiting` are the heads that the device has not fetched yet, in order;
      `taken` those it works on; `done` those in the used ring that the driver has not reaped, in order.
      `fetched` and `reaped` count the heads that have left `waiting` and `done`. */
  datatype Queue = Queue(desc: seq<Desc>, hdr: seq<OutHdr>, free: int, avail: seq<int>, used: seq<int>,
                         waiting: seq<int>, fetched: nat, taken: set<int>, done: seq<int>, reaped: nat,
                         chains: map<int, Chain>, status: map<int, int>)

  ghost predicate Owner(q: Queue, h: int, i: int) {
    h in q.chains && (i == h || i == q.chains[h].mid || i == q.chains[h].last)
  }

  ghost predicate Owned(q: Queue, i: int) { exists h :: Owner(q, h, i) }

  predicate InTable(i: int) { 0 <= i < NUM }

  /** Chains are three descriptors each, and no two chains share one. */
  ghost predicate Apart(q: Queue) {
    (forall h :: h in q.chains ==> InTable(h) && InTable(q.chains[h].mid) && InTable(q.chains[h].last)) &&
    (forall h :: h in q.chains ==> h != q.chains[h].mid && h != q.chains[h].last && q.chains[h].mid != q.chains[h].last) &&
    (forall h, g, i :: Owner(q, h, i) && Owner(q, g, i) ==> h == g)
  }

  /** Each descriptor is free, or one of the driver's drafts, or in exactly one chain of three. */
  ghost predicate Partitioned(q: Queue, drafts: set<int>) {
    Apart(q) && IsWord(q.free) &&
    (forall i :: i in drafts ==> InTable(i) && !Owned(q, i)) &&
    (forall i: nat :: i < NUM ==> (TestBit(q.free, i) <==> i !in drafts && !Owned(q, i)))
  }

  /** The three descriptors of a chain are what the device has to see. */
  ghost predicate ChainBuilt(q: Queue, h: int)
    requires |q.desc| == NUM == |q.hdr|
  {
    h in q.chains &&
    var c := q.chains[h];
    InTable(h) && InTable(c.mid) && InTable(c.last) &&
    q.desc[h] == Desc(Header(h), HDR_LEN, F_NEXT, c.mid) &&
    q.desc[c.mid] == Desc(Buffer(c.req), BUF_LEN, (if c.write then 0 else F_WRITE) + F_NEXT, c.last) &&
    q.desc[c.last] == Desc(Status(c.req), 1, F_WRITE, 0) &&
    q.hdr[h] == OutHdr(if c.write then 1 else 0, 0, c.sector)
  }

  /** Each head of a chain is waiting, taken or done, and only once. */
  ghost predicate Staged(q: Queue) {
    NoDup(q.waiting) && NoDup(q.done) &&
    (forall h :: h in q.waiting ==> h !in q.taken && h !in q.done) &&
    (forall h :: h in q.taken ==> h !in q.done) &&
    (forall h :: h in q.chains <==> h in q.waiting || h in q.taken || h in q.done)
  }

  /** Ring entries that have not been consumed hold the heads in order. */
  ghost predicate RingsHold(q: Queue) {
    |q.avail| == NUM && |q.used| == NUM &&
    (forall k :: 0 <= k < |q.waiting| ==> q.avail[(q.fetched + k) % NUM] == q.waiting[k]) &&
    (forall k :: 0 <= k < |q.done| ==> q.used[(q.reaped + k) % NUM] == q.done[k])
  }

  ghost predicate Inv(q: Queue, drafts: set<int>) {
    |q.desc| == NUM && |q.hdr| == NUM && Partitioned(q, drafts) && (forall h :: h in q.chains ==> ChainBuilt(q, h)) &&
    Staged(q) && RingsHold(q)
  }

  /** The indices as 16-bit numbers in shared memory. */
  function AvailIdx(q: Queue): int { (q.fetched + |q.waiting|) % WRAP }
  function UsedIdx(q: Queue): int { (q.reaped + |q.done|) % WRAP }

  // ---------- at most ten chains ----------

  /** At most ten requests are in the queue. */
  lemma AtMostTen(q: Queue)
    requires Apart(q)
    ensures |q.chains| <= 10
  {
    var m := map h | h in q.chains :: Triple(h, q.chains[h].mid, q.chains[h].last);
    forall h, g, i | h in m && g in m && In(i, m[h]) && In(i, m[g]) ensures h == g {
      assert Owner(q, h, i) && Owner(q, g, i);
    }
    assert m.Keys == q.chains.Keys;
    TriplesFit(m, NUM);
    assert |m| == |m.Keys| == |q.chains|;
  }

  lemma ShortQueues(q: Queue, drafts: set<int>)
    requires Inv(q, drafts)
    ensures |q.waiting| <= 10 && |q.done| <= 10 && |q.chains| <= 10
  {
    AtMostTen(q);
    NoDupSize(q.waiting, q.chains.Keys);
    NoDupSize(q.done, q.chains.Keys);
  }

  // ---------- 16-bit indices ----------

  /** The ring slot behind the last entry is not in use: no entry that is still needed is overwritten. */
  lemma FreshSlot(base: nat, len: nat, k: nat)
    requires k < len < NUM
    ensures (base + len) % NUM != (base + k) % NUM
  {}

  /** Wrapped indices show whether the ring is empty, and give the right slot. */
  lemma WrappedIndex(base: nat, len: nat)
    requires len < WRAP
    ensures (base + len) % WRAP == base % WRAP <==> len == 0
    ensures (base + len) % WRAP % NUM == (base + len) % NUM
    ensures ((base + len) % WRAP + 1) % WRAP == (base + len + 1) % WRAP
  {
    SumWraps(base, len);
    WrapThenSlot(base + len);
    SumWraps(base + len, 1);
  }

  lemma SumWraps(base: nat, len: nat)
    requires len < 65536
    ensures (base + len) % 65536 == if base % 65536 + len < 65536 then base % 65536 + len else base % 65536 + len - 65536
    ensures (base % 65536 + len) % 65536 == (base + len) % 65536
  {
    var q, r := base / 65536, base % 65536;
    assert base == 65536 * q + r;
    if r + len < 65536 {
      Sv32.DivByParts(base + len, q, r + len, 65536);
    } else {
      Sv32.DivByParts(base + len, q + 1, r + len - 65536, 65536);
      Sv32.DivByParts(r + len, 1, r + len - 65536, 65536);
    }
  }

  lemma WrapThenSlot(x: nat)
    ensures x % 65536 % 32 == x % 32
  {
    var q, r := x / 65536, x % 65536;
    assert x == 65536 * q + r && r == 32 * (r / 32) + r % 32;
    Sv32.DivByParts(x, 2048 * q + r / 32, r % 32, 32);
  }

  // ---------- steps ----------

  /** The device fetches the next head. */
  ghost function Fetched(q: Queue): Queue
    requires q.waiting != []
  {
    q.(waiting := q.waiting[1..], fetched := q.fetched + 1, taken := q.taken + {q.waiting[0]})
  }

  /** The device puts a head that it has taken into the used ring, and the answer into the request. */
  ghost function Completed(q: Queue, h: int, answer: int): Queue
    requires |q.used| == NUM && h in q.chains
  {
    q.(used := q.used[(q.reaped + |q.done|) % NUM := h], done := q.done + [h], taken := q.taken - {h},
       status := q.status[q.chains[h].req := answer])
  }

  /** The driver puts its three drafts into the available ring as a chain. */
  ghost function Published(q: Queue, h: int, c: Chain): Queue
    requires |q.avail| == NUM
  {
    q.(avail := q.avail[(q.fetched + |q.waiting|) % NUM := h], waiting := q.waiting + [h], chains := q.chains[h := c])
  }

  /** The driver takes the first head out of the used ring; its descriptors are drafts again. */
  ghost function Reaped(q: Queue): Queue
    requires q.done != []
  {
    q.(done := q.done[1..], reaped := q.reaped + 1, chains := q.chains - {q.done[0]})
  }

  lemma FetchKeeps(q: Queue, drafts: set<int>)
    requires Inv(q, drafts) && q.waiting != []
    ensures Inv(Fetched(q), drafts)
    ensures q.avail[q.fetched % WRAP % NUM] == q.waiting[0] && ChainBuilt(q, q.waiting[0])
  {
    var t := Fetched(q);
    WrapThenSlot(q.fetched);
    assert q.avail[(q.fetched + 0) % NUM] == q.waiting[0];
    assert q.waiting[0] in q.chains;
    SameOwners(q, t);
    assert Partitioned(t, drafts) by { hide Owned; }
    FetchStaged(q);
    hide Partitioned, Staged, ChainBuilt;
    FetchRings(q);
  }

  lemma FetchStaged(q: Queue)
    requires Staged(q) && q.waiting != []
    ensures Staged(Fetched(q))
  {
    var t := Fetched(q);
    assert q.waiting == [q.waiting[0]] + t.waiting;
    forall h ensures h in q.waiting <==> h == q.waiting[0] || h in t.waiting {
    }
  }

  lemma FetchRings(q: Queue)
    requires RingsHold(q) && q.waiting != []
    ensures RingsHold(Fetched(q))
  {
    var t := Fetched(q);
    forall k | 0 <= k < |t.waiting| ensures t.avail[(t.fetched + k) % NUM] == t.waiting[k] {
      assert q.avail[(q.fetched + (k + 1)) % NUM] == q.waiting[k + 1];
      assert t.fetched + k == q.fetched + (k + 1);
    }
  }

  lemma CompleteKeeps(q: Queue, drafts: set<int>, h: int, answer: int)
    requires Inv(q, drafts) && h in q.taken
    ensures h in q.chains && Inv(Completed(q, h, answer), drafts)
  {
    var t := Completed(q, h, answer);
    ShortQueues(q, drafts);
    SameOwners(q, t);
    assert Partitioned(t, drafts) by { hide Owned; }
    hide Partitioned, ChainBuilt, RingsHold;
    assert Staged(t);
    CompleteRings(q, h, answer);
  }

  lemma CompleteRings(q: Queue, h: int, answer: int)
    requires RingsHold(q) && |q.done| < NUM && h in q.chains
    ensures RingsHold(Completed(q, h, answer))
  {
    var t := Completed(q, h, answer);
    forall k | 0 <= k < |t.done| ensures t.used[(t.reaped + k) % NUM] == t.done[k] {
      if k < |q.done| { FreshSlot(q.reaped, |q.done|, k); }
    }
  }

  /** Descriptors and headers of drafts may be written at will. */
  lemma DraftWritten(q: Queue, drafts: set<int>, i: int, d: Desc, o: OutHdr)
    requires Inv(q, drafts) && i in drafts && 0 <= i < NUM
    ensures Inv(q.(desc := q.desc[i := d]), drafts) && Inv(q.(hdr := q.hdr[i := o]), drafts)
  {
    var t, u := q.(desc := q.desc[i := d]), q.(hdr := q.hdr[i := o]);
    SameOwners(q, t);
    SameOwners(q, u);
    assert Partitioned(t, drafts) && Partitioned(u, drafts) by { hide Owned; }
    forall h | h in q.chains ensures ChainBuilt(t, h) && ChainBuilt(u, h) {
      NotOwned(q, drafts, h, i);
      assert ChainBuilt(q, h);
    }
    hide Partitioned, ChainBuilt;
  }

  lemma NotOwned(q: Queue, drafts: set<int>, h: int, i: int)
    requires Partitioned(q, drafts) && i in drafts && h in q.chains
    ensures i != h && i != q.chains[h].mid && i != q.chains[h].last
  {
    assert !Owned(q, i);
    assert !Owner(q, h, i);
  }

  lemma StatusWritten(q: Queue, drafts: set<int>, status: map<int, int>)
    requires Inv(q, drafts)
    ensures Inv(q.(status := status), drafts)
  {
    var t := q.(status := status);
    SameOwners(q, t);
    assert Partitioned(t, drafts) by { hide Owned; }
    hide Partitioned, ChainBuilt;
  }

  /** The ring slot behind the last head may be written at will. */
  lemma AvailWritten(q: Queue, drafts: set<int>, h: int)
    requires Inv(q, drafts)
    ensures Inv(q.(avail := q.avail[AvailIdx(q) % NUM := h]), drafts)
  {
    var t := q.(avail := q.avail[AvailIdx(q) % NUM := h]);
    ShortQueues(q, drafts);
    SameOwners(q, t);
    assert Partitioned(t, drafts) by { hide Owned, Staged, RingsHold; }
    hide Partitioned, Staged, ChainBuilt, RingsHold;
    StagedStays(q, t);
    AvailRings(q, h);
  }

  lemma StagedStays(q: Queue, t: Queue)
    requires Staged(q) && t == q.(avail := t.avail)
    ensures Staged(t)
  {}

  lemma AvailRings(q: Queue, h: int)
    requires RingsHold(q) && |q.waiting| < NUM
    ensures RingsHold(q.(avail := q.avail[AvailIdx(q) % NUM := h]))
  {
    var t := q.(avail := q.avail[AvailIdx(q) % NUM := h]);
    WrapThenSlot(q.fetched + |q.waiting|);
    forall k | 0 <= k < |t.waiting| ensures t.avail[(t.fetched + k) % NUM] == t.waiting[k] {
      FreshSlot(q.fetched, |q.waiting|, k);
    }
  }

  /** Free descriptors a, b and c become drafts. */
  lemma DraftsTaken(q: Queue, w: int, a: int, b: int, c: int)
    requires Inv(q, {}) && IsWord(w) && InTable(a) && InTable(b) && InTable(c)
    requires TestBit(q.free, a) && TestBit(q.free, b) && TestBit(q.free, c)
    requires forall k: nat :: k < NUM ==> (TestBit(w, k) <==> TestBit(q.free, k) && k !in {a, b, c})
    ensures Inv(q.(free := w), {a, b, c})
  {
    hide TestBit, Staged, RingsHold, Owned, ChainBuilt;
    var t := q.(free := w);
    SameOwners(q, t);
    forall i | i in {a, b, c} ensures !Owned(q, i) {
      BitMeansFree(q, i);
    }
    assert Partitioned(t, {a, b, c});
    hide Partitioned;
    BitsAlone(q, t);
  }

  lemma BitMeansFree(q: Queue, i: int)
    requires Partitioned(q, {}) && 0 <= i < NUM && TestBit(q.free, i)
    ensures !Owned(q, i)
  {
    hide TestBit, Owned, Apart;
  }

  /** Stages and rings do not depend on the bitmap. */
  lemma BitsAlone(q: Queue, t: Queue)
    requires t == q.(free := t.free)
    ensures Staged(q) ==> Staged(t)
    ensures RingsHold(q) ==> RingsHold(t)
  {}

  lemma SameOwners(q: Queue, t: Queue)
    requires t.chains == q.chains
    ensures (forall h, i :: Owner(t, h, i) <==> Owner(q, h, i)) && (forall i :: Owned(t, i) <==> Owned(q, i))
    ensures Apart(q) ==> Apart(t)
    ensures |q.desc| == NUM == |q.hdr| && t.desc == q.desc && t.hdr == q.hdr ==> forall h :: ChainBuilt(t, h) <==> ChainBuilt(q, h)
  {
    forall h, i ensures Owner(t, h, i) <==> Owner(q, h, i) {
    }
    forall i ensures Owned(t, i) <==> Owned(q, i) {
      if Owned(q, i) { var h :| Owner(q, h, i); assert Owner(t, h, i); }
      if Owned(t, i) { var h :| Owner(t, h, i); assert Owner(q, h, i); }
    }
  }

  /** A draft becomes free. */
  lemma DraftFreed(q: Queue, drafts: set<int>, i: nat)
    requires Inv(q, drafts) && i in drafts
    ensures i < NUM && IsWord(q.free) && !TestBit(q.free, i) && Inv(q.(free := SetBit(q.free, i)), drafts - {i})
  {
    var t := q.(free := SetBit(q.free, i));
    WordBits(q.free, i);
    forall k: nat ensures TestBit(t.free, k) <==> k == i || TestBit(q.free, k) { SetBitIs(q.free, i, k); }
    hide TestBit, SetBit;
    SameOwners(q, t);
    hide Owned, ChainBuilt;
  }

  lemma PublishKeeps(q: Queue, h: int, c: Chain)
    requires Inv(q, {h, c.mid, c.last}) && h != c.mid && h != c.last && c.mid != c.last
    requires q.desc[h] == Desc(Header(h), HDR_LEN, F_NEXT, c.mid)
    requires q.desc[c.mid] == Desc(Buffer(c.req), BUF_LEN, (if c.write then 0 else F_WRITE) + F_NEXT, c.last)
    requires q.desc[c.last] == Desc(Status(c.req), 1, F_WRITE, 0)
    requires q.hdr[h] == OutHdr(if c.write then 1 else 0, 0, c.sector)
    ensures h !in q.chains && Inv(Published(q, h, c), {})
  {
    var t := Published(q, h, c);
    PublishPartition(q, h, c);
    forall g | g in t.chains ensures ChainBuilt(t, g) {
      if g != h { assert ChainBuilt(q, g); }
    }
    ShortQueues(q, {h, c.mid, c.last});
    hide Partitioned, ChainBuilt, RingsHold;
    assert Staged(t);
    PublishRings(q, h, c);
  }

  lemma PublishRings(q: Queue, h: int, c: Chain)
    requires RingsHold(q) && |q.waiting| < NUM
    ensures RingsHold(Published(q, h, c))
  {
    var t := Published(q, h, c);
    forall k | 0 <= k < |t.waiting| ensures t.avail[(t.fetched + k) % NUM] == t.waiting[k] {
      if k < |q.waiting| { FreshSlot(q.fetched, |q.waiting|, k); }
    }
  }

  lemma PublishPartition(q: Queue, h: int, c: Chain)
    requires Partitioned(q, {h, c.mid, c.last}) && h != c.mid && h != c.last && c.mid != c.last
    requires |q.avail| == NUM
    ensures h !in q.chains && Partitioned(Published(q, h, c), {})
  {
    hide TestBit;
    var t := Published(q, h, c);
    assert h in q.chains ==> Owner(q, h, h);
    forall g, i ensures Owner(t, g, i) <==> if g == h then i in {h, c.mid, c.last} else Owner(q, g, i) {
    }
    forall i ensures Owned(t, i) <==> i in {h, c.mid, c.last} || Owned(q, i) {
      if Owned(q, i) { var g :| Owner(q, g, i); assert g != h ==> Owner(t, g, i); }
      if i in {h, c.mid, c.last} { assert Owner(t, h, i); }
    }
    forall g, i | Owner(q, g, i) ensures i !in {h, c.mid, c.last} {
      assert Owned(q, i);
    }
  }

  lemma ReapKeeps(q: Queue)
    requires Inv(q, {}) && q.done != []
    ensures q.done[0] in q.chains && ChainBuilt(q, q.done[0])
    ensures var h := q.done[0]; Inv(Reaped(q), {h, q.chains[h].mid, q.chains[h].last})
    ensures q.used[q.reaped % WRAP % NUM] == q.done[0]
  {
    var t, h := Reaped(q), q.done[0];
    WrapThenSlot(q.reaped);
    assert q.used[(q.reaped + 0) % NUM] == q.done[0];
    assert h in q.chains;
    ReapPartition(q, h);
    forall g | g in t.chains ensures ChainBuilt(t, g) {
      assert ChainBuilt(q, g);
    }
    ReapStaged(q);
    hide Partitioned, Staged, ChainBuilt, RingsHold;
    ReapRings(q);
  }

  lemma ReapRings(q: Queue)
    requires RingsHold(q) && q.done != []
    ensures RingsHold(Reaped(q))
  {
    var t := Reaped(q);
    forall k | 0 <= k < |t.done| ensures t.used[(t.reaped + k) % NUM] == t.done[k] {
      assert q.used[(q.reaped + (k + 1)) % NUM] == q.done[k + 1];
      assert t.reaped + k == q.reaped + (k + 1);
    }
  }

  lemma ReapStaged(q: Queue)
    requires Staged(q) && q.done != []
    ensures Staged(Reaped(q))
  {
    var t := Reaped(q);
    assert q.done == [q.done[0]] + t.done;
    forall h ensures h in q.done <==> h == q.done[0] || h in t.done {
    }
  }

  lemma ReapPartition(q: Queue, h: int)
    requires Partitioned(q, {}) && h in q.chains
    ensures var c := q.chains[h]; forall t: Queue :: t.free == q.free && t.chains == q.chains - {h} ==>
      Partitioned(t, {h, c.mid, c.last})
  {
    hide TestBit;
    var c := q.chains[h];
    forall t: Queue | t.free == q.free && t.chains == q.chains - {h} ensures Partitioned(t, {h, c.mid, c.last}) {
      forall g, i ensures Owner(t, g, i) <==> g != h && Owner(q, g, i) {
      }
      forall i ensures Owned(q, i) <==> i in {h, c.mid, c.last} || Owned(t, i) {
        if Owned(q, i) { var g :| Owner(q, g, i); assert g != h ==> Owner(t, g, i); }
        if Owned(t, i) { var g :| Owner(t, g, i); assert Owner(q, g, i); }
        if i in {h, c.mid, c.last} { assert Owner(q, h, i); }
      }
      forall i | i in {h, c.mid, c.last} ensures !Owned(t, i) {
        assert Owner(q, h, i);
      }
    }
  }
}
