/** The list macros of include/queue.h over memory cells: a `prev` field holds the address of the next-field
    (or of the head) that points to the element. Every operation has its effect on the sequence of
    elements and keeps the pointers in order; lists of other heads are not touched. */
module Queues {
  import opened Counting
  import SchedModel

  const NULL := -1

  /** An address that holds a pointer to an element: the head of a list, or an element's next-field. */
  datatype Cell = Head(h: int) | Next(e: int)

  /** The pointer cells, the prev-fields, and for tail queues the address of the last next-field. */
  datatype Links = Links(ptr: map<Cell, int>, prev: map<int, Cell>, last: map<int, Cell>)

  /** The cell that points to the i'th element, or that ends the list. */
  function CellAt(h: int, s: seq<int>, i: int): Cell
    requires 0 <= i <= |s|
  {
    if i == 0 then Head(h) else Next(s[i - 1])
  }

  function ElemAt(s: seq<int>, i: int): int
    requires 0 <= i <= |s|
  {
    if i < |s| then s[i] else NULL
  }

  /** Head h has a well-formed list of the elements s. */
  ghost predicate IsList(m: Links, h: int, s: seq<int>) {
    NoDup(s) && NULL !in s &&
    (forall i :: 0 <= i <= |s| ==> CellAt(h, s, i) in m.ptr && m.ptr[CellAt(h, s, i)] == ElemAt(s, i)) &&
    (forall i :: 0 <= i < |s| ==> s[i] in m.prev && m.prev[s[i]] == CellAt(h, s, i))
  }

  ghost predicate IsTailq(m: Links, h: int, s: seq<int>) {
    IsList(m, h, s) && h in m.last && m.last[h] == CellAt(h, s, |s|)
  }

  /** Lists of other heads, without any of the elements es, are the same in both memories. */
  ghost predicate OthersKept(m: Links, n: Links, hs: set<int>, es: seq<int>) {
    (forall g, t :: g !in hs && Apart(t, es) && IsList(m, g, t) ==> IsList(n, g, t)) &&
    (forall g, t :: g !in hs && Apart(t, es) && IsTailq(m, g, t) ==> IsTailq(n, g, t))
  }

  ghost predicate Apart(s: seq<int>, t: seq<int>) {
    forall x :: x in s ==> x !in t
  }

  function Inserted(s: seq<int>, k: int, e: int): seq<int>
    requires 0 <= k <= |s|
  {
    s[..k] + [e] + s[k..]
  }

  function Cut(s: seq<int>, k: int): seq<int>
    requires 0 <= k < |s|
  {
    s[..k] + s[k + 1..]
  }

  /** Cell i of the longer list. */
  lemma CellsOfInserted(h: int, s: seq<int>, k: int, e: int, i: int)
    requires 0 <= k <= |s| && 0 <= i <= |s| + 1
    ensures CellAt(h, Inserted(s, k, e), i) ==
      if i <= k then CellAt(h, s, i) else if i == k + 1 then Next(e) else CellAt(h, s, i - 1)
    ensures ElemAt(Inserted(s, k, e), i) == if i < k then s[i] else if i == k then e else ElemAt(s, i - 1)
  {}

  lemma LastOfInserted(h: int, s: seq<int>, k: int, e: int)
    requires 0 <= k <= |s|
    ensures |Inserted(s, k, e)| == |s| + 1
    ensures CellAt(h, Inserted(s, k, e), |s| + 1) == if k == |s| then Next(e) else CellAt(h, s, |s|)
  {}

  lemma InsertedAtEnds(s: seq<int>, e: int)
    ensures Inserted(s, 0, e) == [e] + s && Inserted(s, |s|, e) == s + [e]
  {}

  lemma CellsOfCut(h: int, s: seq<int>, k: int, i: int)
    requires 0 <= k < |s| && 0 <= i < |s|
    ensures |Cut(s, k)| == |s| - 1
    ensures CellAt(h, Cut(s, k), i) == if i <= k then CellAt(h, s, i) else CellAt(h, s, i + 1)
    ensures ElemAt(Cut(s, k), i) == if i < k then s[i] else ElemAt(s, i + 1)
  {}

  /** Different places of one list, and places of lists without common elements, have different cells. */
  lemma CellsDiffer(h: int, s: seq<int>, i: int, j: int)
    requires NoDup(s) && 0 <= i <= |s| && 0 <= j <= |s| && i != j
    ensures CellAt(h, s, i) != CellAt(h, s, j)
  {}

  /** The memory after an insertion of e at place k. */
  ghost predicate InsertedAt(m: Links, n: Links, h: int, s: seq<int>, k: int, e: int)
    requires 0 <= k <= |s|
  {
    n.ptr == m.ptr[Next(e) := ElemAt(s, k)][CellAt(h, s, k) := e] &&
    n.prev == (if k < |s| then m.prev[s[k] := Next(e)][e := CellAt(h, s, k)] else m.prev[e := CellAt(h, s, k)])
  }

  lemma InsertIsRight(m: Links, n: Links, h: int, s: seq<int>, k: int, e: int)
    requires IsList(m, h, s) && e !in s && e != NULL && 0 <= k <= |s| && InsertedAt(m, n, h, s, k, e)
    ensures IsList(n, h, Inserted(s, k, e))
    ensures forall g, t :: g != h && Apart(t, s + [e]) && IsList(m, g, t) ==> IsList(n, g, t)
  {
    hide IsList, InsertedAt, Inserted, Apart, NoDup;
    InsertMakesList(m, n, h, s, k, e);
    forall g, t | g != h && Apart(t, s + [e]) && IsList(m, g, t) ensures IsList(n, g, t) {
      InsertKeepsOther(m, n, h, s, k, e, g, t);
    }
  }

  lemma InsertKeepsOther(m: Links, n: Links, h: int, s: seq<int>, k: int, e: int, g: int, t: seq<int>)
    requires 0 <= k <= |s| && InsertedAt(m, n, h, s, k, e) && g != h && Apart(t, s + [e]) && IsList(m, g, t)
    ensures IsList(n, g, t)
  {
    hide NoDup;
    forall i | 0 <= i <= |t| ensures CellAt(g, t, i) != Next(e) && CellAt(g, t, i) != CellAt(h, s, k) {
      assert i > 0 ==> t[i - 1] in t;
      assert k > 0 ==> s[k - 1] in s + [e];
      assert e in s + [e];
    }
    forall i | 0 <= i < |t| ensures t[i] != e && (k < |s| ==> t[i] != s[k]) {
      assert t[i] in t && e in s + [e] && (k < |s| ==> s[k] in s + [e]);
    }
  }

  lemma OtherCells(h: int, s: seq<int>, g: int, t: seq<int>)
    requires g != h && Apart(t, s)
    ensures forall i :: 0 <= i <= |t| ==> CellAt(g, t, i) != Head(h) && forall x :: x in s ==> CellAt(g, t, i) != Next(x)
  {
    forall i | 0 <= i <= |t| ensures forall x :: x in s ==> CellAt(g, t, i) != Next(x) {
      assert i > 0 ==> t[i - 1] in t;
    }
  }

  lemma InsertMakesList(m: Links, n: Links, h: int, s: seq<int>, k: int, e: int)
    requires IsList(m, h, s) && e !in s && e != NULL && 0 <= k <= |s| && InsertedAt(m, n, h, s, k, e)
    ensures IsList(n, h, Inserted(s, k, e))
  {
    hide InsertedAt, CellAt, ElemAt;
    var t := Inserted(s, k, e);
    InsertedNoDup(s, k, e);
    forall i | 0 <= i <= |t| ensures CellAt(h, t, i) in n.ptr && n.ptr[CellAt(h, t, i)] == ElemAt(t, i) {
      InsertedCell(m, n, h, s, k, e, i);
    }
    forall i | 0 <= i < |t| ensures t[i] in n.prev && n.prev[t[i]] == CellAt(h, t, i) {
      InsertedPrev(m, n, h, s, k, e, i);
    }
  }

  lemma InsertedNoDup(s: seq<int>, k: int, e: int)
    requires NoDup(s) && NULL !in s && e !in s && e != NULL && 0 <= k <= |s|
    ensures NoDup(Inserted(s, k, e)) && NULL !in Inserted(s, k, e)
  {}

  lemma InsertedCell(m: Links, n: Links, h: int, s: seq<int>, k: int, e: int, i: int)
    requires IsList(m, h, s) && e !in s && 0 <= k <= |s| && InsertedAt(m, n, h, s, k, e) && 0 <= i <= |s| + 1
    ensures var t := Inserted(s, k, e);
            |t| == |s| + 1 && CellAt(h, t, i) in n.ptr && n.ptr[CellAt(h, t, i)] == ElemAt(t, i)
  {
    CellsOfInserted(h, s, k, e, i);
    if i < k { CellsDiffer(h, s, i, k); }
    if i > k + 1 { CellsDiffer(h, s, i - 1, k); }
  }

  lemma InsertedPrev(m: Links, n: Links, h: int, s: seq<int>, k: int, e: int, i: int)
    requires IsList(m, h, s) && e !in s && 0 <= k <= |s| && InsertedAt(m, n, h, s, k, e) && 0 <= i <= |s|
    ensures var t := Inserted(s, k, e); |t| == |s| + 1 && t[i] in n.prev && n.prev[t[i]] == CellAt(h, t, i)
  {
    CellsOfInserted(h, s, k, e, i);
    assert Inserted(s, k, e)[i] == if i < k then s[i] else if i == k then e else s[i - 1];
  }

  /** The memory after the removal of the element at place k. */
  ghost predicate RemovedAt(m: Links, n: Links, h: int, s: seq<int>, k: int)
    requires 0 <= k < |s|
  {
    n.ptr == m.ptr[CellAt(h, s, k) := ElemAt(s, k + 1)] &&
    n.prev == if k + 1 < |s| then m.prev[s[k + 1] := CellAt(h, s, k)] else m.prev
  }

  lemma RemoveIsRight(m: Links, n: Links, h: int, s: seq<int>, k: int)
    requires IsList(m, h, s) && 0 <= k < |s| && RemovedAt(m, n, h, s, k)
    ensures IsList(n, h, Cut(s, k))
    ensures forall g, t :: g != h && Apart(t, s) && IsList(m, g, t) ==> IsList(n, g, t)
  {
    hide IsList, RemovedAt, Cut, Apart, NoDup;
    RemoveMakesList(m, n, h, s, k);
    forall g, t | g != h && Apart(t, s) && IsList(m, g, t) ensures IsList(n, g, t) {
      RemoveKeepsOther(m, n, h, s, k, g, t);
    }
  }

  lemma RemoveKeepsOther(m: Links, n: Links, h: int, s: seq<int>, k: int, g: int, t: seq<int>)
    requires 0 <= k < |s| && RemovedAt(m, n, h, s, k) && g != h && Apart(t, s) && IsList(m, g, t)
    ensures IsList(n, g, t)
  {
    hide NoDup;
    forall i | 0 <= i <= |t| ensures CellAt(g, t, i) != CellAt(h, s, k) {
      assert i > 0 ==> t[i - 1] in t;
      assert k > 0 ==> s[k - 1] in s;
    }
    forall i | 0 <= i < |t| ensures k + 1 < |s| ==> t[i] != s[k + 1] {
      assert t[i] in t && (k + 1 < |s| ==> s[k + 1] in s);
    }
  }

  lemma RemoveMakesList(m: Links, n: Links, h: int, s: seq<int>, k: int)
    requires IsList(m, h, s) && 0 <= k < |s| && RemovedAt(m, n, h, s, k)
    ensures IsList(n, h, Cut(s, k))
  {
    hide RemovedAt, CellAt, ElemAt;
    var t := Cut(s, k);
    assert NoDup(t) && NULL !in t;
    forall i | 0 <= i <= |t| ensures CellAt(h, t, i) in n.ptr && n.ptr[CellAt(h, t, i)] == ElemAt(t, i) {
      RemovedCell(m, n, h, s, k, i);
    }
    forall i | 0 <= i < |t| ensures t[i] in n.prev && n.prev[t[i]] == CellAt(h, t, i) {
      RemovedPrev(m, n, h, s, k, i);
    }
  }

  lemma RemovedCell(m: Links, n: Links, h: int, s: seq<int>, k: int, i: int)
    requires IsList(m, h, s) && 0 <= k < |s| && RemovedAt(m, n, h, s, k) && 0 <= i < |s|
    ensures var t := Cut(s, k);
            |t| == |s| - 1 && CellAt(h, t, i) in n.ptr && n.ptr[CellAt(h, t, i)] == ElemAt(t, i)
  {
    CellsOfCut(h, s, k, i);
    if i < k { CellsDiffer(h, s, i, k); }
    if i > k { CellsDiffer(h, s, i + 1, k); }
  }

  lemma RemovedPrev(m: Links, n: Links, h: int, s: seq<int>, k: int, i: int)
    requires IsList(m, h, s) && 0 <= k < |s| && RemovedAt(m, n, h, s, k) && 0 <= i < |s| - 1
    ensures var t := Cut(s, k); |t| == |s| - 1 && t[i] in n.prev && n.prev[t[i]] == CellAt(h, t, i)
  {
    CellsOfCut(h, s, k, i);
    assert Cut(s, k)[i] == if i < k then s[i] else s[i + 1];
  }

  /** Tail queues of other heads keep their last cell when only the one of h changes. */
  lemma TailsKept(m: Links, n: Links, h: int, es: seq<int>)
    requires forall g, t :: g != h && Apart(t, es) && IsList(m, g, t) ==> IsList(n, g, t)
    requires forall g :: g != h && g in m.last ==> g in n.last && n.last[g] == m.last[g]
    ensures OthersKept(m, n, {h}, es)
  {
    hide IsList;
  }

  /** What the pointers around the k'th element are. */
  lemma Around(m: Links, h: int, s: seq<int>, k: int)
    requires IsList(m, h, s) && 0 <= k < |s|
    ensures CellAt(h, s, k + 1) == Next(s[k]) && Next(s[k]) in m.ptr && m.ptr[Next(s[k])] == ElemAt(s, k + 1)
    ensures s[k] in m.prev && m.prev[s[k]] == CellAt(h, s, k) && CellAt(h, s, k) in m.ptr
    ensures ElemAt(s, k) == s[k] && (ElemAt(s, k + 1) != NULL <==> k + 1 < |s|)
    ensures k + 1 < |s| ==> s[k + 1] != s[k] && ElemAt(s, k + 1) == s[k + 1]
  {
    assert CellAt(h, s, k + 1) == Next(s[k]);
    assert k + 1 < |s| ==> s[k + 1] in s;
  }

  lemma ListInsertedAfter(m: Links, n: Links, h: int, listelm: int, elm: int, s: seq<int>, k: int)
    requires IsList(m, h, s) && elm !in s && elm != NULL && 0 <= k < |s| && s[k] == listelm && n.last == m.last
    requires Next(listelm) in m.ptr && n.ptr == m.ptr[Next(elm) := m.ptr[Next(listelm)]][Next(listelm) := elm]
    requires n.prev == (if m.ptr[Next(listelm)] != NULL then m.prev[m.ptr[Next(listelm)] := Next(elm)] else m.prev)
                       [elm := Next(listelm)]
    ensures IsList(n, h, Inserted(s, k + 1, elm)) && OthersKept(m, n, {h}, s + [elm])
  {
    hide IsList, NoDup, Apart, Inserted, OthersKept, CellAt, ElemAt;
    Around(m, h, s, k);
    InsertIsRight(m, n, h, s, k + 1, elm);
    TailsKept(m, n, h, s + [elm]);
  }

  lemma InsertedAfter(m: Links, n: Links, h: int, listelm: int, elm: int, s: seq<int>, k: int)
    requires IsTailq(m, h, s) && elm !in s && elm != NULL && 0 <= k < |s| && s[k] == listelm
    requires Next(listelm) in m.ptr && n.ptr == m.ptr[Next(elm) := m.ptr[Next(listelm)]][Next(listelm) := elm]
    requires n.prev == (if m.ptr[Next(listelm)] != NULL then m.prev[m.ptr[Next(listelm)] := Next(elm)] else m.prev)
                       [elm := Next(listelm)]
    requires n.last == if m.ptr[Next(listelm)] != NULL then m.last else m.last[h := Next(elm)]
    ensures IsTailq(n, h, Inserted(s, k + 1, elm)) && OthersKept(m, n, {h}, s + [elm])
  {
    hide IsList, NoDup, Apart, Inserted, OthersKept, CellAt, ElemAt;
    Around(m, h, s, k);
    InsertIsRight(m, n, h, s, k + 1, elm);
    LastOfInserted(h, s, k + 1, elm);
    TailsKept(m, n, h, s + [elm]);
  }

  /** The first cell of a list. */
  lemma AtHead(m: Links, h: int, s: seq<int>)
    requires IsList(m, h, s)
    ensures CellAt(h, s, 0) == Head(h) && Head(h) in m.ptr && m.ptr[Head(h)] == ElemAt(s, 0)
    ensures ElemAt(s, 0) != NULL <==> s != []
    ensures s != [] ==> ElemAt(s, 0) == s[0]
    ensures CellAt(h, s, |s|) in m.ptr && m.ptr[CellAt(h, s, |s|)] == NULL == ElemAt(s, |s|)
  {
    assert CellAt(h, s, 0) == Head(h);
    assert s != [] ==> s[0] in s;
  }

  class Memory {
    var ptr: map<Cell, int>
    var prev: map<int, Cell>
    var last: map<int, Cell>

    ghost function View(): Links
      reads this
    {
      Links(ptr, prev, last)
    }

    /** LIST_INIT */
    method ListInit(h: int)
      modifies `ptr
      ensures IsList(View(), h, [])
    {
      ptr := ptr[Head(h) := NULL];
    }

    /** LIST_INSERT_HEAD */
    method ListInsertHead(h: int, elm: int, ghost s: seq<int>)
      requires IsList(View(), h, s) && elm !in s && elm != NULL
      modifies `ptr, `prev
      ensures IsList(View(), h, [elm] + s) && OthersKept(old(View()), View(), {h}, s + [elm])
    {
      hide IsList, NoDup, OthersKept, Apart, Inserted, Cut, CellAt, ElemAt;
      ghost var m := View();
      AtHead(m, h, s);
      ptr := ptr[Next(elm) := ptr[Head(h)]];
      if ptr[Next(elm)] != NULL {
        prev := prev[ptr[Head(h)] := Next(elm)];
      }
      ptr := ptr[Head(h) := elm];
      prev := prev[elm := Head(h)];
      InsertIsRight(m, View(), h, s, 0, elm);
      InsertedAtEnds(s, elm);
      TailsKept(m, View(), h, s + [elm]);
    }

    /** LIST_INSERT_AFTER; `listelm` is the k'th element. */
    method ListInsertAfter(h: int, listelm: int, elm: int, ghost s: seq<int>, ghost k: int)
      requires IsList(View(), h, s) && elm !in s && elm != NULL && 0 <= k < |s| && s[k] == listelm
      modifies `ptr, `prev
      ensures IsList(View(), h, Inserted(s, k + 1, elm)) && OthersKept(old(View()), View(), {h}, s + [elm])
    {
      hide IsList, NoDup, OthersKept, Apart, Inserted, Cut, CellAt, ElemAt;
      ghost var m := View();
      Around(m, h, s, k);
      assert listelm in s;
      ptr := ptr[Next(elm) := ptr[Next(listelm)]];
      if ptr[Next(listelm)] != NULL {
        prev := prev[ptr[Next(listelm)] := Next(elm)];
      }
      ptr := ptr[Next(listelm) := elm];
      prev := prev[elm := Next(listelm)];
      ListInsertedAfter(m, View(), h, listelm, elm, s, k);
    }

    /** LIST_INSERT_BEFORE and TAILQ_INSERT_BEFORE, which do not need the head. */
    method InsertBefore(listelm: int, elm: int, ghost h: int, ghost s: seq<int>, ghost k: int)
      requires IsList(View(), h, s) && elm !in s && elm != NULL && 0 <= k < |s| && s[k] == listelm
      modifies `ptr, `prev
      ensures IsList(View(), h, Inserted(s, k, elm)) && OthersKept(old(View()), View(), {h}, s + [elm])
      ensures IsTailq(old(View()), h, s) ==> IsTailq(View(), h, Inserted(s, k, elm))
    {
      hide IsList, NoDup, OthersKept, Apart, Inserted, Cut, CellAt, ElemAt;
      ghost var m := View();
      Around(m, h, s, k);
      assert listelm in s;
      prev := prev[elm := prev[listelm]];
      ptr := ptr[Next(elm) := listelm];
      ptr := ptr[prev[listelm] := elm];
      prev := prev[listelm := Next(elm)];
      assert prev == m.prev[listelm := Next(elm)][elm := CellAt(h, s, k)];
      InsertIsRight(m, View(), h, s, k, elm);
      LastOfInserted(h, s, k, elm);
      TailsKept(m, View(), h, s + [elm]);
    }

    /** LIST_REMOVE */
    method ListRemove(elm: int, ghost h: int, ghost s: seq<int>, ghost k: int)
      requires IsList(View(), h, s) && 0 <= k < |s| && s[k] == elm
      modifies `ptr, `prev
      ensures IsList(View(), h, Cut(s, k)) && OthersKept(old(View()), View(), {h}, s)
    {
      hide IsList, NoDup, OthersKept, Apart, Inserted, Cut, CellAt, ElemAt;
      ghost var m := View();
      Around(m, h, s, k);
      if ptr[Next(elm)] != NULL {
        prev := prev[ptr[Next(elm)] := prev[elm]];
      }
      ptr := ptr[prev[elm] := ptr[Next(elm)]];
      RemoveIsRight(m, View(), h, s, k);
      TailsKept(m, View(), h, s);
    }

    /** TAILQ_INIT */
    method TailqInit(h: int)
      modifies `ptr, `last
      ensures IsTailq(View(), h, []) && ptr == old(ptr)[Head(h) := NULL] && last == old(last)[h := Head(h)]
    {
      ptr := ptr[Head(h) := NULL];
      last := last[h := Head(h)];
    }

    /** TAILQ_INSERT_HEAD */
    method TailqInsertHead(h: int, elm: int, ghost s: seq<int>)
      requires IsTailq(View(), h, s) && elm !in s && elm != NULL
      modifies this
      ensures IsTailq(View(), h, [elm] + s) && OthersKept(old(View()), View(), {h}, s + [elm])
    {
      hide IsList, NoDup, OthersKept, Apart, Inserted, Cut, CellAt, ElemAt;
      ghost var m := View();
      AtHead(m, h, s);
      ptr := ptr[Next(elm) := ptr[Head(h)]];
      if ptr[Next(elm)] != NULL {
        prev := prev[ptr[Head(h)] := Next(elm)];
      } else {
        last := last[h := Next(elm)];
      }
      ptr := ptr[Head(h) := elm];
      prev := prev[elm := Head(h)];
      InsertIsRight(m, View(), h, s, 0, elm);
      LastOfInserted(h, s, 0, elm);
      InsertedAtEnds(s, elm);
      TailsKept(m, View(), h, s + [elm]);
    }

    /** TAILQ_INSERT_TAIL */
    method TailqInsertTail(h: int, elm: int, ghost s: seq<int>)
      requires IsTailq(View(), h, s) && elm !in s && elm != NULL
      modifies this
      ensures IsTailq(View(), h, s + [elm]) && OthersKept(old(View()), View(), {h}, s + [elm])
    {
      hide IsList, NoDup, OthersKept, Apart, Inserted, Cut, CellAt, ElemAt;
      ghost var m := View();
      AtHead(m, h, s);
      ptr := ptr[Next(elm) := NULL];
      prev := prev[elm := last[h]];
      ptr := ptr[last[h] := elm];
      last := last[h := Next(elm)];
      InsertIsRight(m, View(), h, s, |s|, elm);
      LastOfInserted(h, s, |s|, elm);
      InsertedAtEnds(s, elm);
      TailsKept(m, View(), h, s + [elm]);
    }

    /** TAILQ_INSERT_AFTER; `listelm` is the k'th element. */
    method TailqInsertAfter(h: int, listelm: int, elm: int, ghost s: seq<int>, ghost k: int)
      requires IsTailq(View(), h, s) && elm !in s && elm != NULL && 0 <= k < |s| && s[k] == listelm
      modifies this
      ensures IsTailq(View(), h, Inserted(s, k + 1, elm)) && OthersKept(old(View()), View(), {h}, s + [elm])
    {
      hide IsList, NoDup, OthersKept, Apart, Inserted, Cut, CellAt, ElemAt;
      ghost var m := View();
      Around(m, h, s, k);
      assert listelm in s;
      ptr := ptr[Next(elm) := ptr[Next(listelm)]];
      if ptr[Next(elm)] != NULL {
        prev := prev[ptr[Next(elm)] := Next(elm)];
      } else {
        last := last[h := Next(elm)];
      }
      ptr := ptr[Next(listelm) := elm];
      prev := prev[elm := Next(listelm)];
      InsertedAfter(m, View(), h, listelm, elm, s, k);
    }

    /** TAILQ_REMOVE; the caller's queue s holds the element at place k, or holds it no more. */
    method TailqRemove(h: int, elm: int, ghost s: seq<int>, ghost k: int)
      requires Next(elm) in ptr && elm in prev
      modifies this
      ensures View() == Unlinked(old(View()), h, elm)
      ensures old(IsTailq(View(), h, s)) && 0 <= k < |s| && s[k] == elm ==>
        IsTailq(View(), h, Cut(s, k)) && OthersKept(old(View()), View(), {h}, s)
    {
      ghost var m := View();
      hide IsTailq, OthersKept;
      if ptr[Next(elm)] != NULL {
        prev := prev[ptr[Next(elm)] := prev[elm]];
      } else {
        last := last[h := prev[elm]];
      }
      ptr := ptr[prev[elm] := ptr[Next(elm)]];
      assert View() == Unlinked(m, h, elm);
      if IsTailq(m, h, s) && 0 <= k < |s| && s[k] == elm {
        UnlinkedIsRight(m, View(), h, s, k);
      }
    }

    /** TAILQ_CONCAT */
    method TailqConcat(h1: int, h2: int, ghost s: seq<int>, ghost t: seq<int>)
      requires IsTailq(View(), h1, s) && IsTailq(View(), h2, t) && Apart(s, t) && h1 != h2
      modifies this
      ensures IsTailq(View(), h1, s + t) && IsTailq(View(), h2, [])
      ensures OthersKept(old(View()), View(), {h1, h2}, s + t)
    {
      ghost var m := View();
      AtHead(m, h1, s);
      AtHead(m, h2, t);
      NothingMoves(m, h1, h2, s + t);
      hide IsList, NoDup, OthersKept, Apart;
      if ptr[Head(h2)] != NULL {
        ptr := ptr[last[h1] := ptr[Head(h2)]];
        assert last[h1] != Head(h2);
        prev := prev[ptr[Head(h2)] := last[h1]];
        last := last[h1 := last[h2]];
        ghost var n := View();
        TailqInit(h2);
        ConcatIsRight(m, n, View(), h1, h2, s, t);
      } else {
        assert s + t == s && t == [];
      }
    }
  }

  /** The writes of TAILQ_REMOVE, wherever the links of the element lead. */
  ghost function Unlinked(m: Links, h: int, elm: int): Links
    requires Next(elm) in m.ptr && elm in m.prev
  {
    var next, cell := m.ptr[Next(elm)], m.prev[elm];
    Links(m.ptr[cell := next], if next != NULL then m.prev[next := cell] else m.prev, if next != NULL then m.last else m.last[h := cell])
  }

  lemma UnlinkedIsRight(m: Links, n: Links, h: int, s: seq<int>, k: int)
    requires IsTailq(m, h, s) && 0 <= k < |s| && Next(s[k]) in m.ptr && s[k] in m.prev && n == Unlinked(m, h, s[k])
    ensures IsTailq(n, h, Cut(s, k)) && OthersKept(m, n, {h}, s)
  {
    hide IsList, NoDup, OthersKept, Apart, Cut, CellAt, ElemAt;
    Around(m, h, s, k);
    RemoveIsRight(m, n, h, s, k);
    CellsOfCut(h, s, k, |s| - 1);
    TailsKept(m, n, h, s);
  }

  /** The two old links of an element lead to one and the same place of the queue, or both outside of it. */
  ghost predicate LinksAgree(m: Links, h: int, q: seq<int>, elm: int)
    requires Next(elm) in m.ptr && elm in m.prev
  {
    forall j :: 0 <= j <= |q| ==> (ElemAt(q, j) == m.ptr[Next(elm)] <==> CellAt(h, q, j) == m.prev[elm])
  }

  /** TAILQ_REMOVE of an element that is not in the queue is harmless if and only if its old links agree,
      wherever they lead. */
  lemma RemovedAgainExactly(m: Links, h: int, q: seq<int>, elm: int)
    requires IsTailq(m, h, q) && Next(elm) in m.ptr && elm in m.prev
    ensures IsTailq(Unlinked(m, h, elm), h, q) <==> LinksAgree(m, h, q, elm)
  {
    var n := Unlinked(m, h, elm);
    if IsTailq(n, h, q) {
      forall j | 0 <= j <= |q| ensures ElemAt(q, j) == m.ptr[Next(elm)] <==> CellAt(h, q, j) == m.prev[elm] {
        KeptLinksAgree(m, h, q, elm, j);
      }
    }
    if LinksAgree(m, h, q, elm) { AgreeingLinksKeep(m, h, q, elm); }
  }

  lemma KeptLinksAgree(m: Links, h: int, q: seq<int>, elm: int, j: int)
    requires IsTailq(m, h, q) && Next(elm) in m.ptr && elm in m.prev && 0 <= j <= |q| && IsTailq(Unlinked(m, h, elm), h, q)
    ensures ElemAt(q, j) == m.ptr[Next(elm)] <==> CellAt(h, q, j) == m.prev[elm]
  {
    assert j < |q| ==> q[j] in q;
  }

  lemma AgreeingLinksKeep(m: Links, h: int, q: seq<int>, elm: int)
    requires IsTailq(m, h, q) && Next(elm) in m.ptr && elm in m.prev && LinksAgree(m, h, q, elm)
    ensures IsTailq(Unlinked(m, h, elm), h, q)
  {
    var n, next, cell := Unlinked(m, h, elm), m.ptr[Next(elm)], m.prev[elm];
    forall k | 0 <= k <= |q| ensures CellAt(h, q, k) in n.ptr && n.ptr[CellAt(h, q, k)] == ElemAt(q, k) {
      assert ElemAt(q, k) == next <==> CellAt(h, q, k) == cell;
    }
    forall k | 0 <= k < |q| ensures q[k] in n.prev && n.prev[q[k]] == CellAt(h, q, k) {
      assert ElemAt(q, k) == next <==> CellAt(h, q, k) == cell;
    }
    assert ElemAt(q, |q|) == next <==> CellAt(h, q, |q|) == cell;
  }

  /** Where the element before it has been moved behind the one after it, as round robin does, the second
      removal closes the pointers into a loop: no sequence is left that they would be a list of. */
  lemma RemovedAgainLoops(m: Links, h: int, q: seq<int>, i: nat, j: nat, elm: int, t: seq<int>)
    requires IsTailq(m, h, q) && j < i <= |q| && Next(elm) in m.ptr && elm in m.prev
    requires m.prev[elm] == CellAt(h, q, i) && m.ptr[Next(elm)] == ElemAt(q, j)
    ensures !IsList(Unlinked(m, h, elm), h, t)
  {
    if IsList(Unlinked(m, h, elm), h, t) {
      SameBefore(m, h, q, i, elm, t, i);
      assert false;
    }
  }

  lemma {:induction false} SameBefore(m: Links, h: int, q: seq<int>, i: nat, elm: int, t: seq<int>, k: nat)
    requires IsTailq(m, h, q) && k <= i <= |q| && Next(elm) in m.ptr && elm in m.prev && m.prev[elm] == CellAt(h, q, i)
    requires IsList(Unlinked(m, h, elm), h, t)
    ensures k <= |t| && forall x :: 0 <= x < k ==> t[x] == q[x]
  {
    if k > 0 {
      SameBefore(m, h, q, i, elm, t, k - 1);
      CellsDiffer(h, q, k - 1, i);
      assert CellAt(h, t, k - 1) == CellAt(h, q, k - 1);
      assert q[k - 1] in q;
    }
  }

  /** Where the links lead into the queue in order, what stands between them is cut off. */
  lemma RemovedAgain(m: Links, h: int, q: seq<int>, i: nat, j: nat, elm: int)
    requires IsTailq(m, h, q) && elm !in q && i <= j <= |q| && Next(elm) in m.ptr && elm in m.prev
    requires m.prev[elm] == CellAt(h, q, i) && m.ptr[Next(elm)] == ElemAt(q, j)
    ensures IsTailq(Unlinked(m, h, elm), h, q[..i] + q[j..])
    ensures q[..i] + q[j..] == q <==> i == j
  {
    hide Unlinked, CellAt, ElemAt;
    QueueIsClean(m, h, q);
    CutOffNoDup(q, i, j);
    CutOffList(m, h, q, i, j, elm);
    CutOffLast(m, h, q, i, j, elm);
    hide IsList, NoDup;
  }

  lemma QueueIsClean(m: Links, h: int, q: seq<int>)
    requires IsList(m, h, q)
    ensures NoDup(q) && NULL !in q
  {}

  lemma CutOffLast(m: Links, h: int, q: seq<int>, i: nat, j: nat, elm: int)
    requires NULL !in q && h in m.last && m.last[h] == CellAt(h, q, |q|)
    requires i <= j <= |q| && Next(elm) in m.ptr && elm in m.prev
    requires m.prev[elm] == CellAt(h, q, i) && m.ptr[Next(elm)] == ElemAt(q, j)
    ensures var n, t := Unlinked(m, h, elm), q[..i] + q[j..]; h in n.last && n.last[h] == CellAt(h, t, |t|)
  {
    CellsBetween(h, q, i, j, i + |q| - j);
    assert j < |q| ==> q[j] in q;
  }

  lemma CutOffList(m: Links, h: int, q: seq<int>, i: nat, j: nat, elm: int)
    requires IsList(m, h, q) && i <= j <= |q| && Next(elm) in m.ptr && elm in m.prev
    requires m.prev[elm] == CellAt(h, q, i) && m.ptr[Next(elm)] == ElemAt(q, j)
    ensures IsList(Unlinked(m, h, elm), h, q[..i] + q[j..])
  {
    hide Unlinked, CellAt, ElemAt;
    var n, t := Unlinked(m, h, elm), q[..i] + q[j..];
    CutOffNoDup(q, i, j);
    forall k | 0 <= k <= |t| ensures CellAt(h, t, k) in n.ptr && n.ptr[CellAt(h, t, k)] == ElemAt(t, k) {
      CutOffCell(m, h, q, i, j, elm, k);
    }
    forall k | 0 <= k < |t| ensures t[k] in n.prev && n.prev[t[k]] == CellAt(h, t, k) {
      CutOffPrev(m, h, q, i, j, elm, k);
    }
  }

  lemma CutOffNoDup(q: seq<int>, i: nat, j: nat)
    requires NoDup(q) && NULL !in q && i <= j <= |q|
    ensures NoDup(q[..i] + q[j..]) && NULL !in q[..i] + q[j..]
    ensures q[..i] + q[j..] == q <==> i == j
  {
    assert |q[..i] + q[j..]| == |q| + i - j;
  }

  lemma CutOffCell(m: Links, h: int, q: seq<int>, i: nat, j: nat, elm: int, k: nat)
    requires IsList(m, h, q) && i <= j <= |q| && Next(elm) in m.ptr && elm in m.prev && k <= i + |q| - j
    requires m.prev[elm] == CellAt(h, q, i) && m.ptr[Next(elm)] == ElemAt(q, j)
    ensures var n, t := Unlinked(m, h, elm), q[..i] + q[j..];
            CellAt(h, t, k) in n.ptr && n.ptr[CellAt(h, t, k)] == ElemAt(t, k)
  {
    CellsBetween(h, q, i, j, k);
    if k < i { CellsDiffer(h, q, k, i); }
    if k > i { CellsDiffer(h, q, k + j - i, i); }
  }

  lemma CutOffPrev(m: Links, h: int, q: seq<int>, i: nat, j: nat, elm: int, k: nat)
    requires IsList(m, h, q) && i <= j <= |q| && Next(elm) in m.ptr && elm in m.prev && k < i + |q| - j
    requires m.prev[elm] == CellAt(h, q, i) && m.ptr[Next(elm)] == ElemAt(q, j)
    ensures var n, t := Unlinked(m, h, elm), q[..i] + q[j..]; t[k] in n.prev && n.prev[t[k]] == CellAt(h, t, k)
  {
    hide NoDup;
    CellsBetween(h, q, i, j, k);
    var x := if k < i then k else k + j - i;
    if j < |q| && x != j { ElemsDiffer(q, x, j); }
    assert j < |q| ==> q[j] in q;
    assert (q[..i] + q[j..])[k] == if k < i then q[k] else q[k + j - i];
  }

  lemma ElemsDiffer(q: seq<int>, i: nat, j: nat)
    requires NoDup(q) && i < |q| && j < |q| && i != j
    ensures q[i] != q[j]
  {}

  lemma CellsBetween(h: int, q: seq<int>, i: nat, j: nat, k: nat)
    requires i <= j <= |q| && k <= i + |q| - j
    ensures var t := q[..i] + q[j..];
            CellAt(h, t, k) == (if k <= i then CellAt(h, q, k) else CellAt(h, q, k + j - i)) &&
            ElemAt(t, k) == if k < i then ElemAt(q, k) else ElemAt(q, k + j - i)
  {}

  /** A removed element keeps its links. */
  lemma LinksStay(m: Links, h: int, s: seq<int>, k: nat)
    requires IsTailq(m, h, s) && k < |s|
    ensures Next(s[k]) in m.ptr && s[k] in m.prev
    ensures var n := Unlinked(m, h, s[k]);
            Next(s[k]) in n.ptr && s[k] in n.prev && n.prev[s[k]] == CellAt(h, Cut(s, k), k) && n.ptr[Next(s[k])] == ElemAt(Cut(s, k), k)
  {
    Around(m, h, s, k);
    CellsDiffer(h, s, k, k + 1);
    CellsOfCut(h, s, k, k);
  }

  lemma NothingMoves(m: Links, h1: int, h2: int, es: seq<int>)
    ensures OthersKept(m, m, {h1, h2}, es)
  {}

  lemma ConcatIsRight(m: Links, n: Links, l: Links, h1: int, h2: int, s: seq<int>, t: seq<int>)
    requires IsTailq(m, h1, s) && IsTailq(m, h2, t) && Apart(s, t) && h1 != h2 && t != []
    requires n == Links(m.ptr[CellAt(h1, s, |s|) := t[0]], m.prev[t[0] := CellAt(h1, s, |s|)], m.last[h1 := m.last[h2]])
    requires l == Links(n.ptr[Head(h2) := NULL], n.prev, n.last[h2 := Head(h2)])
    ensures IsTailq(l, h1, s + t) && IsTailq(l, h2, []) && OthersKept(m, l, {h1, h2}, s + t)
  {
    ConcatMakesList(m, l, h1, h2, s, t);
    forall g, u | g != h1 && g != h2 && Apart(u, s + t) && IsList(m, g, u) ensures IsList(l, g, u) {
      ConcatKeepsOther(m, l, h1, h2, s, t, g, u);
    }
    hide IsList;
  }

  lemma ConcatKeepsOther(m: Links, l: Links, h1: int, h2: int, s: seq<int>, t: seq<int>, g: int, u: seq<int>)
    requires g != h1 && g != h2 && Apart(u, s + t) && IsList(m, g, u) && t != []
    requires l.ptr == m.ptr[CellAt(h1, s, |s|) := t[0]][Head(h2) := NULL] && l.prev == m.prev[t[0] := CellAt(h1, s, |s|)]
    ensures IsList(l, g, u)
  {
    OtherCells(h1, s + t, g, u);
    forall i | 0 <= i <= |u| ensures CellAt(g, u, i) != CellAt(h1, s, |s|) && CellAt(g, u, i) != Head(h2) {
      assert s != [] ==> s[|s| - 1] in s + t;
    }
    forall i | 0 <= i < |u| ensures u[i] != t[0] {
      assert u[i] in u && t[0] in s + t;
    }
  }

  lemma ConcatMakesList(m: Links, l: Links, h1: int, h2: int, s: seq<int>, t: seq<int>)
    requires IsTailq(m, h1, s) && IsTailq(m, h2, t) && Apart(s, t) && h1 != h2 && t != []
    requires l.ptr == m.ptr[CellAt(h1, s, |s|) := t[0]][Head(h2) := NULL] && l.prev == m.prev[t[0] := CellAt(h1, s, |s|)]
    requires l.last == m.last[h1 := m.last[h2]][h2 := Head(h2)]
    ensures IsTailq(l, h1, s + t) && IsTailq(l, h2, [])
  {
    var u := s + t;
    JoinedNoDup(s, t);
    forall i | 0 <= i <= |u| ensures CellAt(h1, u, i) in l.ptr && l.ptr[CellAt(h1, u, i)] == ElemAt(u, i) {
      ConcatCell(m, l, h1, h2, s, t, i);
    }
    forall i | 0 <= i < |u| ensures u[i] in l.prev && l.prev[u[i]] == CellAt(h1, u, i) {
      ConcatPrev(m, l, h1, h2, s, t, i);
    }
    assert CellAt(h1, u, |u|) == CellAt(h2, t, |t|);
  }

  lemma JoinedNoDup(s: seq<int>, t: seq<int>)
    requires NoDup(s) && NoDup(t) && Apart(s, t)
    ensures NoDup(s + t)
  {
    var u := s + t;
    forall i, j | 0 <= i < j < |u| ensures u[i] != u[j] {
      if i < |s| <= j { assert s[i] in s && t[j - |s|] in t; }
    }
  }

  lemma ConcatCell(m: Links, l: Links, h1: int, h2: int, s: seq<int>, t: seq<int>, i: int)
    requires IsList(m, h1, s) && IsList(m, h2, t) && Apart(s, t) && h1 != h2 && t != [] && 0 <= i <= |s + t|
    requires l.ptr == m.ptr[CellAt(h1, s, |s|) := t[0]][Head(h2) := NULL]
    ensures CellAt(h1, s + t, i) in l.ptr && l.ptr[CellAt(h1, s + t, i)] == ElemAt(s + t, i)
  {
    var u := s + t;
    if i < |s| {
      CellsDiffer(h1, s, i, |s|);
      assert CellAt(h1, u, i) == CellAt(h1, s, i) && ElemAt(u, i) == ElemAt(s, i);
      assert CellAt(h1, s, i) in m.ptr && m.ptr[CellAt(h1, s, i)] == ElemAt(s, i);
    } else if i > |s| {
      ConcatLater(m, l, h1, h2, s, t, i - |s|);
    }
  }

  lemma ConcatLater(m: Links, l: Links, h1: int, h2: int, s: seq<int>, t: seq<int>, j: int)
    requires IsList(m, h2, t) && Apart(s, t) && h1 != h2 && 0 < j <= |t|
    requires l.ptr == m.ptr[CellAt(h1, s, |s|) := t[0]][Head(h2) := NULL]
    ensures CellAt(h1, s + t, |s| + j) in l.ptr && l.ptr[CellAt(h1, s + t, |s| + j)] == ElemAt(s + t, |s| + j)
  {
    assert CellAt(h2, t, j) in m.ptr && m.ptr[CellAt(h2, t, j)] == ElemAt(t, j);
    hide IsList;
    assert CellAt(h1, s + t, |s| + j) == CellAt(h2, t, j) == Next(t[j - 1]);
    assert ElemAt(s + t, |s| + j) == ElemAt(t, j) && t[j - 1] in t;
    assert s != [] ==> s[|s| - 1] in s;
  }

  lemma ConcatPrev(m: Links, l: Links, h1: int, h2: int, s: seq<int>, t: seq<int>, i: int)
    requires IsList(m, h1, s) && IsList(m, h2, t) && Apart(s, t) && t != [] && 0 <= i < |s + t|
    requires l.prev == m.prev[t[0] := CellAt(h1, s, |s|)]
    ensures (s + t)[i] in l.prev && l.prev[(s + t)[i]] == CellAt(h1, s + t, i)
  {
    var u := s + t;
    if i < |s| {
      assert u[i] == s[i] && s[i] in s && t[0] in t;
    } else {
      assert u[i] == t[i - |s|];
      assert i > |s| ==> t[i - |s|] != t[0] && CellAt(h1, u, i) == CellAt(h2, t, i - |s|);
    }
  }

  /** The removal that the run queue model uses is the removal of the macro. */
  lemma {:induction false} RemoveCuts(s: seq<SchedModel.Ix>, k: int)
    requires NoDup(s) && 0 <= k < |s|
    ensures SchedModel.Remove(s, s[k]) == Cut(s, k)
  {
    if k > 0 {
      assert s[0] != s[k];
      RemoveCuts(s[1..], k - 1);
      assert [s[0]] + Cut(s[1..], k - 1) == Cut(s, k);
    }
  }
}
