/** Counting: disjoint triples below n, sequences without repetition, and sums. */
module Counting {
  datatype Triple = Triple(a: int, b: int, c: int)

  predicate In(i: int, t: Triple) { i == t.a || i == t.b || i == t.c }

  /** Triples of different numbers below n, no two of which share a number. */
  ghost predicate Disjoint(m: map<int, Triple>, n: int) {
    (forall h :: h in m ==> 0 <= m[h].a < n && 0 <= m[h].b < n && 0 <= m[h].c < n) &&
    (forall h :: h in m ==> m[h].a != m[h].b && m[h].a != m[h].c && m[h].b != m[h].c) &&
    (forall h, g, i :: h in m && g in m && In(i, m[h]) && In(i, m[g]) ==> h == g)
  }

  ghost function Table(n: nat): (t: set<int>)
    ensures |t| == n && forall i :: i in t <==> 0 <= i < n
  {
    if n == 0 then {} else Table(n - 1) + {n - 1}
  }

  lemma AnyElement<T>(s: set<T>) returns (x: T)
    requires |s| > 0
    ensures x in s
  {
    x :| x in s;
  }

  /** Taking the triples out of a table that holds them all takes three numbers each time. */
  lemma {:induction false} TriplesFitIn(m: map<int, Triple>, n: int, table: set<int>)
    requires Disjoint(m, n) && forall h, i :: h in m && In(i, m[h]) ==> i in table
    ensures 3 * |m| <= |table|
    decreases |m|
  {
    if |m.Keys| > 0 {
      var h := AnyElement(m.Keys);
      var rest := m - {h};
      var t := m[h];
      assert rest.Keys == m.Keys - {h};
      assert |rest| == |m| - 1 by { assert |rest.Keys| == |m.Keys| - 1; }
      forall g, i | g in rest && In(i, rest[g]) ensures i in table - {t.a, t.b, t.c} {
        assert In(i, m[g]) && (In(i, t) ==> g == h);
      }
      TriplesFitIn(rest, n, table - {t.a, t.b, t.c});
      assert In(t.a, t) && In(t.b, t) && In(t.c, t);
      assert table == (table - {t.a, t.b, t.c}) + {t.a, t.b, t.c};
      assert |{t.a, t.b, t.c}| == 3;
    }
  }

  lemma TriplesFit(m: map<int, Triple>, n: nat)
    requires Disjoint(m, n)
    ensures 3 * |m| <= n
  {
    TriplesFitIn(m, n, Table(n));
  }

  ghost predicate NoDup(s: seq<int>) {
    forall j, k :: 0 <= j < k < |s| ==> s[j] != s[k]
  }

  lemma {:induction false} NoDupSize(s: seq<int>, keys: set<int>)
    requires NoDup(s) && forall h :: h in s ==> h in keys
    ensures |s| <= |keys|
  {
    if s != [] {
      var h := s[|s| - 1];
      assert forall g :: g in s[..|s| - 1] ==> g in keys - {h};
      NoDupSize(s[..|s| - 1], keys - {h});
    }
  }
}
