/** Sums over finite maps, and counting the elements of a sequence by what they are. */
module Sums {
  import opened Basics

  ghost function Sum<K>(m: map<K, int>): int {
    if m == map[] then 0 else var k :| k in m; m[k] + Sum(m - {k})
  }

  lemma {:induction false} SumRemove<K>(m: map<K, int>, k: K)
    requires k in m
    ensures Sum(m) == m[k] + Sum(m - {k})
    decreases |m|
  {
    var j :| j in m && Sum(m) == m[j] + Sum(m - {j});
    if j != k {
      SumRemove(m - {j}, k);
      SumRemove(m - {k}, j);
      assert (m - {j}) - {k} == (m - {k}) - {j};
    }
  }

  lemma SumUpdate<K>(m: map<K, int>, k: K, v: int)
    ensures Sum(m[k := v]) == Sum(m) - Lookup(m, k, 0) + v
  {
    SumRemove(m[k := v], k);
    assert m[k := v] - {k} == m - {k};
    if k in m {
      SumRemove(m, k);
    } else {
      assert m - {k} == m;
    }
  }

  /** Moving an amount from one key to another leaves the sum. */
  lemma SumMove<K>(m: map<K, int>, taken: map<K, int>, given: map<K, int>, from: K, to: K, amount: int)
    requires taken == m[from := Lookup(m, from, 0) - amount]
    requires given == taken[to := Lookup(taken, to, 0) + amount]
    ensures Sum(given) == Sum(m)
  {
    SumUpdate(m, from, Lookup(m, from, 0) - amount);
    SumUpdate(taken, to, Lookup(taken, to, 0) + amount);
  }

  /** Pointwise comparison carries over to the sums, and only equal maps have equal sums. */
  lemma {:induction false} SumCompare<K>(a: map<K, int>, b: map<K, int>)
    requires a.Keys == b.Keys && forall k | k in a :: a[k] <= b[k]
    ensures Sum(a) <= Sum(b)
    ensures Sum(a) == Sum(b) <==> a == b
    decreases |a|
  {
    if a == map[] {
      assert b.Keys == {};
      assert b == map[];
    } else {
      var k :| k in a;
      var a', b' := a - {k}, b - {k};
      SumRemove(a, k);
      SumRemove(b, k);
      SumCompare(a', b');
      if a' == b' && a[k] == b[k] {
        forall j | j in a
          ensures a[j] == b[j]
        {
          assert j != k ==> j in a' && a'[j] == a[j] && b'[j] == b[j];
        }
      }
    }
  }

  lemma {:induction false} SumNonNegative<K>(m: map<K, int>)
    requires forall k | k in m :: m[k] >= 0
    ensures Sum(m) >= 0
    decreases |m|
  {
    if m != map[] {
      var k :| k in m;
      SumRemove(m, k);
      SumNonNegative(m - {k});
    }
  }

  lemma SumBoundsMember<K>(m: map<K, int>, k: K)
    requires forall j | j in m :: m[j] >= 0
    ensures 0 <= Lookup(m, k, 0) <= Sum(m)
  {
    SumNonNegative(m);
    if k in m {
      SumRemove(m, k);
      SumNonNegative(m - {k});
    }
  }

  lemma {:induction false} SumOfOnes<K>(m: map<K, int>)
    requires forall k | k in m :: m[k] == 1
    ensures Sum(m) == |m|
    decreases |m|
  {
    if m != map[] {
      var k :| k in m;
      SumRemove(m, k);
      SumOfOnes(m - {k});
    }
  }

  /** How many positions of `q` hold an element of `p`. */
  ghost function CountIn<K>(q: seq<K>, p: set<K>): nat {
    if q == [] then 0 else CountIn(q[..|q| - 1], p) + if q[|q| - 1] in p then 1 else 0
  }

  lemma OccurrencesPush<K>(q: seq<K>, x: K, k: K)
    ensures multiset(q + [x])[k] == multiset(q)[k] + if k == x then 1 else 0
  {
  }

  /** Counting positions is the same as adding up, member by member, the occurrences in the sequence. */
  lemma {:induction false} CountInIsSum<K>(q: seq<K>, p: set<K>)
    ensures CountIn(q, p) == Sum(map k | k in p :: multiset(q)[k])
  {
    if q == [] {
      SumOfZeros(map k | k in p :: multiset(q)[k]);
    } else {
      var init, x := q[..|q| - 1], q[|q| - 1];
      CountInIsSum(init, p);
      CountInPush(init, x, p);
      assert q == init + [x];
    }
  }

  lemma CountInPush<K>(q: seq<K>, x: K, p: set<K>)
    ensures Sum(map k | k in p :: multiset(q + [x])[k]) == Sum(map k | k in p :: multiset(q)[k]) + if x in p then 1 else 0
  {
    var m := map k | k in p :: multiset(q)[k];
    var m' := map k | k in p :: multiset(q + [x])[k];
    forall k | k in p
      ensures m'[k] == m[k] + if k == x then 1 else 0
    {
      OccurrencesPush(q, x, k);
    }
    if x in p {
      SumUpdate(m, x, m[x] + 1);
      assert m' == m[x := m[x] + 1];
    } else {
      assert m' == m;
    }
  }

  lemma {:induction false} SumOfZeros<K>(m: map<K, int>)
    requires forall k | k in m :: m[k] == 0
    ensures Sum(m) == 0
    decreases |m|
  {
    if m != map[] {
      var k :| k in m;
      SumRemove(m, k);
      SumOfZeros(m - {k});
    }
  }
}
