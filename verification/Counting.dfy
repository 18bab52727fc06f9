/** Counting the entries of a map that satisfy a predicate, and summing a map of counters.
    The accounting laws of the gateway relate shared counters to such counts. */
module Counting {

  /** The keys whose value satisfies `p`. */
  ghost function Where<K, V>(m: map<K, V>, p: V -> bool): (s: set<K>)
    ensures s <= m.Keys
  {
    set k | k in m && p(m[k])
  }

  ghost function Count<K, V>(m: map<K, V>, p: V -> bool): (n: nat)
    ensures n <= |m|
  {
    SubsetSize(Where(m, p), m.Keys);
    |Where(m, p)|
  }

  function Bit(b: bool): (n: nat)
    ensures n <= 1
  {
    if b then 1 else 0
  }

  lemma SubsetSize<K>(a: set<K>, b: set<K>)
    requires a <= b
    ensures |a| <= |b|
  {
    assert b == a + (b - a);
  }

  /** Writing one entry moves a count by that entry alone. */
  lemma CountUpdate<K, V>(m: map<K, V>, p: V -> bool, k: K, v: V)
    ensures Count(m[k := v], p) == Count(m, p) - (if k in m then Bit(p(m[k])) else 0) + Bit(p(v))
  {
    var others := Where(m, p) - {k};
    assert Where(m, p) == if k in m && p(m[k]) then others + {k} else others;
    assert Where(m[k := v], p) == if p(v) then others + {k} else others;
  }

  /** Removing one entry takes that entry alone out of a count. */
  lemma CountRemove<K, V>(m: map<K, V>, p: V -> bool, k: K)
    requires k in m
    ensures Count(m - {k}, p) == Count(m, p) - Bit(p(m[k]))
  {
    var others := Where(m, p) - {k};
    assert Where(m, p) == if p(m[k]) then others + {k} else others;
    assert Where(m - {k}, p) == others;
  }

  lemma CountZero<K, V>(m: map<K, V>, p: V -> bool)
    requires forall k :: k in m ==> !p(m[k])
    ensures Count(m, p) == 0
  {
    assert Where(m, p) == {};
  }

  lemma CountPositive<K, V>(m: map<K, V>, p: V -> bool, k: K)
    requires k in m && p(m[k])
    ensures Count(m, p) > 0
  {
    assert k in Where(m, p);
  }

  /** A class split into two disjoint ones is counted by the sum of their counts. */
  lemma CountSplit<K, V>(m: map<K, V>, whole: V -> bool, left: V -> bool, right: V -> bool)
    requires forall k :: k in m ==> (whole(m[k]) <==> left(m[k]) || right(m[k]))
    requires forall k :: k in m ==> !(left(m[k]) && right(m[k]))
    ensures Count(m, whole) == Count(m, left) + Count(m, right)
  {
    assert Where(m, whole) == Where(m, left) + Where(m, right);
    assert Where(m, left) !! Where(m, right);
  }

  /** The sum of all counters of a map. */
  ghost function Sum<K>(m: map<K, nat>): nat
    decreases |m|
  {
    if m == map[] then 0
    else
      var k :| k in m;
      assert |m - {k}| < |m| by { RemoveShrinks(m, k); }
      m[k] + Sum(m - {k})
  }

  lemma RemoveShrinks<K, V>(m: map<K, V>, k: K)
    requires k in m
    ensures |m - {k}| == |m| - 1
  {
    assert (m - {k}).Keys == m.Keys - {k};
  }

  /** Any counter may be taken out of the sum first. */
  lemma {:induction false} SumTakes<K>(m: map<K, nat>, k: K)
    requires k in m
    ensures Sum(m) == m[k] + Sum(m - {k})
    decreases |m|
  {
    var j :| j in m && Sum(m) == m[j] + Sum(m - {j});
    if j != k {
      RemoveShrinks(m, j);
      RemoveShrinks(m, k);
      SumTakes(m - {j}, k);
      SumTakes(m - {k}, j);
      assert (m - {j}) - {k} == (m - {k}) - {j};
    }
  }

  lemma SumUpdate<K>(m: map<K, nat>, k: K, v: nat)
    ensures Sum(m[k := v]) == Sum(m) - (if k in m then m[k] else 0) + v
  {
    SumTakes(m[k := v], k);
    if k in m {
      SumTakes(m, k);
      assert m[k := v] - {k} == m - {k};
    } else {
      assert m[k := v] - {k} == m;
    }
  }

  lemma CountWitness<K, V>(m: map<K, V>, p: V -> bool) returns (k: K)
    requires Count(m, p) > 0
    ensures k in m && p(m[k])
  {
    if forall j :: j in m ==> !p(m[j]) {
      CountZero(m, p);
      assert false;
    } else {
      k :| k in m && p(m[k]);
    }
  }

  /** Above any finite set of numbers there are more. */
  lemma {:induction false} UnusedKey(keys: set<int>) returns (key: int)
    ensures forall k :: k in keys ==> k < key
    decreases |keys|
  {
    if k :| k in keys {
      var above := UnusedKey(keys - {k});
      key := if k < above then above else k + 1;
      assert forall j :: j in keys ==> j == k || j in keys - {k};
    } else {
      key := 0;
    }
  }
}
