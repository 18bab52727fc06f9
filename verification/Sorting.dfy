/** Listing the keys of a map in a strict total order, as `sort_unstable` leaves them. */
module Sorting {

  ghost predicate StrictTotal<K(!new)>(less: (K, K) -> bool) {
    && (forall a :: !less(a, a))
    && (forall a, b :: a != b ==> less(a, b) || less(b, a))
    && (forall a, b, c :: less(a, b) && less(b, c) ==> less(a, c))
  }

  /** `s` lists exactly `keys`, strictly increasing. */
  ghost predicate Lists<K(!new)>(s: seq<K>, keys: set<K>, less: (K, K) -> bool) {
    && (forall k :: k in s <==> k in keys)
    && (forall i, j :: 0 <= i < j < |s| ==> less(s[i], s[j]))
  }

  lemma {:induction false} LeastExists<K(!new)>(keys: set<K>, less: (K, K) -> bool) returns (least: K)
    requires StrictTotal(less) && keys != {}
    ensures least in keys && forall k :: k in keys && k != least ==> less(least, k)
    decreases |keys|
  {
    var k :| k in keys;
    least := k;
    if keys - {k} != {} {
      var other := LeastExists(keys - {k}, less);
      least := if less(k, other) then k else other;
      forall j | j in keys && j != least ensures less(least, j) {
        if j != k && j != other { assert j in keys - {k} && less(other, j); }
      }
    } else {
      assert keys == {k};
    }
  }

  lemma EmptyListsNothing<K(!new)>(s: seq<K>, keys: set<K>, less: (K, K) -> bool)
    requires Lists(s, keys, less)
    ensures s == [] <==> keys == {}
  {
    if s != [] { assert s[0] in s; }
    if k :| k in keys { assert k in s; }
  }

  /** There is only one such list. */
  lemma {:induction false} ListIsUnique<K(!new)>(s: seq<K>, t: seq<K>, keys: set<K>, less: (K, K) -> bool)
    requires StrictTotal(less) && Lists(s, keys, less) && Lists(t, keys, less)
    ensures s == t
    decreases |s|
  {
    EmptyListsNothing(s, keys, less);
    EmptyListsNothing(t, keys, less);
    if s != [] {
      assert s[0] in keys && t[0] in keys;
      assert s[0] == t[0] by {
        var i :| 0 <= i < |t| && t[i] == s[0];
        var j :| 0 <= j < |s| && s[j] == t[0];
      }
      TailLists(s, keys, less);
      TailLists(t, keys, less);
      ListIsUnique(s[1..], t[1..], keys - {s[0]}, less);
    }
  }

  lemma TailLists<K(!new)>(s: seq<K>, keys: set<K>, less: (K, K) -> bool)
    requires StrictTotal(less) && s != [] && Lists(s, keys, less)
    ensures Lists(s[1..], keys - {s[0]}, less)
  {
    forall k ensures k in s[1..] <==> k in keys - {s[0]} {
      if k in keys && k != s[0] {
        var i :| 0 <= i < |s| && s[i] == k;
        assert s[1..][i - 1] == k;
      }
      if k in s[1..] {
        var i :| 0 <= i < |s| - 1 && s[1..][i] == k;
        assert less(s[0], s[i + 1]);
      }
    }
  }

  /** Collects the keys by repeatedly taking the least one left. */
  method Sort<K(!new, ==)>(keys: set<K>, less: (K, K) -> bool) returns (s: seq<K>)
    requires StrictTotal(less)
    ensures Lists(s, keys, less)
  {
    s := [];
    var todo := keys;
    while todo != {}
      invariant todo <= keys
      invariant forall k :: k in s <==> k in keys - todo
      invariant forall i, j :: 0 <= i < j < |s| ==> less(s[i], s[j])
      invariant forall i, k :: 0 <= i < |s| && k in todo ==> less(s[i], k)
      decreases |todo|
    {
      ghost var _ := LeastExists(todo, less);
      var k :| k in todo && forall j :: j in todo && j != k ==> less(k, j);
      s := s + [k];
      todo := todo - {k};
    }
  }

  ghost function Sorted<K(!new)>(keys: set<K>, less: (K, K) -> bool): (s: seq<K>)
    requires StrictTotal(less)
    ensures Lists(s, keys, less)
  {
    SortedExists(keys, less);
    var s :| Lists(s, keys, less);
    s
  }

  lemma {:induction false} SortedExists<K(!new)>(keys: set<K>, less: (K, K) -> bool)
    requires StrictTotal(less)
    ensures exists s :: Lists(s, keys, less)
    decreases |keys|
  {
    if keys == {} {
      assert Lists([], keys, less);
    } else {
      var least := LeastExists(keys, less);
      SortedExists(keys - {least}, less);
      var rest :| Lists(rest, keys - {least}, less);
      var all := [least] + rest;
      forall i, j | 0 <= i < j < |all| ensures less(all[i], all[j]) {
        assert all[j] == rest[j - 1] && rest[j - 1] in keys - {least};
      }
      assert Lists(all, keys, less);
    }
  }

  // ----- The two orders in use -----

  predicate NumberLess(a: nat, b: nat) { a < b }

  /** Lexicographic order of strings. */
  predicate StringLess(a: string, b: string) {
    b != [] && (a == [] || a[0] < b[0] || (a[0] == b[0] && StringLess(a[1..], b[1..])))
  }

  /** At the first place where they differ, `a` has the smaller character or has ended. */
  ghost predicate ComesFirst(a: string, b: string) {
    exists k :: 0 <= k <= |a| && k < |b| && a[..k] == b[..k] && (k == |a| || a[k] < b[k])
  }

  lemma {:induction false} StringLessIff(a: string, b: string)
    ensures StringLess(a, b) <==> ComesFirst(a, b)
    decreases |a|
  {
    if a == [] || b == [] || a[0] != b[0] {
      assert a[..0] == b[..0];
      assert forall k :: 0 < k <= |a| && k < |b| ==> a[..k][0] == a[0] && b[..k][0] == b[0];
    } else {
      StringLessIff(a[1..], b[1..]);
      if ComesFirst(a[1..], b[1..]) {
        var k :| 0 <= k <= |a[1..]| && k < |b[1..]| && a[1..][..k] == b[1..][..k]
                 && (k == |a[1..]| || a[1..][k] < b[1..][k]);
        assert a[..k + 1] == [a[0]] + a[1..][..k] == b[..k + 1];
      }
      if ComesFirst(a, b) {
        var k :| 0 <= k <= |a| && k < |b| && a[..k] == b[..k] && (k == |a| || a[k] < b[k]);
        assert a[1..][..k - 1] == a[..k][1..] == b[..k][1..] == b[1..][..k - 1];
      }
    }
  }

  lemma NumberLessIsTotal()
    ensures StrictTotal(NumberLess)
  {
  }

  lemma {:induction false} StringLessIrreflexive(a: string)
    ensures !StringLess(a, a)
  {
    if a != [] { StringLessIrreflexive(a[1..]); }
  }

  lemma {:induction false} StringLessConnected(a: string, b: string)
    requires a != b
    ensures StringLess(a, b) || StringLess(b, a)
  {
    if a != [] && b != [] && a[0] == b[0] {
      assert a == [a[0]] + a[1..] && b == [b[0]] + b[1..];
      StringLessConnected(a[1..], b[1..]);
    }
  }

  lemma {:induction false} StringLessTransitive(a: string, b: string, c: string)
    requires StringLess(a, b) && StringLess(b, c)
    ensures StringLess(a, c)
  {
    if a != [] && a[0] == b[0] && b[0] == c[0] { StringLessTransitive(a[1..], b[1..], c[1..]); }
  }

  lemma StringLessIsTotal()
    ensures StrictTotal(StringLess)
  {
    forall a ensures !StringLess(a, a) { StringLessIrreflexive(a); }
    forall a, b | a != b ensures StringLess(a, b) || StringLess(b, a) { StringLessConnected(a, b); }
    forall a, b, c | StringLess(a, b) && StringLess(b, c) ensures StringLess(a, c) { StringLessTransitive(a, b, c); }
  }
}
