/** Ordered iteration. A `BTreeMap` or a sled tree is a `map` whose entries are
    visited in the ascending order of its keys; `Ascending` is that order. */
module Ordering {

  ghost predicate StrictTotal<K(!new)>(lt: (K, K) -> bool) {
    && (forall a :: !lt(a, a))
    && (forall a, b :: a == b || lt(a, b) || lt(b, a))
    && (forall a, b, c :: lt(a, b) && lt(b, c) ==> lt(a, c))
  }

  ghost predicate Sorted<K>(s: seq<K>, lt: (K, K) -> bool) {
    forall i, j :: 0 <= i < j < |s| ==> lt(s[i], s[j])
  }

  function Least<K(!new, ==)>(s: set<K>, lt: (K, K) -> bool): (m: K)
    requires StrictTotal(lt) && s != {}
    ensures m in s && forall k :: k in s && k != m ==> lt(m, k)
  {
    LeastExists(s, lt);
    var m :| m in s && forall k :: k in s && k != m ==> lt(m, k);
    m
  }

  /** The elements of `s` from smallest to largest. */
  function Ascending<K(!new, ==)>(s: set<K>, lt: (K, K) -> bool): (r: seq<K>)
    requires StrictTotal(lt)
    ensures Sorted(r, lt)
    ensures forall k :: k in r <==> k in s
    ensures |r| == |s|
    decreases |s|
  {
    if s == {} then []
    else
      var m := Least(s, lt);
      var rest := Ascending(s - {m}, lt);
      assert forall i :: 0 <= i < |rest| ==> rest[i] in s - {m};
      [m] + rest
  }

  lemma LeastExists<K(!new)>(s: set<K>, lt: (K, K) -> bool)
    requires StrictTotal(lt) && s != {}
    ensures exists m :: m in s && forall k :: k in s && k != m ==> lt(m, k)
    decreases |s|
  {
    var x :| x in s;
    if s != {x} {
      LeastExists(s - {x}, lt);
      var m :| m in s - {x} && forall k :: k in s - {x} && k != m ==> lt(m, k);
      LeastOfTwo(s, x, m, lt);
    }
  }

  lemma LeastOfTwo<K(!new)>(s: set<K>, x: K, m: K, lt: (K, K) -> bool)
    requires StrictTotal(lt) && x in s && m in s && m != x
    requires forall k :: k in s && k != x && k != m ==> lt(m, k)
    ensures var best := if lt(x, m) then x else m; forall k :: k in s && k != best ==> lt(best, k)
  {
    forall k | k in s && k != x && lt(x, m) ensures lt(x, k) {
      if k != m { assert lt(m, k); }
    }
  }

  lemma BothEmptyOrNeither<K>(a: seq<K>, b: seq<K>)
    requires forall k :: k in a <==> k in b
    ensures a == [] <==> b == []
  {
    if a != [] { assert a[0] in b; }
    if b != [] { assert b[0] in a; }
  }

  /** A sorted sequence is determined by its elements. */
  lemma {:induction false} SortedUnique<K(!new)>(a: seq<K>, b: seq<K>, lt: (K, K) -> bool)
    requires StrictTotal(lt) && Sorted(a, lt) && Sorted(b, lt)
    requires forall k :: k in a <==> k in b
    ensures a == b
  {
    BothEmptyOrNeither(a, b);
    if a != [] {
      assert a[0] in b && b[0] in a;
      assert a[0] == b[0];
      forall k ensures k in a[1..] <==> k in b[1..] {
        if k in a[1..] { assert k in b && k != b[0]; }
        if k in b[1..] { assert k in a && k != a[0]; }
      }
      SortedUnique(a[1..], b[1..], lt);
    }
  }

  lemma AscendingIs<K(!new)>(s: set<K>, a: seq<K>, lt: (K, K) -> bool)
    requires StrictTotal(lt) && Sorted(a, lt)
    requires forall k :: k in a <==> k in s
    ensures Ascending(s, lt) == a
  {
    SortedUnique(Ascending(s, lt), a, lt);
  }
}
