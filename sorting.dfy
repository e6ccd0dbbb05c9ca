/** Ordering helpers that stand in for the database: a store's records are
    visited in ascending id order, filtered, and sorted by one key with
    `Sort.by(DESC, key)`. An ascending sort on a key is the descending sort on
    its negation. */
module Sorting {

  /** Every element's key is at least that of every later element. */
  predicate SortedDesc<T>(s: seq<T>, key: T -> int)
  {
    forall i, j :: 0 <= i < j < |s| ==> key(s[i]) >= key(s[j])
  }

  /** No element occurs twice. */
  predicate NoDuplicates<T(==)>(s: seq<T>)
  {
    forall i, j :: 0 <= i < j < |s| ==> s[i] != s[j]
  }

  /** No value is stored under two keys. */
  predicate Injective<V(==)>(m: map<int, V>)
  {
    forall k1, k2 :: k1 in m && k2 in m && m[k1] == m[k2] ==> k1 == k2
  }

  /** The tail of a list without repeats has none either, and lacks the head. */
  lemma NoDuplicatesTail<T>(s: seq<T>)
    requires NoDuplicates(s) && s != []
    ensures NoDuplicates(s[1..]) && s[0] !in s[1..]
  {
  }

  /** A record absent from a list without repeats may go before it. */
  lemma ConsNoDuplicates<T>(x: T, s: seq<T>)
    requires NoDuplicates(s) && x !in s
    ensures NoDuplicates([x] + s)
  {
    var r := [x] + s;
    forall i, j | 0 <= i < j < |r| ensures r[i] != r[j] {
      assert r[j] == s[j - 1];
      if i > 0 {
        assert r[i] == s[i - 1];
      }
    }
  }

  /** A record whose key is at least every key of a sorted list may go before it. */
  lemma ConsSorted<T>(h: T, s: seq<T>, key: T -> int)
    requires SortedDesc(s, key) && forall y :: y in s ==> key(y) <= key(h)
    ensures SortedDesc([h] + s, key)
  {
    var r := [h] + s;
    forall i, j | 0 <= i < j < |r| ensures key(r[i]) >= key(r[j]) {
      assert r[j] == s[j - 1];
      if i > 0 {
        assert r[i] == s[i - 1];
      } else {
        assert s[j - 1] in s;
      }
    }
  }

  /** The head of a sorted list has the greatest key. */
  lemma HeadIsMax<T>(s: seq<T>, key: T -> int)
    requires SortedDesc(s, key) && s != []
    ensures forall y :: y in s ==> key(y) <= key(s[0])
  {
    forall y | y in s ensures key(y) <= key(s[0]) {
      var k :| 0 <= k < |s| && s[k] == y;
    }
  }

  /** The recursive step of Insert: the head stays in front of the tail with
      `x` inserted. */
  lemma InsertStep<T>(x: T, s: seq<T>, rest: seq<T>, key: T -> int)
    requires SortedDesc(s, key) && s != [] && key(x) < key(s[0])
    requires SortedDesc(rest, key) && multiset(rest) == multiset(s[1..]) + multiset{x}
    requires |rest| == |s| && forall y :: y in rest ==> y == x || y in s[1..]
    ensures SortedDesc([s[0]] + rest, key)
    ensures multiset([s[0]] + rest) == multiset(s) + multiset{x}
    ensures forall y :: y in [s[0]] + rest ==> y == x || y in s
  {
    HeadIsMax(s, key);
    forall y | y in rest ensures key(y) <= key(s[0]) {
      if y != x {
        assert y in s;
      }
    }
    ConsSorted(s[0], rest, key);
    assert s == [s[0]] + s[1..];
    assert multiset([s[0]] + rest) == multiset{s[0]} + multiset(rest);
  }

  /** Places `x` before the first element whose key is not greater than its own. */
  function Insert<T>(x: T, s: seq<T>, key: T -> int): (r: seq<T>)
    requires SortedDesc(s, key)
    ensures SortedDesc(r, key)
    ensures multiset(r) == multiset(s) + multiset{x}
    ensures |r| == |s| + 1
    ensures forall y :: y in r ==> y == x || y in s
    ensures NoDuplicates(s) && x !in s ==> NoDuplicates(r)
  {
    if s == [] then
      [x]
    else if key(x) >= key(s[0]) then
      HeadIsMax(s, key);
      ConsSorted(x, s, key);
      assert NoDuplicates(s) && x !in s ==> NoDuplicates([x] + s) by {
        if NoDuplicates(s) && x !in s { ConsNoDuplicates(x, s); }
      }
      [x] + s
    else
      var rest := Insert(x, s[1..], key);
      InsertStep(x, s, rest, key);
      assert NoDuplicates(s) && x !in s ==> NoDuplicates([s[0]] + rest) by {
        if NoDuplicates(s) && x !in s {
          NoDuplicatesTail(s);
          assert x !in s[1..];
          ConsNoDuplicates(s[0], rest);
        }
      }
      [s[0]] + rest
  }

  /** An insertion sort by descending key. */
  function SortDesc<T(!new)>(s: seq<T>, key: T -> int): (r: seq<T>)
    ensures SortedDesc(r, key)
    ensures multiset(r) == multiset(s)
    ensures forall x :: x in r <==> x in s
    ensures |r| == |s|
    ensures NoDuplicates(s) ==> NoDuplicates(r)
  {
    if s == [] then
      []
    else
      assert s == [s[0]] + s[1..];
      var sorted := SortDesc(s[1..], key);
      var r := Insert(s[0], sorted, key);
      forall x ensures x in r <==> x in s {
        assert x in r <==> x in multiset(r);
        assert x in s <==> x in multiset(s);
      }
      assert NoDuplicates(s) ==> NoDuplicates(r) by {
        if NoDuplicates(s) {
          NoDuplicatesTail(s);
          assert s[0] !in sorted;
        }
      }
      r
  }

  /** The elements of `s` that satisfy `p`, in their original order. */
  function Filter<T(!new)>(s: seq<T>, p: T -> bool): (r: seq<T>)
    ensures forall x :: x in r <==> x in s && p(x)
    ensures |r| <= |s|
    ensures NoDuplicates(s) ==> NoDuplicates(r)
  {
    if s == [] then []
    else
      var rest := Filter(s[1..], p);
      assert NoDuplicates(s) ==> NoDuplicates(rest) && s[0] !in rest by {
        if NoDuplicates(s) { NoDuplicatesTail(s); }
      }
      if p(s[0]) then
        assert NoDuplicates(s) ==> NoDuplicates([s[0]] + rest) by {
          if NoDuplicates(s) { ConsNoDuplicates(s[0], rest); }
        }
        [s[0]] + rest
      else rest
  }

  /** `f` applied to every element of `s`, in order. */
  function MapSeq<A(!new), B(!new)>(s: seq<A>, f: A -> B): (r: seq<B>)
    ensures |r| == |s| && forall k :: 0 <= k < |s| ==> r[k] == f(s[k])
    ensures forall b :: b in r <==> exists a :: a in s && b == f(a)
    ensures NoDuplicates(s) && (forall a1, a2 :: a1 in s && a2 in s && f(a1) == f(a2) ==> a1 == a2)
      ==> NoDuplicates(r)
  {
    var r := seq(|s|, k requires 0 <= k < |s| => f(s[k]));
    assert NoDuplicates(s) && (forall a1, a2 :: a1 in s && a2 in s && f(a1) == f(a2) ==> a1 == a2)
      ==> NoDuplicates(r) by {
      if NoDuplicates(s) && (forall a1, a2 :: a1 in s && a2 in s && f(a1) == f(a2) ==> a1 == a2) {
        forall i, j | 0 <= i < j < |r| ensures r[i] != r[j] {
          assert s[i] in s && s[j] in s;
        }
      }
    }
    assert forall b :: b in r ==> exists a :: a in s && b == f(a) by {
      forall b | b in r ensures exists a :: a in s && b == f(a) {
        var k :| 0 <= k < |r| && r[k] == b;
        assert s[k] in s;
      }
    }
    assert forall a :: a in s ==> f(a) in r by {
      forall a | a in s ensures f(a) in r {
        var k :| 0 <= k < |s| && s[k] == a;
        assert r[k] == f(a);
      }
    }
    r
  }

  /** Filtering keeps a sorted sequence sorted (the groups of a grouping keep
      the order of the list they were drawn from). */
  lemma {:induction false} FilterKeepsSorted<T(!new)>(s: seq<T>, p: T -> bool, key: T -> int)
    requires SortedDesc(s, key)
    ensures SortedDesc(Filter(s, p), key)
  {
    if s != [] {
      FilterKeepsSorted(s[1..], p, key);
      var rest := Filter(s[1..], p);
      forall k | 0 <= k < |rest| ensures key(rest[k]) <= key(s[0]) {
        assert rest[k] in s[1..];
      }
    }
  }

  /** The least element of a non-empty finite set of ids. */
  function Least(s: set<int>): (m: int)
    requires s != {}
    ensures m in s && forall y :: y in s ==> m <= y
  {
    LeastExists(s);
    var m :| m in s && forall y :: y in s ==> m <= y;
    m
  }

  lemma {:induction false} LeastExists(s: set<int>)
    requires s != {}
    ensures exists x :: x in s && forall y :: y in s ==> x <= y
    decreases s
  {
    // A set with no member equals {} by extensionality, which the solver
    // applies only in this direction; it then has a witness for `x`.
    if forall x :: x !in s { assert false; }
    var x :| x in s;
    if s != {x} {
      LeastExists(s - {x});
      var m :| m in s - {x} && forall y :: y in s - {x} ==> m <= y;
      var least := if x < m then x else m;
      forall y | y in s ensures least <= y {
        if y != x { assert y in s - {x}; }
      }
    }
  }

  predicate StrictlyIncreasing(s: seq<int>)
  {
    forall i, j :: 0 <= i < j < |s| ==> s[i] < s[j]
  }

  /** Putting a set's least element before the rest of it in ascending order
      gives the whole set in ascending order. */
  lemma AscendingStep(s: set<int>, m: int, rest: seq<int>)
    requires m in s && forall y :: y in s ==> m <= y
    requires StrictlyIncreasing(rest) && |rest| == |s - {m}|
    requires forall x :: x in rest <==> x in s - {m}
    ensures StrictlyIncreasing([m] + rest)
    ensures forall x :: x in [m] + rest <==> x in s
    ensures |[m] + rest| == |s|
  {
    var r := [m] + rest;
    forall i, j | 0 <= i < j < |r| ensures r[i] < r[j] {
      assert r[j] == rest[j - 1];
      if i > 0 {
        assert r[i] == rest[i - 1];
      } else {
        assert rest[j - 1] in s - {m};
      }
    }
    assert |s - {m}| == |s| - 1;
  }

  /** The ids of a set in ascending order. */
  function Ascending(s: set<int>): (r: seq<int>)
    ensures StrictlyIncreasing(r)
    ensures forall x :: x in r <==> x in s
    ensures |r| == |s|
    decreases s
  {
    if s == {} then []
    else
      var m := Least(s);
      var rest := Ascending(s - {m});
      AscendingStep(s, m, rest);
      [m] + rest
  }

  /** Reading a store without repeated values at ascending keys yields no
      value twice. */
  lemma DistinctKeysDistinctValues<V>(m: map<int, V>, ids: seq<int>, r: seq<V>)
    requires Injective(m) && StrictlyIncreasing(ids) && |r| == |ids|
    requires forall i :: 0 <= i < |r| ==> ids[i] in m && m[ids[i]] == r[i]
    ensures NoDuplicates(r)
  {
    forall i, j | 0 <= i < j < |r| ensures r[i] != r[j] {
      assert ids[i] < ids[j];
    }
  }

  /** The values of an id-keyed store, visited in ascending id order. */
  function InIdOrder<V(==,!new)>(m: map<int, V>): (r: seq<V>)
    ensures |r| == |m|
    ensures forall v :: v in r <==> v in m.Values
    ensures Injective(m) ==> NoDuplicates(r)
  {
    var ids := Ascending(m.Keys);
    var r := seq(|ids|, i requires 0 <= i < |ids| => m[ids[i]]);
    assert forall i :: 0 <= i < |r| ==> ids[i] in m && m[ids[i]] == r[i];
    assert Injective(m) ==> NoDuplicates(r) by {
      if Injective(m) { DistinctKeysDistinctValues(m, ids, r); }
    }
    forall v | v in m.Values ensures v in r {
      var k :| k in m && m[k] == v;
      assert k in ids;
      var i :| 0 <= i < |ids| && ids[i] == k;
      assert r[i] == v;
    }
    forall v | v in r ensures v in m.Values {
      var i :| 0 <= i < |r| && r[i] == v;
      assert ids[i] in m;
    }
    r
  }

  /** A value of a map is stored under some key. The verifier relates a map's
      values to its keys only once the keys are enumerated, hence `ids`. */
  lemma ValueHasKey<V(!new)>(m: map<int, V>, v: V)
    requires v in m.Values
    ensures exists k :: k in m && m[k] == v
  {
    var ids := Ascending(m.Keys);
    var k :| k in m && m[k] == v;
  }
}
