/** The collection operations the statistics and reports are built from:
    sums, grouping by a key in order of first appearance (PHP associative arrays
    and Laravel's groupBy keep that order), a stable descending sort (Laravel's
    sortByDesc) and take. */
module Aggregate {

  /** The sum of f over xs. */
  function Sum<T>(xs: seq<T>, f: T -> real): real {
    if xs == [] then 0.0 else Sum(xs[..|xs| - 1], f) + f(xs[|xs| - 1])
  }

  lemma {:induction false} SumAppend<T>(xs: seq<T>, ys: seq<T>, f: T -> real)
    ensures Sum(xs + ys, f) == Sum(xs, f) + Sum(ys, f)
    decreases |ys|
  {
    if ys == [] {
      assert xs + ys == xs;
    } else {
      var ys' := ys[..|ys| - 1];
      assert (xs + ys)[..|xs + ys| - 1] == xs + ys';
      SumAppend(xs, ys', f);
    }
  }

  /** Summing a constant 1 counts. */
  lemma {:induction false} SumOfOnes<T>(xs: seq<T>, f: T -> real)
    requires forall x :: f(x) == 1.0
    ensures Sum(xs, f) == |xs| as real
  {
    if xs != [] {
      SumOfOnes(xs[..|xs| - 1], f);
    }
  }

  predicate Distinct<K(==)>(ks: seq<K>) {
    forall i, j :: 0 <= i < j < |ks| ==> ks[i] != ks[j]
  }

  /** The members of xs whose key is k, in their original order. */
  function Select<T, K(==)>(xs: seq<T>, key: T -> K, k: K): seq<T> {
    if xs == [] then []
    else
      var rest := Select(xs[..|xs| - 1], key, k);
      if key(xs[|xs| - 1]) == k then rest + [xs[|xs| - 1]] else rest
  }

  /** Select keeps exactly the members whose key is k. */
  lemma {:induction false} SelectMembers<T, K>(xs: seq<T>, key: T -> K, k: K)
    ensures forall y :: y in Select(xs, key, k) <==> y in xs && key(y) == k
  {
    if xs != [] {
      var xs' := xs[..|xs| - 1];
      SelectMembers(xs', key, k);
      assert xs == xs' + [xs[|xs| - 1]];
    }
  }

  /** The keys of xs, each once, in order of first appearance. */
  function Keys<T, K(==)>(xs: seq<T>, key: T -> K): (r: seq<K>)
    ensures Distinct(r)
    ensures forall i :: 0 <= i < |xs| ==> key(xs[i]) in r
    ensures forall j :: 0 <= j < |r| ==> exists i :: 0 <= i < |xs| && key(xs[i]) == r[j]
  {
    if xs == [] then []
    else
      var xs' := xs[..|xs| - 1];
      var k := key(xs[|xs| - 1]);
      var ks := Keys(xs', key);
      assert forall i :: 0 <= i < |xs'| ==> xs'[i] == xs[i];
      if k in ks then ks else ks + [k]
  }

  /** Extending a prefix by one element. */
  lemma {:induction false} PrefixSnoc<T>(s: seq<T>, k: nat)
    requires k < |s|
    ensures s[..k + 1] == s[..k] + [s[k]]
  {
    assert (s[..k] + [s[k]])[k] == s[k];
  }

  /** Appending an element adds its key at the end unless the key is already
      listed. */
  lemma {:induction false} KeysSnoc<T, K>(xs: seq<T>, x: T, key: T -> K)
    ensures Keys(xs + [x], key) == if key(x) in Keys(xs, key) then Keys(xs, key) else Keys(xs, key) + [key(x)]
  {
    assert (xs + [x])[..|xs|] == xs;
  }

  datatype Group<K, T> = Group(key: K, members: seq<T>)

  /** One group per key of ks, holding the members of xs with that key. */
  function GroupsFor<T, K(==)>(ks: seq<K>, xs: seq<T>, key: T -> K): (gs: seq<Group<K, T>>)
    ensures |gs| == |ks|
  {
    if ks == [] then []
    else GroupsFor(ks[..|ks| - 1], xs, key) + [Group(ks[|ks| - 1], Select(xs, key, ks[|ks| - 1]))]
  }

  /** Laravel's groupBy: groups in order of the first appearance of their key. */
  function GroupBy<T, K(==)>(xs: seq<T>, key: T -> K): seq<Group<K, T>> {
    GroupsFor(Keys(xs, key), xs, key)
  }

  /** The sum of f over the members of every group. */
  function GroupsSum<K, T>(gs: seq<Group<K, T>>, f: T -> real): real {
    if gs == [] then 0.0 else GroupsSum(gs[..|gs| - 1], f) + Sum(gs[|gs| - 1].members, f)
  }

  lemma {:induction false} SelectSnoc<T, K>(xs: seq<T>, x: T, key: T -> K, k: K)
    ensures Select(xs + [x], key, k) == Select(xs, key, k) + (if key(x) == k then [x] else [])
  {
    assert (xs + [x])[..|xs + [x]| - 1] == xs;
    assert (xs + [x])[|xs + [x]| - 1] == x;
  }

  /** Group i of GroupsFor(ks, ...) has key ks[i] and the members of that key. */
  lemma {:induction false} GroupsForAt<T, K>(ks: seq<K>, xs: seq<T>, key: T -> K, i: nat)
    requires i < |ks|
    ensures GroupsFor(ks, xs, key)[i] == Group(ks[i], Select(xs, key, ks[i]))
  {
    if i < |ks| - 1 {
      GroupsForAt(ks[..|ks| - 1], xs, key, i);
    }
  }

  /** Appending x to the data adds f(x) to the group sums exactly when some
      group has x's key. */
  lemma {:induction false} GroupsSumSnoc<T, K>(ks: seq<K>, xs: seq<T>, x: T, key: T -> K, f: T -> real)
    requires Distinct(ks)
    ensures GroupsSum(GroupsFor(ks, xs + [x], key), f)
         == GroupsSum(GroupsFor(ks, xs, key), f) + (if key(x) in ks then f(x) else 0.0)
  {
    if ks != [] {
      var ks' := ks[..|ks| - 1];
      var k := ks[|ks| - 1];
      assert Distinct(ks');
      assert key(x) in ks <==> key(x) in ks' || key(x) == k;
      assert k !in ks' by {
        forall i | 0 <= i < |ks'| ensures ks'[i] != k {
          assert ks'[i] == ks[i];
        }
      }
      GroupsSumSnoc(ks', xs, x, key, f);
      var extra: seq<T> := if key(x) == k then [x] else [];
      SelectSnoc(xs, x, key, k);
      SumAppend(Select(xs, key, k), extra, f);
      assert Sum(extra, f) == if key(x) == k then f(x) else 0.0 by {
        if key(x) == k {
          assert extra[..0] == [];
        }
      }
      assert GroupsFor(ks, xs + [x], key)[..|ks| - 1] == GroupsFor(ks', xs + [x], key);
      assert GroupsFor(ks, xs, key)[..|ks| - 1] == GroupsFor(ks', xs, key);
    }
  }

  /** Grouping loses and duplicates nothing: over any distinct key list that
      covers the data, the group sums add up to the sum of the data. */
  lemma {:induction false} GroupsSumCovers<T, K>(ks: seq<K>, xs: seq<T>, key: T -> K, f: T -> real)
    requires Distinct(ks)
    requires forall i :: 0 <= i < |xs| ==> key(xs[i]) in ks
    ensures GroupsSum(GroupsFor(ks, xs, key), f) == Sum(xs, f)
    decreases |xs|
  {
    if xs == [] {
      GroupsSumEmpty(ks, key, f);
    } else {
      var xs' := xs[..|xs| - 1];
      var x := xs[|xs| - 1];
      assert xs == xs' + [x];
      assert forall i :: 0 <= i < |xs'| ==> key(xs'[i]) in ks by {
        forall i | 0 <= i < |xs'| ensures key(xs'[i]) in ks {
          assert xs'[i] == xs[i];
        }
      }
      GroupsSumCovers(ks, xs', key, f);
      GroupsSumSnoc(ks, xs', x, key, f);
      assert key(x) in ks;
      assert Sum(xs, f) == Sum(xs', f) + f(x);
    }
  }

  lemma {:induction false} GroupsSumEmpty<T, K>(ks: seq<K>, key: T -> K, f: T -> real)
    ensures GroupsSum(GroupsFor(ks, [], key), f) == 0.0
  {
    if ks != [] {
      var gs := GroupsFor(ks, [], key);
      assert gs[..|gs| - 1] == GroupsFor(ks[..|ks| - 1], [], key);
      GroupsSumEmpty(ks[..|ks| - 1], key, f);
    }
  }

  /** The per-group sums of GroupBy add up to the total. */
  lemma {:induction false} GroupBySum<T, K>(xs: seq<T>, key: T -> K, f: T -> real)
    ensures GroupsSum(GroupBy(xs, key), f) == Sum(xs, f)
  {
    GroupsSumCovers(Keys(xs, key), xs, key, f);
  }

  predicate SortedDesc<T>(xs: seq<T>, key: T -> real) {
    forall i, j :: 0 <= i < j < |xs| ==> key(xs[i]) >= key(xs[j])
  }

  /** Inserts x into a descending sequence after every element whose key is
      at least key(x), so earlier equal keys stay first. */
  function InsertDesc<T(==)>(sorted: seq<T>, x: T, key: T -> real): (r: seq<T>)
    requires SortedDesc(sorted, key)
    ensures SortedDesc(r, key)
    ensures multiset(r) == multiset(sorted) + multiset{x}
  {
    if sorted == [] then [x]
    else if key(sorted[0]) >= key(x) then
      var rest := InsertDesc(sorted[1..], x, key);
      assert sorted == [sorted[0]] + sorted[1..];
      ConsHeadDesc(sorted, x, key, rest);
      [sorted[0]] + rest
    else
      ConsHeadDesc(sorted, x, key, sorted);
      [x] + sorted
  }

  /** Prepending the head of a descending sequence (or a key above it) to a
      descending arrangement of its remaining elements and x keeps the
      order. */
  lemma {:induction false} ConsHeadDesc<T>(sorted: seq<T>, x: T, key: T -> real, rest: seq<T>)
    requires SortedDesc(sorted, key) && SortedDesc(rest, key) && sorted != []
    requires key(sorted[0]) >= key(x) ==> multiset(rest) == multiset(sorted[1..]) + multiset{x}
    requires key(sorted[0]) < key(x) ==> rest == sorted
    ensures key(sorted[0]) >= key(x) ==> SortedDesc([sorted[0]] + rest, key)
    ensures key(sorted[0]) < key(x) ==> SortedDesc([x] + rest, key)
  {
    var head := if key(sorted[0]) >= key(x) then sorted[0] else x;
    forall i | 0 <= i < |rest| ensures key(head) >= key(rest[i]) {
      HeadAboveRest(sorted, x, key, rest, i);
    }
    ConsDesc(head, rest, key);
  }

  /** The element at i of the arrangement lies at or below the new head. */
  lemma {:induction false} HeadAboveRest<T>(sorted: seq<T>, x: T, key: T -> real, rest: seq<T>, i: nat)
    requires SortedDesc(sorted, key) && sorted != [] && i < |rest|
    requires key(sorted[0]) >= key(x) ==> multiset(rest) == multiset(sorted[1..]) + multiset{x}
    requires key(sorted[0]) < key(x) ==> rest == sorted
    ensures key(if key(sorted[0]) >= key(x) then sorted[0] else x) >= key(rest[i])
  {
    if key(sorted[0]) >= key(x) {
      if rest[i] != x {
        assert rest[i] in multiset(rest);
        assert rest[i] in sorted[1..];
        var j :| 0 <= j < |sorted[1..]| && sorted[1..][j] == rest[i];
        assert sorted[j + 1] == rest[i];
      }
    } else {
      assert rest[i] == sorted[i];
    }
  }

  /** A head at or above every element of a descending sequence extends it. */
  lemma {:induction false} ConsDesc<T>(head: T, rest: seq<T>, key: T -> real)
    requires SortedDesc(rest, key)
    requires forall i :: 0 <= i < |rest| ==> key(head) >= key(rest[i])
    ensures SortedDesc([head] + rest, key)
  {
    var r := [head] + rest;
    forall i, j | 0 <= i < j < |r| ensures key(r[i]) >= key(r[j]) {
      assert r[j] == rest[j - 1];
      if i > 0 {
        assert r[i] == rest[i - 1];
      }
    }
  }

  /** Laravel's sortByDesc: a stable sort by descending key. */
  function SortDesc<T(==)>(xs: seq<T>, key: T -> real): (r: seq<T>)
    ensures |r| == |xs|
    ensures multiset(r) == multiset(xs)
    ensures SortedDesc(r, key)
  {
    if xs == [] then []
    else
      assert xs == xs[..|xs| - 1] + [xs[|xs| - 1]];
      var r := InsertDesc(SortDesc(xs[..|xs| - 1], key), xs[|xs| - 1], key);
      assert |r| == |multiset(r)|;
      r
  }

  /** Laravel's take(n): the first n elements, or all when there are fewer. */
  function Take<T>(xs: seq<T>, n: nat): (r: seq<T>)
    ensures |r| == if |xs| < n then |xs| else n
    ensures r <= xs
  {
    if |xs| < n then xs else xs[..n]
  }

  /** Taking a prefix of a descending sequence keeps its largest keys: every
      element left out ranks at or below every element taken. */
  lemma {:induction false} TakeSortedDominates<T>(sorted: seq<T>, n: nat, key: T -> real, x: T)
    requires SortedDesc(sorted, key)
    requires x in sorted && x !in Take(sorted, n)
    ensures forall t :: t in Take(sorted, n) ==> key(t) >= key(x)
  {
    var top := Take(sorted, n);
    var j :| 0 <= j < |sorted| && sorted[j] == x;
    assert forall k :: 0 <= k < |top| ==> top[k] == sorted[k];
    forall t | t in top ensures key(t) >= key(x) {
      var i :| 0 <= i < |top| && top[i] == t;
      assert sorted[i] == t;
    }
  }

  /** A prefix of a permutation of xs holds only members of xs. */
  lemma {:induction false} PrefixOfPermutation<T>(top: seq<T>, sorted: seq<T>, xs: seq<T>)
    requires top <= sorted
    requires multiset(sorted) == multiset(xs)
    ensures forall t :: t in top ==> t in xs
  {
    forall t | t in top ensures t in xs {
      assert t in multiset(sorted);
    }
  }

  /** An element that no other position of s holds occurs in s once. */
  lemma {:induction false} OnlyOnce<T>(s: seq<T>, a: nat)
    requires a < |s|
    requires forall b :: 0 <= b < |s| && b != a ==> s[b] != s[a]
    ensures multiset(s)[s[a]] == 1
  {
    var rest := s[..a] + s[a + 1..];
    assert s == s[..a] + [s[a]] + s[a + 1..];
    assert s[a] !in rest by {
      forall k | 0 <= k < |rest| ensures rest[k] != s[a] {
        if k < a {
          assert rest[k] == s[k];
        } else {
          assert rest[k] == s[k + 1];
        }
      }
    }
    assert multiset(s) == multiset(rest) + multiset{s[a]};
  }

  /** An element held at two positions occurs at least twice. */
  lemma {:induction false} RepeatCountsTwice<T>(s: seq<T>, i: nat, j: nat)
    requires i < j < |s|
    ensures s[i] == s[j] ==> multiset(s)[s[i]] >= 2
  {
    assert s == s[..i] + [s[i]] + s[i + 1..j] + [s[j]] + s[j + 1..];
  }

  /** Elements with pairwise distinct ids keep distinct ids in any
      permutation. */
  lemma {:induction false} PermutationKeepsDistinct<T, K>(xs: seq<T>, ys: seq<T>, id: T -> K)
    requires forall i, j :: 0 <= i < j < |xs| ==> id(xs[i]) != id(xs[j])
    requires multiset(ys) == multiset(xs)
    ensures forall i, j :: 0 <= i < j < |ys| ==> id(ys[i]) != id(ys[j])
  {
    forall i, j | 0 <= i < j < |ys|
      ensures id(ys[i]) != id(ys[j])
    {
      assert ys[i] in multiset(xs) && ys[j] in multiset(xs);
      var a :| 0 <= a < |xs| && xs[a] == ys[i];
      var b :| 0 <= b < |xs| && xs[b] == ys[j];
      forall c | 0 <= c < |xs| && c != a ensures xs[c] != xs[a] {
        if c < a {
          assert id(xs[c]) != id(xs[a]);
        } else {
          assert id(xs[a]) != id(xs[c]);
        }
      }
      OnlyOnce(xs, a);
      RepeatCountsTwice(ys, i, j);
    }
  }
}
