/**
  Group-by over an in-memory sequence, as pandas' `groupby` and `value_counts`
  compute it: the group of each key, one row per key with the group's size or
  the sum of a column over the group, and the facts that the groups of distinct
  keys partition the rows.
 */
module Groups {

  /** The number of times k occurs in xs. */
  function Occurrences<K(==)>(xs: seq<K>, k: K): (n: nat)
    ensures n <= |xs|
    ensures n > 0 <==> k in xs
    ensures n == multiset(xs)[k]
  {
    if xs == [] then 0
    else
      assert xs == [xs[0]] + xs[1..];
      (if xs[0] == k then 1 else 0) + Occurrences(xs[1..], k)
  }

  /** Two different positions holding k make k occur at least twice. */
  lemma {:induction false} SecondOccurrence<K>(xs: seq<K>, k: K, i: nat, c: nat)
    requires i < |xs| && c < |xs| && xs[i] == k && xs[c] == k
    ensures i == c || Occurrences(xs, k) >= 2
  {
    if i != c {
      if i == 0 || c == 0 {
        var other := if i == 0 then c else i;
        assert xs[1..][other - 1] == k;
      } else {
        assert xs[1..][i - 1] == k && xs[1..][c - 1] == k;
        SecondOccurrence(xs[1..], k, i - 1, c - 1);
      }
    }
  }

  predicate NoDuplicates<K(==)>(ks: seq<K>) {
    forall i, j :: 0 <= i < j < |ks| ==> ks[i] != ks[j]
  }

  /** The distinct elements of xs, each at the place of its first appearance. */
  function Distinct<K(==)>(xs: seq<K>): (ks: seq<K>)
    ensures NoDuplicates(ks)
    ensures forall i :: 0 <= i < |ks| ==> ks[i] in xs
    ensures forall i :: 0 <= i < |xs| ==> xs[i] in ks
  {
    if xs == [] then []
    else
      var front, last := xs[..|xs| - 1], xs[|xs| - 1];
      assert xs == front + [last];
      var ks := Distinct(front);
      if last in ks then ks else ks + [last]
  }

  /** The elements of xs whose key is k, in their original order: one group of a group-by. */
  function Group<T, K(==)>(xs: seq<T>, key: T -> K, k: K): (g: seq<T>)
    ensures |g| <= |xs|
    ensures forall x :: x in g ==> x in xs && key(x) == k
    ensures forall i :: 0 <= i < |xs| && key(xs[i]) == k ==> xs[i] in g
    ensures forall i :: 0 <= i < |xs| ==> multiset(g)[xs[i]] == if key(xs[i]) == k then multiset(xs)[xs[i]] else 0
  {
    if xs == [] then []
    else
      assert xs == [xs[0]] + xs[1..];
      (if key(xs[0]) == k then [xs[0]] else []) + Group(xs[1..], key, k)
  }

  /** The elements of xs whose key is one of ks, in their original order. */
  function Among<T, K(==)>(xs: seq<T>, key: T -> K, ks: seq<K>): (a: seq<T>)
    ensures |a| <= |xs|
    ensures forall x :: x in a ==> x in xs && key(x) in ks
    ensures (forall i :: 0 <= i < |xs| ==> key(xs[i]) in ks) ==> a == xs
  {
    if xs == [] then []
    else (if key(xs[0]) in ks then [xs[0]] else []) + Among(xs[1..], key, ks)
  }

  /** The sum of w over xs. */
  function Weight<T>(xs: seq<T>, w: T -> real): real {
    if xs == [] then 0.0 else w(xs[0]) + Weight(xs[1..], w)
  }

  /** One row per key of ks: the key and the size of its group (`groupby(...).size()`). */
  function Sizes<T, K(==)>(ks: seq<K>, xs: seq<T>, key: T -> K): (r: seq<(K, nat)>)
    ensures |r| == |ks|
    ensures forall i :: 0 <= i < |ks| ==> r[i].0 == ks[i] && r[i].1 == |Group(xs, key, ks[i])|
  {
    if ks == [] then [] else [(ks[0], |Group(xs, key, ks[0])|)] + Sizes(ks[1..], xs, key)
  }

  /** One row per key of ks: the key and the sum of w over its group (`groupby(...)[col].sum()`). */
  function Totals<T, K(==)>(ks: seq<K>, xs: seq<T>, key: T -> K, w: T -> real): (r: seq<(K, real)>)
    ensures |r| == |ks|
    ensures forall i :: 0 <= i < |ks| ==> r[i].0 == ks[i] && r[i].1 == Weight(Group(xs, key, ks[i]), w)
  {
    if ks == [] then [] else [(ks[0], Weight(Group(xs, key, ks[0]), w))] + Totals(ks[1..], xs, key, w)
  }

  /** The key column of a grouped table. */
  function KeysOf<K, V>(rows: seq<(K, V)>): (ks: seq<K>)
    ensures |ks| == |rows|
    ensures forall i :: 0 <= i < |rows| ==> ks[i] == rows[i].0
  {
    seq(|rows|, i requires 0 <= i < |rows| => rows[i].0)
  }

  /** A table built from a list of keys has exactly those keys, in that order. */
  lemma SizesKeys<T, K>(ks: seq<K>, xs: seq<T>, key: T -> K)
    ensures KeysOf(Sizes(ks, xs, key)) == ks
  {
  }

  /** A table of group sums has exactly the keys it was built from, in that order. */
  lemma TotalsKeys<T, K>(ks: seq<K>, xs: seq<T>, key: T -> K, w: T -> real)
    ensures KeysOf(Totals(ks, xs, key, w)) == ks
  {
  }

  function CountSum<K>(rows: seq<(K, nat)>): nat {
    if rows == [] then 0 else rows[0].1 + CountSum(rows[1..])
  }

  function RealSum<K>(rows: seq<(K, real)>): real {
    if rows == [] then 0.0 else rows[0].1 + RealSum(rows[1..])
  }

  lemma {:induction false} DistinctTail<K>(ks: seq<K>)
    requires ks != [] && NoDuplicates(ks)
    ensures NoDuplicates(ks[1..]) && ks[0] !in ks[1..]
  {
    forall j | 0 <= j < |ks| - 1 ensures ks[1..][j] != ks[0] {
      assert ks[0] != ks[j + 1];
    }
  }

  /** Groups of the empty sequence are empty. */
  lemma {:induction false} SizesOfNothing<T, K>(ks: seq<K>, key: T -> K)
    ensures CountSum(Sizes(ks, [], key)) == 0
  {
    if ks != [] {
      SizesOfNothing(ks[1..], key);
    }
  }

  lemma {:induction false} TotalsOfNothing<T, K>(ks: seq<K>, key: T -> K, w: T -> real)
    ensures RealSum(Totals(ks, [], key, w)) == 0.0
  {
    if ks != [] {
      TotalsOfNothing(ks[1..], key, w);
    }
  }

  /** Adding one element in front adds one to the size of its key's group, if that key is listed once. */
  lemma {:induction false} SizesCons<T, K>(ks: seq<K>, x: T, xs: seq<T>, key: T -> K)
    requires NoDuplicates(ks)
    ensures CountSum(Sizes(ks, [x] + xs, key)) == (if key(x) in ks then 1 else 0) + CountSum(Sizes(ks, xs, key))
  {
    if ks != [] {
      DistinctTail(ks);
      SizesCons(ks[1..], x, xs, key);
      assert ([x] + xs)[0] == x && ([x] + xs)[1..] == xs;
    }
  }

  lemma {:induction false} TotalsCons<T, K>(ks: seq<K>, x: T, xs: seq<T>, key: T -> K, w: T -> real)
    requires NoDuplicates(ks)
    ensures RealSum(Totals(ks, [x] + xs, key, w)) == (if key(x) in ks then w(x) else 0.0) + RealSum(Totals(ks, xs, key, w))
  {
    if ks != [] {
      DistinctTail(ks);
      TotalsCons(ks[1..], x, xs, key, w);
      assert ([x] + xs)[0] == x && ([x] + xs)[1..] == xs;
      var g := Group(xs, key, ks[0]);
      var head := Weight(Group([x] + xs, key, ks[0]), w);
      if key(x) == ks[0] {
        assert Group([x] + xs, key, ks[0]) == [x] + g;
        assert ([x] + g)[0] == x && ([x] + g)[1..] == g;
        assert head == w(x) + Weight(g, w);
      } else {
        assert Group([x] + xs, key, ks[0]) == [] + g;
        assert [] + g == g;
      }
      var r := Totals(ks, [x] + xs, key, w);
      assert r == [(ks[0], head)] + Totals(ks[1..], [x] + xs, key, w);
      assert RealSum(r) == head + RealSum(Totals(ks[1..], [x] + xs, key, w));
      assert RealSum(Totals(ks, xs, key, w)) == Weight(g, w) + RealSum(Totals(ks[1..], xs, key, w));
    }
  }

  /**
    The groups of distinct keys partition the rows that carry one of those keys:
    their sizes add up to the number of such rows.
   */
  lemma {:induction false} SizesPartition<T, K>(ks: seq<K>, xs: seq<T>, key: T -> K)
    requires NoDuplicates(ks)
    ensures CountSum(Sizes(ks, xs, key)) == |Among(xs, key, ks)|
  {
    if xs == [] {
      SizesOfNothing(ks, key);
    } else {
      assert xs == [xs[0]] + xs[1..];
      SizesCons(ks, xs[0], xs[1..], key);
      SizesPartition(ks, xs[1..], key);
    }
  }

  /** The sums of w over the groups of distinct keys add up to the sum of w over the rows carrying those keys. */
  lemma {:induction false} TotalsPartition<T, K>(ks: seq<K>, xs: seq<T>, key: T -> K, w: T -> real)
    requires NoDuplicates(ks)
    ensures RealSum(Totals(ks, xs, key, w)) == Weight(Among(xs, key, ks), w)
  {
    if xs == [] {
      TotalsOfNothing(ks, key, w);
    } else {
      assert xs == [xs[0]] + xs[1..];
      TotalsCons(ks, xs[0], xs[1..], key, w);
      TotalsPartition(ks, xs[1..], key, w);
      var rest := Among(xs[1..], key, ks);
      if key(xs[0]) in ks {
        assert Among(xs, key, ks) == [xs[0]] + rest;
        assert ([xs[0]] + rest)[0] == xs[0] && ([xs[0]] + rest)[1..] == rest;
        assert Weight([xs[0]] + rest, w) == w(xs[0]) + Weight(rest, w);
      } else {
        assert Among(xs, key, ks) == rest;
      }
    }
  }
}
