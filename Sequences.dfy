/**
 * Generic operations on sequences and maps that the table handlers are
 * specified with: filtering out the entries with a given name, repeating an
 * entry, and counting how often a list of keys resolves to a given value.
 */
module Sequences {

  /**
   * The entries of `xs` whose name (as `nameOf` gives it) differs from `target`,
   * in their original order.
   */
  function Without<X>(xs: seq<X>, nameOf: X -> string, target: string): seq<X>
  {
    if xs == [] then []
    else if nameOf(xs[0]) == target then Without(xs[1..], nameOf, target)
    else [xs[0]] + Without(xs[1..], nameOf, target)
  }

  /**
   * What filtering keeps: only entries of `xs`, none of them named `target`,
   * and every entry of `xs` not so named; so a list without such entries is
   * kept whole.
   */
  lemma {:induction false} WithoutMembers<X>(xs: seq<X>, nameOf: X -> string, target: string)
    ensures |Without(xs, nameOf, target)| <= |xs|
    ensures forall k :: 0 <= k < |Without(xs, nameOf, target)| ==>
      Without(xs, nameOf, target)[k] in xs && nameOf(Without(xs, nameOf, target)[k]) != target
    ensures forall k :: 0 <= k < |xs| && nameOf(xs[k]) != target ==> xs[k] in Without(xs, nameOf, target)
    ensures (forall k :: 0 <= k < |xs| ==> nameOf(xs[k]) != target) ==> Without(xs, nameOf, target) == xs
  {
    if xs != [] {
      WithoutMembers(xs[1..], nameOf, target);
      assert forall x :: x in xs <==> x == xs[0] || x in xs[1..] by {
        assert xs == [xs[0]] + xs[1..];
      }
    }
    if (forall k :: 0 <= k < |xs| ==> nameOf(xs[k]) != target) {
      WithoutNoneNamed(xs, nameOf, target);
    }
  }

  /** A list without entries named `target` is kept whole by the filter. */
  lemma {:induction false} WithoutNoneNamed<X>(xs: seq<X>, nameOf: X -> string, target: string)
    requires forall k :: 0 <= k < |xs| ==> nameOf(xs[k]) != target
    ensures Without(xs, nameOf, target) == xs
  {
    if xs != [] {
      assert forall k :: 0 <= k < |xs[1..]| ==> nameOf(xs[1..][k]) != target by {
        forall k | 0 <= k < |xs[1..]| ensures nameOf(xs[1..][k]) != target {
          assert xs[1..][k] == xs[k + 1];
        }
      }
      WithoutNoneNamed(xs[1..], nameOf, target);
      assert [xs[0]] + xs[1..] == xs;
    }
  }

  /** Filtering a concatenation filters each part in place: relative order is kept. */
  lemma {:induction false} WithoutAppend<X>(xs: seq<X>, ys: seq<X>, nameOf: X -> string, target: string)
    ensures Without(xs + ys, nameOf, target) == Without(xs, nameOf, target) + Without(ys, nameOf, target)
  {
    if xs != [] {
      assert (xs + ys)[1..] == xs[1..] + ys;
      WithoutAppend(xs[1..], ys, nameOf, target);
    } else {
      assert xs + ys == ys;
    }
  }

  /** Filtering twice by the same name removes nothing more. */
  lemma {:induction false} WithoutIdempotent<X>(xs: seq<X>, nameOf: X -> string, target: string)
    ensures Without(Without(xs, nameOf, target), nameOf, target) == Without(xs, nameOf, target)
  {
    WithoutMembers(xs, nameOf, target);
    WithoutMembers(Without(xs, nameOf, target), nameOf, target);
  }

  /**
   * Exactly the matching entries are removed: the length drops by the number
   * of entries so named.
   */
  lemma {:induction false} WithoutCount<X>(xs: seq<X>, nameOf: X -> string, target: string)
    ensures |Without(xs, nameOf, target)| == |xs| - NameCount(xs, nameOf, target)
  {
    if xs != [] {
      WithoutCount(xs[1..], nameOf, target);
    }
  }

  /** The number of entries of `xs` named `target`. */
  function NameCount<X>(xs: seq<X>, nameOf: X -> string, target: string): nat
  {
    if xs == [] then 0
    else (if nameOf(xs[0]) == target then 1 else 0) + NameCount(xs[1..], nameOf, target)
  }

  /** `n` copies of `x`. */
  function Repeat<X>(x: X, n: nat): (r: seq<X>)
    ensures |r| == n
    ensures forall k :: 0 <= k < n ==> r[k] == x
  {
    if n == 0 then [] else Repeat(x, n - 1) + [x]
  }

  lemma RepeatAdd<X>(x: X, m: nat, n: nat)
    ensures Repeat(x, m) + Repeat(x, n) == Repeat(x, m + n)
  {
    assert |Repeat(x, m) + Repeat(x, n)| == m + n;
  }

  /** Overriding by an empty map changes nothing, and overriding twice by the same map is overriding once. */
  lemma UnionAbsorbs<K, V>(m: map<K, V>, a: map<K, V>)
    ensures m + map[] == m
    ensures (m + a) + a == m + a
    ensures (m + map[]) + a == m + a
  {
    assert (m + map[]).Keys == m.Keys;
  }

  /** How many of `keys` are in `m` and map to `v`. */
  function Hits<K, V(==)>(keys: seq<K>, m: map<K, V>, v: V): nat
  {
    if keys == [] then 0
    else
      var k := keys[|keys| - 1];
      Hits(keys[..|keys| - 1], m, v) + (if k in m && m[k] == v then 1 else 0)
  }

  /** Counting over a concatenation adds the counts of the parts. */
  lemma {:induction false} HitsAppend<K, V>(xs: seq<K>, ys: seq<K>, m: map<K, V>, v: V)
    ensures Hits(xs + ys, m, v) == Hits(xs, m, v) + Hits(ys, m, v)
  {
    if ys == [] {
      assert xs + ys == xs;
    } else {
      var ys', k := ys[..|ys| - 1], ys[|ys| - 1];
      assert (xs + ys)[..|xs + ys| - 1] == xs + ys';
      HitsAppend(xs, ys', m, v);
    }
  }

  /** Repeating an entry once per hit over two key lists, one after the other, is repeating it once per hit over their concatenation. */
  lemma RepeatHitsAppend<X, K, V>(x: X, xs: seq<K>, ys: seq<K>, m: map<K, V>, v: V)
    ensures Repeat(x, Hits(xs, m, v)) + Repeat(x, Hits(ys, m, v)) == Repeat(x, Hits(xs + ys, m, v))
  {
    HitsAppend(xs, ys, m, v);
    RepeatAdd(x, Hits(xs, m, v), Hits(ys, m, v));
  }

  /** How many times `x` occurs in `xs`. */
  function Count<X(==)>(xs: seq<X>, x: X): nat
  {
    if xs == [] then 0
    else Count(xs[..|xs| - 1], x) + (if xs[|xs| - 1] == x then 1 else 0)
  }

  /** No key shares its value with another key. */
  ghost predicate Injective<K, V>(m: map<K, V>)
  {
    forall a, b :: a in m && b in m && a != b ==> m[a] != m[b]
  }

  /** No entry occurs twice: the first does not recur, and the rest has no repetitions. */
  ghost predicate Distinct<X>(xs: seq<X>)
  {
    xs == [] || (xs[0] !in xs[1..] && Distinct(xs[1..]))
  }

  /** In a list without repetitions, an entry does not occur before its own position. */
  lemma {:induction false} DistinctPrefix<X>(xs: seq<X>, k: nat)
    requires Distinct(xs) && k < |xs|
    ensures xs[k] !in xs[..k]
  {
    if k > 0 {
      DistinctPrefix(xs[1..], k - 1);
      assert xs[..k] == [xs[0]] + xs[1..][..k - 1];
      assert xs[k] == xs[1..][k - 1];
    }
  }

  /** Appending an entry that does not occur keeps a list without repetitions. */
  lemma {:induction false} DistinctAppend<X>(xs: seq<X>, x: X)
    requires Distinct(xs) && x !in xs
    ensures Distinct(xs + [x])
  {
    if xs != [] {
      assert (xs + [x])[1..] == xs[1..] + [x];
      DistinctAppend(xs[1..], x);
    }
  }

  /** In an injective map, the value under key `n` is hit once for every occurrence of `n`. */
  lemma {:induction false} HitsInjective<K, V>(keys: seq<K>, m: map<K, V>, n: K)
    requires Injective(m) && n in m
    ensures Hits(keys, m, m[n]) == Count(keys, n)
  {
    if keys != [] {
      HitsInjective(keys[..|keys| - 1], m, n);
    }
  }

  /** Filtering a list without repetitions gives a list without repetitions. */
  lemma {:induction false} WithoutDistinct<X>(xs: seq<X>, nameOf: X -> string, target: string)
    requires Distinct(xs)
    ensures Distinct(Without(xs, nameOf, target))
  {
    if xs != [] {
      WithoutDistinct(xs[1..], nameOf, target);
      WithoutMembers(xs[1..], nameOf, target);
      var rest := Without(xs[1..], nameOf, target);
      if nameOf(xs[0]) != target {
        assert ([xs[0]] + rest)[1..] == rest;
      }
    }
  }
}
