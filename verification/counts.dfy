/**
 Frequency tables as used by all four language models: Python's
 `collections.defaultdict(lambda: 0)`, keyed by n-grams. A key that is absent
 reads as zero, and (unlike a plain mapping) READING an absent key with `[]`
 inserts it with count zero, which changes `len(table)`.
 */
module Counts {

  type Table<K> = map<K, nat>

  /** The count of `k`, zero when absent (a read that does not insert: `in` or `.get`). */
  function Get<K>(t: Table<K>, k: K): nat
  {
    if k in t then t[k] else 0
  }

  /** `t[k] = t[k] + 1` (or `t[k] += 1`) on a defaultdict. */
  function Bump<K(!new)>(t: Table<K>, k: K): (r: Table<K>)
    ensures r.Keys == t.Keys + {k}
    ensures Get(r, k) == Get(t, k) + 1
    ensures forall j :: j != k ==> Get(r, j) == Get(t, j)
  {
    t[k := Get(t, k) + 1]
  }

  /** The expression `t[k]` on a defaultdict: yields the count and the table with `k` now present. */
  function Read<K>(t: Table<K>, k: K): (nat, Table<K>)
  {
    (Get(t, k), t[k := Get(t, k)])
  }

  /** A read yields the count and leaves every count as it was, with `k` now a key. */
  lemma ReadEffect<K(!new)>(t: Table<K>, k: K)
    ensures Read(t, k).0 == Get(t, k)
    ensures Read(t, k).1.Keys == t.Keys + {k}
    ensures OnlyZerosAdded(t, Read(t, k).1)
    ensures k in t ==> Read(t, k).1 == t
  {
  }

  /** `t'` is `t` plus possibly some keys with count zero: what reads on a defaultdict can do. */
  ghost predicate OnlyZerosAdded<K(!new)>(t: Table<K>, t': Table<K>)
  {
    && t.Keys <= t'.Keys
    && forall k :: Get(t', k) == Get(t, k)
  }

  /** `t` holds exactly the multiplicities of `occ`, and no zero entries. */
  ghost predicate Tabulates<K(!new)>(t: Table<K>, occ: multiset<K>)
  {
    && (forall k :: k in t <==> k in occ)
    && (forall k :: k in t ==> t[k] == occ[k])
  }

  function Elems<T>(xs: seq<T>): set<T>
  {
    set x | x in xs
  }

  /** A non-empty sequence's elements and multiset are its prefix's plus its last element. */
  lemma ElemsLast<T>(xs: seq<T>)
    requires |xs| > 0
    ensures Elems(xs) == Elems(xs[..|xs| - 1]) + {xs[|xs| - 1]}
    ensures multiset(xs) == multiset(xs[..|xs| - 1]) + multiset{xs[|xs| - 1]}
  {
    var ys, y := xs[..|xs| - 1], xs[|xs| - 1];
    assert xs == ys + [y];
    forall z
      ensures z in Elems(xs) <==> z in Elems(ys) + {y}
    {
      assert z in xs <==> z in ys || z == y;
    }
  }

  /** `t'` is `t` with one more occurrence counted for every element of `xs`. */
  ghost predicate Adds<K(!new)>(t: Table<K>, t': Table<K>, xs: seq<K>)
  {
    && t'.Keys == t.Keys + Elems(xs)
    && forall k :: Get(t', k) == Get(t, k) + multiset(xs)[k]
  }

  /** Counting one more occurrence extends what a table adds by that element. */
  lemma AddsBump<K(!new)>(t: Table<K>, t': Table<K>, xs: seq<K>, x: K)
    requires Adds(t, t', xs)
    ensures Adds(t, Bump(t', x), xs + [x])
  {
    var ys, r := xs + [x], Bump(t', x);
    assert ys[..|ys| - 1] == xs;
    assert Elems(ys) == Elems(xs) + {x} && multiset(ys) == multiset(xs) + multiset{x} by {
      ElemsLast(ys);
    }
    assert r.Keys == t.Keys + Elems(ys);
    forall k
      ensures Get(r, k) == Get(t, k) + multiset(ys)[k]
    {
      if k == x {
        assert Get(r, k) == Get(t', k) + 1;
      } else {
        assert Get(r, k) == Get(t', k);
      }
    }
  }

  /** Adding the occurrences of `xs` to a table of `occ` gives a table of both together. */
  lemma TabulatesAdds<K(!new)>(t: Table<K>, t': Table<K>, occ: multiset<K>, xs: seq<K>)
    requires Tabulates(t, occ) && Adds(t, t', xs)
    ensures Tabulates(t', occ + multiset(xs))
  {
    forall k
      ensures k in t' <==> k in occ + multiset(xs)
    {
      assert k in Elems(xs) <==> k in multiset(xs);
    }
    forall k | k in t'
      ensures t'[k] == (occ + multiset(xs))[k]
    {
      assert Get(t', k) == Get(t, k) + multiset(xs)[k];
    }
  }

  lemma {:induction false} CountAtMostLength<K>(xs: seq<K>, k: K)
    ensures multiset(xs)[k] <= |xs|
    decreases |xs|
  {
    if |xs| > 0 {
      CountAtMostLength(xs[..|xs| - 1], k);
      assert xs == xs[..|xs| - 1] + [xs[|xs| - 1]];
    }
  }

  lemma {:induction false} SubsetCard<T>(a: set<T>, b: set<T>)
    requires a <= b
    ensures |a| <= |b|
    decreases |b|
  {
    if a != {} {
      var x :| x in a;
      SubsetCard(a - {x}, b - {x});
    }
  }
}
