/** Sequence operations shared by the store, the builder and the to-do list:
    `Filter` is `Array.prototype.filter`, and `Subsequence` states that an
    operation keeps the relative order of what it keeps. */
module Seqs {

  /** `s.filter(p)`: the elements of `s` that satisfy `p`, in their order. */
  function Filter<T(==)>(s: seq<T>, p: T -> bool): (r: seq<T>)
    ensures |r| <= |s|
  {
    if s == [] then [] else (if p(s[0]) then [s[0]] else []) + Filter(s[1..], p)
  }

  /** The kept elements are exactly the elements of `s` that pass. */
  lemma {:induction false} FilterMembers<T>(s: seq<T>, p: T -> bool)
    ensures forall i :: 0 <= i < |Filter(s, p)| ==> Filter(s, p)[i] in s && p(Filter(s, p)[i])
    ensures forall i :: 0 <= i < |s| && p(s[i]) ==> s[i] in Filter(s, p)
  {
    if s != [] {
      FilterMembers(s[1..], p);
      var f := Filter(s[1..], p);
      if p(s[0]) {
        assert Filter(s, p) == [s[0]] + f;
      } else {
        assert Filter(s, p) == f;
      }
      forall i | 0 <= i < |s| && p(s[i]) ensures s[i] in Filter(s, p) {
        if i > 0 {
          assert s[i] == s[1..][i - 1];
        }
      }
    }
  }

  /** What a predicate keeps and what its negation keeps make up the whole,
      counting copies. */
  lemma {:induction false} FilterPartition<T>(s: seq<T>, p: T -> bool, q: T -> bool)
    requires forall i :: 0 <= i < |s| ==> q(s[i]) == !p(s[i])
    ensures multiset(Filter(s, p)) + multiset(Filter(s, q)) == multiset(s)
  {
    if s != [] {
      var a := s[0];
      var rest := s[1..];
      FilterPartition(rest, p, q);
      assert q(s[0]) == !p(s[0]);
      assert multiset(s) == multiset{a} + multiset(rest) by {
        assert s == [a] + rest;
      }
      var fp := Filter(rest, p);
      var fq := Filter(rest, q);
      if p(a) {
        assert Filter(s, p) == [a] + fp;
        assert Filter(s, q) == fq;
        assert multiset([a] + fp) == multiset{a} + multiset(fp);
      } else {
        assert Filter(s, p) == fp;
        assert Filter(s, q) == [a] + fq;
        assert multiset([a] + fq) == multiset{a} + multiset(fq);
      }
    }
  }

  /** Every element that passes keeps all its copies; every other loses all. */
  lemma FilterCounts<T>(s: seq<T>, p: T -> bool)
    ensures forall x :: multiset(Filter(s, p))[x] == if p(x) then multiset(s)[x] else 0
  {
    var q := (x: T) => !p(x);
    FilterPartition(s, p, q);
    FilterMembers(s, p);
    FilterMembers(s, q);
    forall x
      ensures multiset(Filter(s, p))[x] == if p(x) then multiset(s)[x] else 0
    {
      if p(x) {
        assert x !in Filter(s, q);
      } else {
        assert x !in Filter(s, p);
      }
    }
  }

  lemma {:induction false} FilterAppend<T>(s: seq<T>, x: T, p: T -> bool)
    ensures p(x) ==> Filter(s + [x], p) == Filter(s, p) + [x]
    ensures !p(x) ==> Filter(s + [x], p) == Filter(s, p)
  {
    if s == [] {
      assert [] + [x] == [x];
      assert Filter([x], p) == (if p(x) then [x] else []) + Filter([], p);
    } else {
      var t := s + [x];
      assert t[0] == s[0] && t[1..] == s[1..] + [x];
      FilterAppend(s[1..], x, p);
      var f := Filter(s[1..], p);
      if !p(s[0]) {
        assert Filter(t, p) == Filter(t[1..], p);
      } else {
        assert Filter(t, p) == [s[0]] + Filter(t[1..], p);
        if p(x) {
          assert [s[0]] + (f + [x]) == ([s[0]] + f) + [x];
        }
      }
    }
  }

  predicate NoDuplicates<T(==)>(s: seq<T>)
  {
    forall i, j :: 0 <= i < j < |s| ==> s[i] != s[j]
  }

  /** `s` without any copy of `x`. */
  function Without<T(==)>(s: seq<T>, x: T): (r: seq<T>)
    ensures |r| <= |s|
  {
    if s == [] then [] else (if s[0] == x then [] else [s[0]]) + Without(s[1..], x)
  }

  lemma {:induction false} WithoutSpec<T>(s: seq<T>, x: T)
    ensures forall i :: 0 <= i < |Without(s, x)| ==> Without(s, x)[i] in s && Without(s, x)[i] != x
    ensures forall i :: 0 <= i < |s| && s[i] != x ==> s[i] in Without(s, x)
  {
    if s != [] {
      WithoutSpec(s[1..], x);
      var r := Without(s, x);
      var rest := Without(s[1..], x);
      assert r == (if s[0] == x then [] else [s[0]]) + rest;
      forall i | 0 <= i < |s| && s[i] != x ensures s[i] in r {
        if i > 0 {
          assert s[i] == s[1..][i - 1];
        }
      }
    }
  }

  lemma {:induction false} WithoutAppend<T>(s: seq<T>, y: T, x: T)
    ensures y == x ==> Without(s + [y], x) == Without(s, x)
    ensures y != x ==> Without(s + [y], x) == Without(s, x) + [y]
  {
    if s == [] {
      assert [] + [y] == [y];
      assert Without([y], x) == (if y == x then [] else [y]) + Without([], x);
    } else {
      var t := s + [y];
      assert t[0] == s[0] && t[1..] == s[1..] + [y];
      WithoutAppend(s[1..], y, x);
      var w := Without(s[1..], x);
      if s[0] == x {
        assert Without(t, x) == Without(t[1..], x);
      } else {
        assert Without(t, x) == [s[0]] + Without(t[1..], x);
        if y != x {
          assert [s[0]] + (w + [y]) == ([s[0]] + w) + [y];
        }
      }
    }
  }

  lemma WithoutKeeps<T>(s: seq<T>, y: T, x: T)
    requires x != y
    ensures x in Without(s, y) <==> x in s
  {
    WithoutSpec(s, y);
    if x in s {
      var i :| 0 <= i < |s| && s[i] == x;
    }
  }

  /** The first occurrence of every element of `s`, in the order of `s`. */
  function Distinct<T(==)>(s: seq<T>): seq<T>
    decreases |s|
  {
    if s == [] then [] else [s[0]] + Distinct(Without(s[1..], s[0]))
  }

  /** The distinct elements are those of `s`, each once. */
  lemma {:induction false} DistinctSpec<T>(s: seq<T>)
    ensures forall i :: 0 <= i < |Distinct(s)| ==> Distinct(s)[i] in s
    ensures forall i :: 0 <= i < |s| ==> s[i] in Distinct(s)
    ensures NoDuplicates(Distinct(s))
    decreases |s|
  {
    if s != [] {
      var w := Without(s[1..], s[0]);
      WithoutSpec(s[1..], s[0]);
      DistinctSpec(w);
      var r := Distinct(s);
      assert r == [s[0]] + Distinct(w);
      forall i | 0 <= i < |s| ensures s[i] in r {
        if i > 0 && s[i] != s[0] {
          assert s[i] == s[1..][i - 1];
        }
      }
    }
  }

  /** Adding an element at the end adds it to the distinct elements exactly
      when it is new. */
  lemma {:induction false} DistinctAppend<T>(s: seq<T>, x: T)
    ensures x in s ==> Distinct(s + [x]) == Distinct(s)
    ensures x !in s ==> Distinct(s + [x]) == Distinct(s) + [x]
    decreases |s|
  {
    if s == [] {
      assert [] + [x] == [x];
      assert Distinct([x]) == [x] + Distinct(Without([], x));
    } else {
      var y := s[0];
      var t := s + [x];
      assert t[0] == y && t[1..] == s[1..] + [x];
      WithoutAppend(s[1..], x, y);
      var w := Without(s[1..], y);
      assert Distinct(s) == [y] + Distinct(w);
      assert Distinct(t) == [y] + Distinct(Without(t[1..], y));
      if x == y {
        assert Without(t[1..], y) == w;
      } else {
        assert Without(t[1..], y) == w + [x];
        DistinctAppend(w, x);
        WithoutKeeps(s[1..], y, x);
        assert s == [y] + s[1..];
        if x !in s {
          assert [y] + (Distinct(w) + [x]) == ([y] + Distinct(w)) + [x];
        }
      }
    }
  }

  /** `a` is obtained from `b` by deleting elements (order is kept). */
  ghost predicate Subsequence<T>(a: seq<T>, b: seq<T>)
    decreases |b|
  {
    a == [] ||
    (b != [] && ((a[0] == b[0] && Subsequence(a[1..], b[1..])) || Subsequence(a, b[1..])))
  }

  lemma {:induction false} FilterIsSubsequence<T>(s: seq<T>, p: T -> bool)
    ensures Subsequence(Filter(s, p), s)
  {
    if s != [] {
      FilterIsSubsequence(s[1..], p);
      if p(s[0]) {
        assert Filter(s, p) == [s[0]] + Filter(s[1..], p);
        assert Filter(s, p)[1..] == Filter(s[1..], p);
      } else {
        assert Filter(s, p) == Filter(s[1..], p);
      }
    }
  }

  /** Filtering twice with the same predicate is filtering once. */
  lemma {:induction false} FilterIdempotent<T>(s: seq<T>, p: T -> bool)
    ensures Filter(Filter(s, p), p) == Filter(s, p)
  {
    if s != [] {
      FilterIdempotent(s[1..], p);
      if p(s[0]) {
        var f := Filter(s[1..], p);
        var g := [s[0]] + f;
        assert Filter(s, p) == g;
        assert g[0] == s[0] && g[1..] == f;
        assert Filter(g, p) == [s[0]] + Filter(f, p);
      } else {
        assert Filter(s, p) == Filter(s[1..], p);
      }
    }
  }

  /** Filtering keeps everything when every element passes. */
  lemma {:induction false} FilterAll<T>(s: seq<T>, p: T -> bool)
    requires forall i :: 0 <= i < |s| ==> p(s[i])
    ensures Filter(s, p) == s
  {
    if s != [] {
      FilterAll(s[1..], p);
    }
  }

  /** Two predicates that agree on the elements of `s` filter it alike. */
  lemma {:induction false} FilterAgree<T>(s: seq<T>, p: T -> bool, q: T -> bool)
    requires forall i :: 0 <= i < |s| ==> p(s[i]) == q(s[i])
    ensures Filter(s, p) == Filter(s, q)
  {
    if s != [] {
      FilterAgree(s[1..], p, q);
    }
  }

  /** What a predicate keeps and what its negation keeps add up to the whole. */
  lemma {:induction false} FilterComplementLength<T>(s: seq<T>, p: T -> bool, q: T -> bool)
    requires forall i :: 0 <= i < |s| ==> q(s[i]) == !p(s[i])
    ensures |Filter(s, p)| + |Filter(s, q)| == |s|
  {
    if s != [] {
      FilterComplementLength(s[1..], p, q);
    }
  }
}
