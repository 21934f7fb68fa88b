/** Order-preserving selection over sequences: the shape of every lookup that
    scans records in storage order and keeps the ones that match. */
module Seqs {

  /** `r` can be obtained from `s` by deleting elements, keeping the order. */
  predicate IsSubsequence<T(==)>(r: seq<T>, s: seq<T>)
    decreases |s|
  {
    || r == []
    || (&& s != []
        && ((r[0] == s[0] && IsSubsequence(r[1..], s[1..])) || IsSubsequence(r, s[1..])))
  }

  /** Number of elements of `s` that satisfy `p`. */
  function Count<T>(s: seq<T>, p: T -> bool): nat
  {
    if s == [] then 0
    else (if p(s[0]) then 1 else 0) + Count(s[1..], p)
  }

  /** The elements of `s` that satisfy `p`, in the order of `s`. */
  function Filter<T(==)>(s: seq<T>, p: T -> bool): (r: seq<T>)
    ensures IsSubsequence(r, s)
    ensures forall i :: 0 <= i < |r| ==> p(r[i])
    ensures forall i :: 0 <= i < |s| && p(s[i]) ==> s[i] in r
    ensures |r| == Count(s, p)
  {
    if s == [] then []
    else if p(s[0]) then [s[0]] + Filter(s[1..], p)
    else Filter(s[1..], p)
  }

  /** Applies `f` to every element. */
  function Map<T, U>(s: seq<T>, f: T -> U): (r: seq<U>)
    ensures |r| == |s|
    ensures forall i :: 0 <= i < |s| ==> r[i] == f(s[i])
  {
    seq(|s|, i requires 0 <= i < |s| => f(s[i]))
  }

  /** A subsequence of `s` whose elements all satisfy `p` has at most as many
      elements as `s` has matching ones. */
  lemma {:induction false} SubsequenceCount<T>(r: seq<T>, s: seq<T>, p: T -> bool)
    requires IsSubsequence(r, s)
    requires forall i :: 0 <= i < |r| ==> p(r[i])
    ensures |r| <= Count(s, p)
    decreases |s|
  {
    if r == [] {
    } else if r[0] == s[0] && IsSubsequence(r[1..], s[1..]) {
      SubsequenceCount(r[1..], s[1..], p);
    } else {
      SubsequenceCount(r, s[1..], p);
    }
  }

  /** The properties in the contract of `Filter` determine its result: any
      subsequence of `s` made of matching elements, as long as the number of
      matching elements of `s`, is `Filter(s, p)`. */
  lemma {:induction false} FilterUnique<T>(r: seq<T>, s: seq<T>, p: T -> bool)
    requires IsSubsequence(r, s)
    requires forall i :: 0 <= i < |r| ==> p(r[i])
    requires |r| == Count(s, p)
    ensures r == Filter(s, p)
    decreases |s|
  {
    if r == [] {
      assert |Filter(s, p)| == 0;
    } else if p(s[0]) {
      if !(r[0] == s[0] && IsSubsequence(r[1..], s[1..])) {
        SubsequenceCount(r, s[1..], p);
        assert false;
      }
      FilterUnique(r[1..], s[1..], p);
      assert r == [r[0]] + r[1..];
    } else {
      assert r[0] != s[0] by { assert p(r[0]); }
      FilterUnique(r, s[1..], p);
    }
  }

  /** Selecting then transforming is transforming then selecting, when the
      selection can be decided on the transformed element. */
  lemma {:induction false} MapFilter<T, U>(s: seq<T>, p: T -> bool, f: T -> U, q: U -> bool)
    requires forall i :: 0 <= i < |s| ==> p(s[i]) == q(f(s[i]))
    ensures Map(Filter(s, p), f) == Filter(Map(s, f), q)
    decreases |s|
  {
    if s != [] {
      var ms, t := Map(s, f), s[1..];
      assert ms[0] == f(s[0]) && ms[1..] == Map(t, f);
      forall i | 0 <= i < |t| ensures p(t[i]) == q(f(t[i])) {
        assert t[i] == s[i + 1];
      }
      MapFilter(t, p, f, q);
      if p(s[0]) {
        assert Filter(ms, q) == [ms[0]] + Filter(ms[1..], q);
        MapCons(s[0], Filter(t, p), f);
      } else {
        assert Filter(ms, q) == Filter(ms[1..], q);
      }
    }
  }

  lemma MapCons<T, U>(x: T, t: seq<T>, f: T -> U)
    ensures Map([x] + t, f) == [f(x)] + Map(t, f)
  {
  }

  /** Transforming two reorderings of the same elements gives two reorderings
      of the same results. */
  lemma {:induction false} MapPermutation<T, U>(a: seq<T>, b: seq<T>, f: T -> U)
    requires multiset(a) == multiset(b)
    ensures multiset(Map(a, f)) == multiset(Map(b, f))
    decreases |a|
  {
    if a == [] {
      assert |multiset(b)| == 0;
    } else {
      assert a[0] in multiset(a);
      var j :| 0 <= j < |b| && b[j] == a[0];
      var rest := b[..j] + b[j + 1..];
      RemoveFirst(a, b, j);
      MapPermutation(a[1..], rest, f);
      MapRemoveAt(b, j, f);
      assert Map(a, f) == [f(a[0])] + Map(a[1..], f);
    }
  }

  /** Taking the first element of `a` out of both sides of a permutation. */
  lemma RemoveFirst<T>(a: seq<T>, b: seq<T>, j: int)
    requires multiset(a) == multiset(b)
    requires a != [] && 0 <= j < |b| && b[j] == a[0]
    ensures multiset(a[1..]) == multiset(b[..j] + b[j + 1..])
  {
    RemoveAt(b, j);
    assert a == [a[0]] + a[1..];
    Cancel(multiset(a[1..]), multiset(b[..j] + b[j + 1..]), a[0]);
  }

  /** Removing one element before or after transforming. */
  lemma MapRemoveAt<T, U>(b: seq<T>, j: int, f: T -> U)
    requires 0 <= j < |b|
    ensures multiset(Map(b, f)) == multiset(Map(b[..j] + b[j + 1..], f)) + multiset{f(b[j])}
  {
    var mb := Map(b, f);
    RemoveAt(mb, j);
    assert mb[..j] + mb[j + 1..] == Map(b[..j] + b[j + 1..], f);
  }

  lemma RemoveAt<T>(b: seq<T>, j: int)
    requires 0 <= j < |b|
    ensures multiset(b) == multiset(b[..j] + b[j + 1..]) + multiset{b[j]}
  {
    assert b == b[..j] + [b[j]] + b[j + 1..];
  }

  lemma Cancel<T>(m: multiset<T>, n: multiset<T>, x: T)
    requires m + multiset{x} == n + multiset{x}
    ensures m == n
  {
    assert m == (m + multiset{x}) - multiset{x};
    assert n == (n + multiset{x}) - multiset{x};
  }

  /** Counting is unchanged by a transformation that keeps the selection. */
  lemma {:induction false} CountMap<T, U>(s: seq<T>, p: T -> bool, f: T -> U, q: U -> bool)
    requires forall i :: 0 <= i < |s| ==> p(s[i]) == q(f(s[i]))
    ensures Count(Map(s, f), q) == Count(s, p)
    decreases |s|
  {
    if s != [] {
      assert Map(s, f)[1..] == Map(s[1..], f);
      CountMap(s[1..], p, f, q);
    }
  }
}
