/** Generic facts about the sequence operations the store and the pages use:
    `Array.prototype.filter` and `findIndex`, collecting zero or more results per element, and keys
    that are unique within a sequence. */
module Seqs {

  /** `s.filter(keep)`: the elements of `s` that satisfy `keep`, in their original order. Every copy
      of a kept element survives, so repeats are kept as often as they occur. */
  function Filter<T(==,!new)>(s: seq<T>, keep: T -> bool): (r: seq<T>)
    ensures |r| <= |s|
    ensures forall i :: 0 <= i < |r| ==> r[i] in s && keep(r[i])
    ensures forall i :: 0 <= i < |s| && keep(s[i]) ==> s[i] in r
    ensures forall x {:trigger multiset(r)[x]} :: multiset(r)[x] == if keep(x) then multiset(s)[x] else 0
  {
    if s == [] then []
    else
      assert s == [s[0]] + s[1..];
      assert multiset(s) == multiset{s[0]} + multiset(s[1..]);
      var rest := Filter(s[1..], keep);
      if keep(s[0]) then
        assert multiset([s[0]] + rest) == multiset{s[0]} + multiset(rest);
        [s[0]] + rest
      else rest
  }

  /** The identity, the key under which a sequence of ids holds no id twice. */
  function Itself<T>(x: T): T { x }

  /** `r` can be obtained from `s` by deleting elements: it keeps their relative order. */
  ghost predicate IsSubsequence<T>(r: seq<T>, s: seq<T>)
    decreases |s|
  {
    r == [] || (s != [] && ((r[0] == s[0] && IsSubsequence(r[1..], s[1..])) || IsSubsequence(r, s[1..])))
  }

  /** Filtering keeps the survivors in their original relative order. */
  lemma {:induction false} FilterIsSubsequence<T(!new)>(s: seq<T>, keep: T -> bool)
    ensures IsSubsequence(Filter(s, keep), s)
  {
    if s != [] {
      FilterIsSubsequence(s[1..], keep);
      var r := Filter(s, keep);
      if keep(s[0]) {
        assert r[1..] == Filter(s[1..], keep);
      }
    }
  }

  /** Filtering a concatenation filters each part: an element's fate does not depend on its neighbours. */
  lemma {:induction false} FilterAppend<T(!new)>(a: seq<T>, b: seq<T>, keep: T -> bool)
    ensures Filter(a + b, keep) == Filter(a, keep) + Filter(b, keep)
  {
    if a != [] {
      FilterAppend(a[1..], b, keep);
      assert (a + b)[0] == a[0];
      assert (a + b)[1..] == a[1..] + b;
      var tail := Filter(a[1..] + b, keep);
      if keep(a[0]) {
        assert Filter(a + b, keep) == [a[0]] + tail;
        assert Filter(a, keep) == [a[0]] + Filter(a[1..], keep);
      } else {
        assert Filter(a + b, keep) == tail;
        assert Filter(a, keep) == Filter(a[1..], keep);
      }
    } else {
      assert a + b == b;
    }
  }

  /** A filter that every element passes changes nothing. */
  lemma {:induction false} FilterKeepsAll<T(!new)>(s: seq<T>, keep: T -> bool)
    requires forall i :: 0 <= i < |s| ==> keep(s[i])
    ensures Filter(s, keep) == s
  {
    if s != [] {
      FilterKeepsAll(s[1..], keep);
      assert s == [s[0]] + s[1..];
    }
  }

  /** A filter that no element passes leaves nothing. */
  lemma {:induction false} FilterKeepsNone<T(!new)>(s: seq<T>, keep: T -> bool)
    requires forall i :: 0 <= i < |s| ==> !keep(s[i])
    ensures Filter(s, keep) == []
  {
    if s != [] {
      FilterKeepsNone(s[1..], keep);
    }
  }

  /** The results of `f` on the elements at positions `lo..hi` of `s`, concatenated in order (a loop
      that pushes zero or more values per element). */
  function FlatMap<T, U>(s: seq<T>, f: T -> seq<U>, lo: nat, hi: nat): (r: seq<U>)
    requires lo <= hi <= |s|
    decreases hi - lo
    ensures (forall i :: lo <= i < hi ==> |f(s[i])| <= 1) ==> |r| <= hi - lo
  {
    if lo == hi then [] else FlatMap(s, f, lo, hi - 1) + f(s[hi - 1])
  }

  /** The results for a range are the results for its two halves, in order. */
  lemma {:induction false} FlatMapSplit<T, U>(s: seq<T>, f: T -> seq<U>, lo: nat, mid: nat, hi: nat)
    requires lo <= mid <= hi <= |s|
    ensures FlatMap(s, f, lo, hi) == FlatMap(s, f, lo, mid) + FlatMap(s, f, mid, hi)
    decreases hi - mid
  {
    if mid < hi {
      FlatMapSplit(s, f, lo, mid, hi - 1);
    }
  }

  /** Every result satisfies `p` when every element's results do. */
  lemma {:induction false} FlatMapAll<T, U>(s: seq<T>, f: T -> seq<U>, p: U -> bool, lo: nat, hi: nat)
    requires lo <= hi <= |s|
    requires forall i, j :: lo <= i < hi && 0 <= j < |f(s[i])| ==> p(f(s[i])[j])
    ensures forall j :: 0 <= j < |FlatMap(s, f, lo, hi)| ==> p(FlatMap(s, f, lo, hi)[j])
    decreases hi - lo
  {
    if lo < hi {
      FlatMapAll(s, f, p, lo, hi - 1);
      var r := FlatMap(s, f, lo, hi);
      var front := FlatMap(s, f, lo, hi - 1);
      forall j | 0 <= j < |r| ensures p(r[j]) {
        if j >= |front| {
          assert r[j] == f(s[hi - 1])[j - |front|];
        } else {
          assert r[j] == front[j];
        }
      }
    }
  }

  /** The first position in `lo..hi` whose element passes `p`, or `hi` when none does. */
  function FindIndexIn<T>(s: seq<T>, p: T -> bool, lo: nat, hi: nat): (i: nat)
    requires lo <= hi <= |s|
    decreases hi - lo
    ensures lo <= i <= hi
    ensures i < hi ==> p(s[i])
    ensures forall j :: lo <= j < i ==> !p(s[j])
  {
    if lo == hi then hi else if p(s[lo]) then lo else FindIndexIn(s, p, lo + 1, hi)
  }

  /** `s.findIndex(p)`, with `|s|` standing for -1: the position of the first element passing `p`. */
  function FindIndex<T>(s: seq<T>, p: T -> bool): (i: nat)
    ensures i <= |s|
    ensures i < |s| ==> p(s[i])
    ensures forall j :: 0 <= j < i ==> !p(s[j])
  {
    FindIndexIn(s, p, 0, |s|)
  }

  /** A search is determined by its contract: a first passing position in the range is what it finds. */
  lemma FindIndexInIs<T>(s: seq<T>, p: T -> bool, lo: nat, hi: nat, i: nat)
    requires lo <= i <= hi <= |s|
    requires i < hi ==> p(s[i])
    requires forall j :: lo <= j < i ==> !p(s[j])
    ensures FindIndexIn(s, p, lo, hi) == i
  {
  }

  /** Elements past `hi` do not take part in a search that ends at `hi`. */
  lemma FindIndexInAppend<T>(a: seq<T>, b: seq<T>, p: T -> bool, lo: nat, hi: nat)
    requires lo <= hi <= |a|
    ensures FindIndexIn(a + b, p, lo, hi) == FindIndexIn(a, p, lo, hi)
  {
    var i := FindIndexIn(a, p, lo, hi);
    assert forall j :: lo <= j < hi ==> (a + b)[j] == a[j];
    FindIndexInIs(a + b, p, lo, hi, i);
  }

  /** No two elements of `s` share a key. */
  predicate DistinctBy<T, K(==)>(s: seq<T>, key: T -> K) {
    forall i, j :: 0 <= i < j < |s| ==> key(s[i]) != key(s[j])
  }

  /** Filtering never introduces two elements with the same key. */
  lemma {:induction false} FilterDistinct<T(!new), K>(s: seq<T>, keep: T -> bool, key: T -> K)
    requires DistinctBy(s, key)
    ensures DistinctBy(Filter(s, keep), key)
  {
    if s != [] {
      FilterDistinct(s[1..], keep, key);
      var rest := Filter(s[1..], keep);
      if keep(s[0]) {
        var r := [s[0]] + rest;
        forall j | 0 < j < |r| ensures key(r[0]) != key(r[j]) {
          assert r[j] in s[1..];
          var k :| 0 <= k < |s[1..]| && s[1..][k] == r[j];
          assert s[k + 1] == r[j];
        }
        forall i, j | 0 <= i < j < |r| ensures key(r[i]) != key(r[j]) {
          if i > 0 {
            assert r[i] == rest[i - 1] && r[j] == rest[j - 1];
          }
        }
      }
    }
  }
}
