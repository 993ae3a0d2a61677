/**
 * Sequence operations that stand for the JavaScript array methods the source relies on:
 * `filter`, `find`, `findIndex` and `filter(...).length`.
 */
module Seqs {
  import opened Wrappers

  /** `sub` is obtained from `s` by deleting elements, the rest keeping their relative order. */
  predicate IsSubsequence<T(==)>(sub: seq<T>, s: seq<T>)
    decreases |s|
  {
    sub == [] ||
    (s != [] && ((sub[0] == s[0] && IsSubsequence(sub[1..], s[1..])) || IsSubsequence(sub, s[1..])))
  }

  /** `Array.prototype.filter`: the elements satisfying `keep`, in their original order. */
  function Filter<T(==)>(s: seq<T>, keep: T -> bool): (r: seq<T>)
    ensures |r| <= |s|
    ensures forall i :: 0 <= i < |r| ==> r[i] in s && keep(r[i])
    ensures forall i :: 0 <= i < |s| && keep(s[i]) ==> s[i] in r
    ensures IsSubsequence(r, s)
  {
    if s == [] then []
    else
      var rest := Filter(s[1..], keep);
      if keep(s[0]) then [s[0]] + rest else rest
  }

  /** The number of elements satisfying `p` (what `s.filter(p).length` yields). */
  function Count<T>(s: seq<T>, p: T -> bool): (n: nat)
    ensures n <= |s|
  {
    if s == [] then 0 else (if p(s[0]) then 1 else 0) + Count(s[1..], p)
  }

  /** `Array.prototype.findIndex`: the first index whose element satisfies `p`, or -1. */
  function FindIndex<T>(s: seq<T>, p: T -> bool): (i: int)
    ensures -1 <= i < |s|
    ensures i >= 0 ==> p(s[i]) && forall j :: 0 <= j < i ==> !p(s[j])
    ensures i == -1 ==> forall j :: 0 <= j < |s| ==> !p(s[j])
  {
    if s == [] then -1
    else if p(s[0]) then 0
    else
      var k := FindIndex(s[1..], p);
      if k == -1 then -1 else k + 1
  }

  /** After a run of elements failing `p` and one more failing it, the next one satisfying `p` is found. */
  lemma {:induction false} FindIndexSecondAfter<T>(prefix: seq<T>, x: T, y: T, p: T -> bool)
    requires forall k :: 0 <= k < |prefix| ==> !p(prefix[k])
    requires !p(x) && p(y)
    ensures FindIndex(prefix + [x, y], p) == |prefix| + 1
    decreases |prefix|
  {
    var s := prefix + [x, y];
    if prefix == [] {
      assert s[0] == x && s[1..] == [y];
    } else {
      assert s[0] == prefix[0] && s[1..] == prefix[1..] + [x, y];
      FindIndexSecondAfter(prefix[1..], x, y, p);
    }
  }

  /** `Array.prototype.find` followed by `|| null`: the first element satisfying `p`. */
  function Find<T>(s: seq<T>, p: T -> bool): (r: Option<T>)
    ensures r.None? <==> forall j :: 0 <= j < |s| ==> !p(s[j])
    ensures r.Some? ==> exists i :: 0 <= i < |s| && s[i] == r.value && p(s[i]) && forall j :: 0 <= j < i ==> !p(s[j])
  {
    var i := FindIndex(s, p);
    if i == -1 then None else Some(s[i])
  }

  lemma {:induction false} FilterSnoc<T>(s: seq<T>, x: T, keep: T -> bool)
    ensures Filter(s + [x], keep) == Filter(s, keep) + (if keep(x) then [x] else [])
    decreases |s|
  {
    if s == [] {
      assert s + [x] == [x];
    } else {
      assert (s + [x])[1..] == s[1..] + [x];
      FilterSnoc(s[1..], x, keep);
    }
  }

  lemma {:induction false} CountSnoc<T>(s: seq<T>, x: T, p: T -> bool)
    ensures Count(s + [x], p) == Count(s, p) + (if p(x) then 1 else 0)
    decreases |s|
  {
    if s == [] {
      assert s + [x] == [x];
    } else {
      assert (s + [x])[1..] == s[1..] + [x];
      CountSnoc(s[1..], x, p);
    }
  }

  /** Counting with `p` is the length of the filtered sequence. */
  lemma {:induction false} CountIsFilterLength<T>(s: seq<T>, p: T -> bool)
    ensures Count(s, p) == |Filter(s, p)|
    decreases |s|
  {
    if s != [] {
      CountIsFilterLength(s[1..], p);
    }
  }

  /** Two filters in a row keep exactly what one filter on the conjunction keeps. */
  lemma {:induction false} FilterFuse<T>(s: seq<T>, p: T -> bool, q: T -> bool, pq: T -> bool)
    requires forall x :: pq(x) == (p(x) && q(x))
    ensures Filter(Filter(s, p), q) == Filter(s, pq)
    decreases |s|
  {
    if s != [] {
      FilterFuse(s[1..], p, q, pq);
      if p(s[0]) {
        assert Filter(s, p) == [s[0]] + Filter(s[1..], p);
        assert Filter(s, p)[1..] == Filter(s[1..], p);
      }
    }
  }

  /** So the order in which two filters are applied does not matter. */
  lemma FilterCommute<T>(s: seq<T>, p: T -> bool, q: T -> bool)
    ensures Filter(Filter(s, p), q) == Filter(Filter(s, q), p)
  {
    var pq := x => p(x) && q(x);
    var qp := x => q(x) && p(x);
    FilterFuse(s, p, q, pq);
    FilterFuse(s, q, p, qp);
    FilterExt(s, pq, qp);
  }

  /** Filters with pointwise-equal predicates agree. */
  lemma {:induction false} FilterExt<T>(s: seq<T>, p: T -> bool, q: T -> bool)
    requires forall x :: p(x) == q(x)
    ensures Filter(s, p) == Filter(s, q)
    decreases |s|
  {
    if s != [] {
      FilterExt(s[1..], p, q);
    }
  }

  /**
   * Counts under three mutually exclusive predicates, each of which implies `q`, add up to
   * at most the count under `q`.
   */
  lemma {:induction false} CountExclusiveBound<T>(s: seq<T>, p1: T -> bool, p2: T -> bool, p3: T -> bool, q: T -> bool)
    requires forall x :: (p1(x) ==> q(x) && !p2(x) && !p3(x)) && (p2(x) ==> q(x) && !p3(x)) && (p3(x) ==> q(x))
    ensures Count(s, p1) + Count(s, p2) + Count(s, p3) <= Count(s, q)
    decreases |s|
  {
    if s != [] {
      CountExclusiveBound(s[1..], p1, p2, p3, q);
    }
  }
  /** A weaker predicate counts at least as many elements. */
  lemma {:induction false} CountMono<T>(s: seq<T>, p: T -> bool, q: T -> bool)
    requires forall x :: p(x) ==> q(x)
    ensures Count(s, p) <= Count(s, q)
    decreases |s|
  {
    if s != [] {
      CountMono(s[1..], p, q);
    }
  }

  /** Counting with `q` among the elements `p` keeps is counting with the conjunction. */
  lemma CountFiltered<T>(s: seq<T>, p: T -> bool, q: T -> bool, pq: T -> bool)
    requires forall x :: pq(x) == (p(x) && q(x))
    ensures Count(Filter(s, p), q) == Count(s, pq)
  {
    CountIsFilterLength(Filter(s, p), q);
    FilterFuse(s, p, q, pq);
    CountIsFilterLength(s, pq);
  }

  /** A filter every element passes keeps the whole sequence. */
  lemma {:induction false} FilterAll<T>(s: seq<T>, keep: T -> bool)
    requires forall i :: 0 <= i < |s| ==> keep(s[i])
    ensures Filter(s, keep) == s
    decreases |s|
  {
    if s != [] {
      FilterAll(s[1..], keep);
    }
  }

  /**
   * `findIndex(p)` then, when found, assignment at that index: the first element satisfying `p`
   * becomes `x`; without one nothing changes.
   */
  function ReplaceFirstWhere<T>(s: seq<T>, p: T -> bool, x: T): (r: seq<T>)
    ensures |r| == |s|
    ensures (forall j :: 0 <= j < |s| ==> !p(s[j])) ==> r == s
    ensures forall j :: 0 <= j < |s| && p(s[j]) && (forall k :: 0 <= k < j ==> !p(s[k])) ==> r == s[j := x]
  {
    var i := FindIndex(s, p);
    if i == -1 then s else s[i := x]
  }

  /** Replacing the first match by a value that itself matches a second time changes nothing more. */
  lemma ReplaceFirstWhereTwice<T>(s: seq<T>, p: T -> bool, x: T)
    requires p(x)
    ensures ReplaceFirstWhere(ReplaceFirstWhere(s, p, x), p, x) == ReplaceFirstWhere(s, p, x)
  {
    var i := FindIndex(s, p);
    if i != -1 {
      var r := s[i := x];
      assert forall k :: 0 <= k < i ==> r[k] == s[k];
      assert p(r[i]);
      var j := FindIndex(r, p);
      assert j != -1 && j <= i;
      assert j == i;
    }
  }
}
