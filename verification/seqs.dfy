/**
 Sequence helpers shared by the ranking and matching modules: the array
 operations `filter`, `find` and `slice(0, n)` of the program, each with the
 contract that the callers rely on.
 */
module Seqs {

  import opened Wrappers

  function Min(a: int, b: int): int
  {
    if a <= b then a else b
  }

  /** `a` is `b` with some elements left out, the rest kept in order. */
  ghost predicate IsSubsequence<T>(a: seq<T>, b: seq<T>)
    decreases |b|
  {
    if |a| == 0 then true
    else if |b| == 0 then false
    else (a[0] == b[0] && IsSubsequence(a[1..], b[1..])) || IsSubsequence(a, b[1..])
  }

  ghost predicate IsPrefix<T>(a: seq<T>, b: seq<T>)
  {
    |a| <= |b| && a == b[..|a|]
  }

  /** `s.slice(0, n)` for a non-negative `n`. */
  function Take<T>(s: seq<T>, n: nat): (r: seq<T>)
    ensures |r| == Min(n, |s|)
    ensures IsPrefix(r, s)
  {
    if n <= |s| then s[..n] else s
  }

  /** `s.filter(p)`: the elements satisfying `p`, each as often as in `s`, in the order of `s`. */
  function Filter<T(!new)>(s: seq<T>, p: T -> bool): (r: seq<T>)
    ensures |r| <= |s|
    ensures forall i :: 0 <= i < |r| ==> p(r[i])
    ensures forall x :: p(x) ==> multiset(r)[x] == multiset(s)[x]
    ensures forall x :: !p(x) ==> multiset(r)[x] == 0
    ensures IsSubsequence(r, s)
  {
    if |s| == 0 then []
    else
      var rest := Filter(s[1..], p);
      assert s == [s[0]] + s[1..];
      assert multiset(s) == multiset{s[0]} + multiset(s[1..]);
      if p(s[0]) then
        assert ([s[0]] + rest)[1..] == rest;
        assert multiset([s[0]] + rest) == multiset{s[0]} + multiset(rest);
        [s[0]] + rest
      else rest
  }

  /** `s.find(p)`: the first element satisfying `p`, if any. */
  function FindFirst<T(==)>(s: seq<T>, p: T -> bool): (r: Option<T>)
    ensures r.None? <==> forall i :: 0 <= i < |s| ==> !p(s[i])
    ensures r.Some? ==> exists i :: 0 <= i < |s| && s[i] == r.value && p(s[i])
                                    && forall j :: 0 <= j < i ==> !p(s[j])
  {
    if |s| == 0 then None
    else if p(s[0]) then Some(s[0])
    else
      var r := FindFirst(s[1..], p);
      if r.Some? then
        var i :| 0 <= i < |s[1..]| && s[1..][i] == r.value && p(s[1..][i])
                 && forall j :: 0 <= j < i ==> !p(s[1..][j]);
        assert s[i + 1] == r.value && forall j :: 0 <= j < i + 1 ==> !p(s[j]);
        r
      else r
  }

  /** A filter keeps every element it is asked to keep (the membership form of its contract). */
  lemma FilterKeeps<T(!new)>(s: seq<T>, p: T -> bool, x: T)
    requires x in s && p(x)
    ensures x in Filter(s, p)
  {
    assert multiset(s)[x] > 0;
  }

  /** Two positions holding the same value give that value a multiplicity of at least two. */
  lemma {:induction false} TwoPositions<T>(s: seq<T>, i: int, j: int)
    requires 0 <= i < j < |s| && s[i] == s[j]
    ensures multiset(s)[s[i]] >= 2
  {
    assert s == s[..j] + [s[j]] + s[j + 1..];
    assert s[i] in s[..j];
    assert multiset(s) == multiset(s[..j]) + multiset{s[j]} + multiset(s[j + 1..]);
  }

  /** A value of multiplicity two sits at two distinct positions. */
  lemma {:induction false} PositionsOfDuplicate<T>(s: seq<T>, x: T)
    requires multiset(s)[x] >= 2
    ensures exists i, j :: 0 <= i < j < |s| && s[i] == x && s[j] == x
    decreases |s|
  {
    assert s == [s[0]] + s[1..];
    assert multiset(s) == multiset{s[0]} + multiset(s[1..]);
    if s[0] == x {
      assert x in multiset(s[1..]);
      var j :| 0 <= j < |s[1..]| && s[1..][j] == x;
      assert s[0] == x && s[j + 1] == x;
    } else {
      PositionsOfDuplicate(s[1..], x);
      var i, j :| 0 <= i < j < |s[1..]| && s[1..][i] == x && s[1..][j] == x;
      assert s[i + 1] == x && s[j + 1] == x;
    }
  }

  /** `f` tells the elements of `s` apart, position by position. */
  ghost predicate DistinctBy<T, U>(s: seq<T>, f: T -> U)
  {
    forall i, j :: 0 <= i < j < |s| ==> f(s[i]) != f(s[j])
  }

  /** Telling elements apart by `f` survives reordering and dropping elements. */
  lemma DistinctByShrink<T, U>(s: seq<T>, r: seq<T>, f: T -> U)
    requires multiset(r) <= multiset(s)
    requires DistinctBy(s, f)
    ensures DistinctBy(r, f)
  {
    forall i, j | 0 <= i < j < |r|
      ensures f(r[i]) != f(r[j])
    {
      if r[i] == r[j] {
        TwoPositions(r, i, j);
        PositionsOfDuplicate(s, r[i]);
        assert false;
      } else {
        assert r[i] in multiset(s) && r[j] in multiset(s);
        var a :| 0 <= a < |s| && s[a] == r[i];
        var b :| 0 <= b < |s| && s[b] == r[j];
        if a < b {
          assert f(s[a]) != f(s[b]);
        } else {
          assert f(s[b]) != f(s[a]);
        }
      }
    }
  }

  /** The values `f` takes on the elements of `s`. */
  ghost function Image<T, U>(s: seq<T>, f: T -> U): set<U>
  {
    set i | 0 <= i < |s| :: f(s[i])
  }

  /** A sequence told apart by `f` has as many elements as `f` has values on it. */
  lemma {:induction false} DistinctByCard<T, U>(s: seq<T>, f: T -> U)
    requires DistinctBy(s, f)
    ensures |Image(s, f)| == |s|
    decreases |s|
  {
    if |s| > 0 {
      var t := s[..|s| - 1];
      assert DistinctBy(t, f);
      DistinctByCard(t, f);
      var last := f(s[|s| - 1]);
      assert Image(s, f) == Image(t, f) + {last};
      assert last !in Image(t, f);
    }
  }

  /** What a filter keeps satisfies the predicate and comes from the input. */
  lemma FilterMembers<T(!new)>(s: seq<T>, p: T -> bool)
    ensures forall x :: x in Filter(s, p) ==> p(x) && x in s
  {
    var r := Filter(s, p);
    forall x | x in r
      ensures p(x) && x in s
    {
      assert multiset(r)[x] > 0;
    }
  }

  /** A filter whose predicate holds throughout keeps everything. */
  lemma {:induction false} FilterAll<T(!new)>(s: seq<T>, p: T -> bool)
    requires forall i :: 0 <= i < |s| ==> p(s[i])
    ensures Filter(s, p) == s
    decreases |s|
  {
    if |s| > 0 {
      FilterAll(s[1..], p);
    }
  }

  /** What a filter keeps occurs at most as often as in the input. */
  lemma FilterShrinks<T(!new)>(s: seq<T>, p: T -> bool)
    ensures multiset(Filter(s, p)) <= multiset(s)
  {
    var r := Filter(s, p);
    forall x
      ensures multiset(r)[x] <= multiset(s)[x]
    {
      if p(x) {
        assert multiset(r)[x] == multiset(s)[x];
      }
    }
  }
}
