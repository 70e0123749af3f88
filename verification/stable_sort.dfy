/**
 The program sorts with `Array.prototype.sort` and a numeric comparator
 `(a, b) => key(b) - key(a)`, which is a stable sort (ECMAScript 2019 and
 later) descending by `key`. An ascending sort `(a, b) => key(a) - key(b)`
 is the same comparator on the negated key, so one function covers both.

 Stability is stated without positions: for every key value `k`, the
 elements with key `k` appear in the result in the same order, and with the
 same multiplicities, as in the input.
 */
module StableSort {

  import opened Seqs

  /** The elements of `s` whose key is `k`, in the order of `s`. */
  function WithKey<T>(s: seq<T>, key: T -> real, k: real): seq<T>
  {
    if |s| == 0 then []
    else (if key(s[0]) == k then [s[0]] else []) + WithKey(s[1..], key, k)
  }

  ghost predicate NonIncreasing<T>(s: seq<T>, key: T -> real)
  {
    forall i, j :: 0 <= i < j < |s| ==> key(s[i]) >= key(s[j])
  }

  /** `r` lists the elements of every key class of `s` in the order of `s`. */
  ghost predicate StableWrt<T>(r: seq<T>, s: seq<T>, key: T -> real)
  {
    forall k :: WithKey(r, key, k) == WithKey(s, key, k)
  }

  lemma {:induction false} WithKeyAppend<T>(a: seq<T>, b: seq<T>, key: T -> real, k: real)
    ensures WithKey(a + b, key, k) == WithKey(a, key, k) + WithKey(b, key, k)
    decreases |a|
  {
    if |a| > 0 {
      assert (a + b)[1..] == a[1..] + b;
      WithKeyAppend(a[1..], b, key, k);
    } else {
      assert a + b == b;
    }
  }

  lemma WithKeyCons<T>(x: T, s: seq<T>, key: T -> real, k: real)
    ensures WithKey([x] + s, key, k) == (if key(x) == k then [x] else []) + WithKey(s, key, k)
  {
    assert ([x] + s)[1..] == s;
  }

  /** Every element of a key class has that key. */
  lemma {:induction false} WithKeyMembers<T>(s: seq<T>, key: T -> real, k: real)
    ensures forall x :: x in WithKey(s, key, k) ==> x in s && key(x) == k
    decreases |s|
  {
    if |s| > 0 {
      WithKeyMembers(s[1..], key, k);
    }
  }

  /** An element of `s` with key `k` shows up in the key class of `k`. */
  lemma {:induction false} WithKeyHas<T>(s: seq<T>, key: T -> real, i: int)
    requires 0 <= i < |s|
    ensures s[i] in WithKey(s, key, key(s[i]))
    decreases |s|
  {
    if i > 0 {
      WithKeyHas(s[1..], key, i - 1);
    }
  }

  /**
   Insert `x` into a non-increasing `r` in front of the first element whose
   key is not greater than `key(x)`, so that `x` precedes its equals.
   */
  function Insert<T>(x: T, r: seq<T>, key: T -> real): (t: seq<T>)
    ensures multiset(t) == multiset(r) + multiset{x}
    ensures NonIncreasing(r, key) ==> NonIncreasing(t, key)
    ensures NonIncreasing(r, key) ==>
              forall k :: WithKey(t, key, k) == (if key(x) == k then [x] else []) + WithKey(r, key, k)
    decreases |r|
  {
    if |r| == 0 || key(r[0]) <= key(x) then
      WithKeyConsAll(x, r, key);
      [x] + r
    else
      var rest := Insert(x, r[1..], key);
      assert r == [r[0]] + r[1..];
      InsertHead(x, r, rest, key);
      [r[0]] + rest
  }

  lemma WithKeyConsAll<T>(x: T, s: seq<T>, key: T -> real)
    ensures forall k :: WithKey([x] + s, key, k) == (if key(x) == k then [x] else []) + WithKey(s, key, k)
  {
    forall k {
      WithKeyCons(x, s, key, k);
    }
  }

  /** The step of `Insert` that passes over the larger head `r[0]`. */
  lemma InsertHead<T>(x: T, r: seq<T>, rest: seq<T>, key: T -> real)
    requires |r| > 0 && key(r[0]) > key(x)
    requires multiset(rest) == multiset(r[1..]) + multiset{x}
    requires NonIncreasing(r[1..], key) ==> NonIncreasing(rest, key)
    requires NonIncreasing(r[1..], key) ==>
               forall k :: WithKey(rest, key, k) == (if key(x) == k then [x] else []) + WithKey(r[1..], key, k)
    ensures multiset([r[0]] + rest) == multiset(r) + multiset{x}
    ensures NonIncreasing(r, key) ==> NonIncreasing([r[0]] + rest, key)
    ensures NonIncreasing(r, key) ==>
              forall k :: WithKey([r[0]] + rest, key, k) == (if key(x) == k then [x] else []) + WithKey(r, key, k)
  {
    assert r == [r[0]] + r[1..];
    if NonIncreasing(r, key) {
      InsertHeadSorted(x, r, rest, key);
      InsertHeadClasses(x, r, rest, key);
    }
  }

  /** Passing over a larger head keeps `x` in front of its own key class. */
  lemma InsertHeadClasses<T>(x: T, r: seq<T>, rest: seq<T>, key: T -> real)
    requires |r| > 0 && key(r[0]) > key(x)
    requires forall k :: WithKey(rest, key, k) == (if key(x) == k then [x] else []) + WithKey(r[1..], key, k)
    ensures forall k :: WithKey([r[0]] + rest, key, k) == (if key(x) == k then [x] else []) + WithKey(r, key, k)
  {
    assert r == [r[0]] + r[1..];
    forall k
      ensures WithKey([r[0]] + rest, key, k) == (if key(x) == k then [x] else []) + WithKey(r, key, k)
    {
      WithKeyCons(r[0], rest, key, k);
      WithKeyCons(r[0], r[1..], key, k);
    }
  }

  lemma InsertHeadSorted<T>(x: T, r: seq<T>, rest: seq<T>, key: T -> real)
    requires |r| > 0 && key(r[0]) > key(x)
    requires multiset(rest) == multiset(r[1..]) + multiset{x}
    requires NonIncreasing(r, key) && NonIncreasing(rest, key)
    ensures NonIncreasing([r[0]] + rest, key)
  {
    var t := [r[0]] + rest;
    forall j | 0 < j < |t|
      ensures key(t[0]) >= key(t[j])
    {
      assert t[j] == rest[j - 1];
      assert t[j] in multiset(rest);
      if t[j] != x {
        assert t[j] in multiset(r[1..]);
        var m :| 0 <= m < |r[1..]| && r[1..][m] == t[j];
        assert r[m + 1] == t[j];
      }
    }
    forall i, j | 0 < i < j < |t|
      ensures key(t[i]) >= key(t[j])
    {
      assert t[i] == rest[i - 1] && t[j] == rest[j - 1];
    }
  }

  /**
   The program's stable sort, descending by `key`: a permutation of `s`,
   non-increasing in `key`, and keeping each key class in input order.
   */
  function SortByKeyDesc<T>(s: seq<T>, key: T -> real): (r: seq<T>)
    ensures |r| == |s|
    ensures multiset(r) == multiset(s)
    ensures NonIncreasing(r, key)
    ensures StableWrt(r, s, key)
    decreases |s|
  {
    if |s| == 0 then []
    else
      var rest := SortByKeyDesc(s[1..], key);
      var r := Insert(s[0], rest, key);
      assert s == [s[0]] + s[1..];
      assert multiset(r) == multiset(s);
      assert |r| == |multiset(r)|;
      forall k
        ensures WithKey(r, key, k) == WithKey(s, key, k)
      {
        WithKeyCons(s[0], s[1..], key, k);
      }
      r
  }

  /**
   A non-increasing sequence is determined by its key classes: the three
   properties of `SortByKeyDesc` leave no other choice of result.
   */
  lemma {:induction false} SortedByClassesUnique<T>(r1: seq<T>, r2: seq<T>, key: T -> real)
    requires NonIncreasing(r1, key) && NonIncreasing(r2, key)
    requires StableWrt(r1, r2, key)
    ensures r1 == r2
    decreases |r1|
  {
    if |r1| == 0 {
      if |r2| > 0 {
        WithKeyHas(r2, key, 0);
      }
    } else if |r2| == 0 {
      WithKeyHas(r1, key, 0);
    } else {
      var k1, k2 := key(r1[0]), key(r2[0]);
      WithKeyHas(r1, key, 0);
      WithKeyHas(r2, key, 0);
      WithKeyMembers(r1, key, k2);
      WithKeyMembers(r2, key, k1);
      assert r1[0] in WithKey(r2, key, k1);
      assert k1 <= k2;
      assert r2[0] in WithKey(r1, key, k2);
      assert k2 <= k1;
      assert r1 == [r1[0]] + r1[1..] && r2 == [r2[0]] + r2[1..];
      WithKeyCons(r1[0], r1[1..], key, k1);
      WithKeyCons(r2[0], r2[1..], key, k1);
      assert r1[0] == WithKey(r1, key, k1)[0] == WithKey(r2, key, k1)[0] == r2[0];
      forall k
        ensures WithKey(r1[1..], key, k) == WithKey(r2[1..], key, k)
      {
        WithKeyCons(r1[0], r1[1..], key, k);
        WithKeyCons(r2[0], r2[1..], key, k);
        var head := if k1 == k then [r1[0]] else [];
        assert head + WithKey(r1[1..], key, k) == head + WithKey(r2[1..], key, k);
        assert WithKey(r1[1..], key, k) == (head + WithKey(r1[1..], key, k))[|head|..];
      }
      SortedByClassesUnique(r1[1..], r2[1..], key);
    }
  }

  /** Any stable descending ordering of `s` is the one `SortByKeyDesc` computes. */
  lemma SortSpecDetermines<T>(s: seq<T>, r: seq<T>, key: T -> real)
    requires NonIncreasing(r, key) && StableWrt(r, s, key)
    ensures r == SortByKeyDesc(s, key)
  {
    SortedByClassesUnique(r, SortByKeyDesc(s, key), key);
  }

  /**
   `r` is the first `n` entries of a stable descending ranking of `s`: as long
   as `n` allows, in key order, each key class contributing a prefix of its
   own input order, and a class is cut short only when everything kept ranks
   at least as high as it.
   */
  ghost predicate StableTop<T>(r: seq<T>, s: seq<T>, key: T -> real, n: nat)
  {
    && |r| == Min(n, |s|)
    && multiset(r) <= multiset(s)
    && NonIncreasing(r, key)
    && (forall k :: IsPrefix(WithKey(r, key, k), WithKey(s, key, k)))
    && (forall k, i :: 0 <= i < |r| && |WithKey(r, key, k)| < |WithKey(s, key, k)| ==> k <= key(r[i]))
  }

  /** The program's `sort(...).slice(0, n)`. */
  function TopByKey<T>(s: seq<T>, key: T -> real, n: nat): (r: seq<T>)
    ensures StableTop(r, s, key, n)
  {
    var sorted := SortByKeyDesc(s, key);
    var r := Take(sorted, n);
    TakeSortedIsTop(s, sorted, key, n);
    r
  }

  lemma TakeSortedIsTop<T>(s: seq<T>, sorted: seq<T>, key: T -> real, n: nat)
    requires multiset(sorted) == multiset(s) && NonIncreasing(sorted, key) && StableWrt(sorted, s, key)
    ensures StableTop(Take(sorted, n), s, key, n)
  {
    var r := Take(sorted, n);
    assert |sorted| == |multiset(sorted)| == |multiset(s)| == |s|;
    var rest := sorted[|r|..];
    assert sorted == r + rest;
    assert multiset(sorted) == multiset(r) + multiset(rest);
    forall k
      ensures IsPrefix(WithKey(r, key, k), WithKey(s, key, k))
      ensures |WithKey(r, key, k)| < |WithKey(s, key, k)| ==> forall i :: 0 <= i < |r| ==> k <= key(r[i])
    {
      WithKeyAppend(r, rest, key, k);
      if |WithKey(r, key, k)| < |WithKey(s, key, k)| {
        var w := WithKey(rest, key, k);
        assert |w| > 0;
        WithKeyMembers(rest, key, k);
        assert w[0] in rest;
        var m :| 0 <= m < |rest| && rest[m] == w[0];
        forall i | 0 <= i < |r|
          ensures k <= key(r[i])
        {
          assert sorted[i] == r[i] && sorted[|r| + m] == rest[m];
        }
      }
    }
  }

  /** What a top-`n` selection keeps comes from the input. */
  lemma StableTopMembers<T>(r: seq<T>, s: seq<T>, key: T -> real, n: nat)
    requires StableTop(r, s, key, n)
    ensures forall x :: x in r ==> x in s
  {
    forall x | x in r
      ensures x in s
    {
      assert x in multiset(r);
    }
  }
}
