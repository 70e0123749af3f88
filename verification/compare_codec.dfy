/**
 The canonical `a-vs-b` comparison slug (lib/compare-seo.ts, lines 1-17):
 building it from two city slugs, splitting on the separator as
 `String.prototype.split` does, and parsing it back.
 */
module CompareCodec {

  import opened Wrappers
  import Strings

  const PairSeparator: string := "-vs-"

  datatype ComparePair = ComparePair(citySlugA: string, citySlugB: string)

  /**
   Slug order: lexicographic by character code. It stands in for
   `localeCompare`, whose collation is not modelled; what the program needs
   of it is a total order, which this is.
   */
  predicate SlugLe(a: string, b: string)
    decreases |a|
  {
    |a| == 0 || (|b| > 0 && (a[0] < b[0] || (a[0] == b[0] && SlugLe(a[1..], b[1..]))))
  }

  lemma {:induction false} SlugLeTotal(a: string, b: string)
    ensures SlugLe(a, b) || SlugLe(b, a)
    decreases |a|
  {
    if |a| > 0 && |b| > 0 && a[0] == b[0] {
      SlugLeTotal(a[1..], b[1..]);
    }
  }

  lemma {:induction false} SlugLeAntisymmetric(a: string, b: string)
    requires SlugLe(a, b) && SlugLe(b, a)
    ensures a == b
    decreases |a|
  {
    if |a| > 0 {
      SlugLeAntisymmetric(a[1..], b[1..]);
      assert a == [a[0]] + a[1..] && b == [b[0]] + b[1..];
    }
  }

  /** The two slugs in slug order, as `[a, b].sort(...)` leaves them. */
  function Lesser(a: string, b: string): string
  {
    if SlugLe(a, b) then a else b
  }

  function Greater(a: string, b: string): string
  {
    if SlugLe(a, b) then b else a
  }

  /** The canonical pair of two slugs. */
  function Canonical(a: string, b: string): ComparePair
  {
    ComparePair(Lesser(a, b), Greater(a, b))
  }

  /** `[a, b].sort(localeCompare).join("-vs-")`. */
  function BuildComparePairSlug(a: string, b: string): (r: string)
    ensures r == Lesser(a, b) + PairSeparator + Greater(a, b)
    ensures SlugLe(Lesser(a, b), Greater(a, b))
    ensures |r| == |a| + |b| + |PairSeparator|
  {
    SlugLeTotal(a, b);
    if SlugLe(a, b) then a + PairSeparator + b else b + PairSeparator + a
  }

  /** The slug does not depend on the order of the two cities. */
  lemma BuildSymmetric(a: string, b: string)
    ensures BuildComparePairSlug(a, b) == BuildComparePairSlug(b, a)
    ensures Canonical(a, b) == Canonical(b, a)
  {
    SlugLeTotal(a, b);
    if SlugLe(a, b) && SlugLe(b, a) {
      SlugLeAntisymmetric(a, b);
    }
  }

  /** The separator starts at position `i` of `s`. */
  predicate SepAt(s: string, i: int)
  {
    0 <= i && i + |PairSeparator| <= |s| && s[i..i + |PairSeparator|] == PairSeparator
  }

  predicate SepFree(s: string)
  {
    forall i :: 0 <= i < |s| ==> !SepAt(s, i)
  }

  /** The first occurrence of the separator at or after `from`. */
  function FirstSepFrom(s: string, from: nat): (r: Option<nat>)
    ensures r.Some? ==> from <= r.value && SepAt(s, r.value)
    ensures r.Some? ==> forall i :: from <= i < r.value ==> !SepAt(s, i)
    ensures r.None? ==> forall i :: from <= i ==> !SepAt(s, i)
    decreases |s| - from
  {
    if from + |PairSeparator| > |s| then None
    else if SepAt(s, from) then Some(from)
    else FirstSepFrom(s, from + 1)
  }

  /** An occurrence that fits in a prefix is an occurrence in the prefix. */
  lemma SepAtPrefix(s: string, n: int, i: int)
    requires 0 <= n <= |s| && 0 <= i && i + |PairSeparator| <= n
    ensures SepAt(s[..n], i) <==> SepAt(s, i)
  {
    assert s[..n][i..i + |PairSeparator|] == s[i..i + |PairSeparator|];
  }

  lemma SepAtSuffix(s: string, n: int, i: int)
    requires 0 <= n <= |s| && 0 <= i
    ensures SepAt(s[n..], i) <==> SepAt(s, n + i)
  {
    if i + |PairSeparator| <= |s| - n {
      assert s[n..][i..i + |PairSeparator|] == s[n + i..n + i + |PairSeparator|];
    }
  }

  /**
   `s.split("-vs-")`: the text between successive left-most, non-overlapping
   occurrences of the separator. Joining the chunks back gives `s`, no chunk
   holds the separator, and every chunk but the last ends where the first
   occurrence after its start begins: no occurrence straddles its end.
   */
  function Split(s: string): (r: seq<string>)
    ensures |r| >= 1
    ensures Strings.Join(r, PairSeparator) == s
    ensures forall k :: 0 <= k < |r| ==> SepFree(r[k])
    ensures forall k :: 0 <= k < |r| - 1 ==> SepFree(r[k] + "-vs")
    decreases |s|
  {
    match FirstSepFrom(s, 0)
    case None => [s]
    case Some(i) =>
      var rest := Split(s[i + |PairSeparator|..]);
      var r := [s[..i]] + rest;
      assert s == s[..i] + PairSeparator + s[i + |PairSeparator|..];
      assert r[1..] == rest;
      forall j | 0 <= j < i
        ensures !SepAt(s[..i], j)
      {
        if j + |PairSeparator| <= i {
          SepAtPrefix(s, i, j);
        }
      }
      var head := s[..i + 3];
      assert s[..i] + "-vs" == head;
      forall j | 0 <= j < |head|
        ensures !SepAt(head, j)
      {
        if j + |PairSeparator| <= i + 3 {
          SepAtPrefix(s, i + 3, j);
        }
      }
      r
  }

  /**
   `parseComparePairSlug`: exactly two chunks, both non-empty and different,
   else nothing. A parsed pair spells the input back.
   */
  function ParseComparePairSlug(pair: string): (r: Option<ComparePair>)
    ensures r.Some? ==> r.value.citySlugA != "" && r.value.citySlugB != ""
    ensures r.Some? ==> r.value.citySlugA != r.value.citySlugB
    ensures r.Some? ==> r.value.citySlugA + PairSeparator + r.value.citySlugB == pair
    ensures r.Some? ==> SepFree(r.value.citySlugA) && SepFree(r.value.citySlugB)
    ensures r.None? <==> |Split(pair)| != 2 || Split(pair)[0] == "" || Split(pair)[1] == ""
                          || Split(pair)[0] == Split(pair)[1]
  {
    var chunks := Split(pair);
    if |chunks| != 2 then None
    else
      var a, b := chunks[0], chunks[1];
      if a == "" || b == "" || a == b then None
      else
        assert Strings.Join(chunks[1..], PairSeparator) == b;
        Some(ComparePair(a, b))
  }

  /** The first separator of `a-vs-b` is the inserted one when `a + "-vs"` holds none. */
  lemma SplitAtJoin(a: string, b: string)
    requires SepFree(a + "-vs")
    ensures Split(a + PairSeparator + b) == [a] + Split(b)
  {
    var pair := a + PairSeparator + b;
    var i := |a|;
    assert pair[..i + 3] == a + "-vs";
    assert SepAt(pair, i);
    forall j | 0 <= j < i
      ensures !SepAt(pair, j)
    {
      SepAtPrefix(pair, i + 3, j);
    }
    assert FirstSepFrom(pair, 0) == Some(i);
    assert pair[i + |PairSeparator|..] == b;
  }

  /**
   The contract of `Split` pins it down: any chunking of `s` that joins back
   to `s`, whose chunks hold no separator and none of whose chunks but the
   last is followed by a straddling occurrence, is `Split(s)`.
   */
  lemma {:induction false} SplitUnique(s: string, r: seq<string>)
    requires |r| >= 1 && Strings.Join(r, PairSeparator) == s
    requires forall k :: 0 <= k < |r| ==> SepFree(r[k])
    requires forall k :: 0 <= k < |r| - 1 ==> SepFree(r[k] + "-vs")
    ensures r == Split(s)
    decreases |r|
  {
    if |r| == 1 {
      assert SepFree(s);
      assert FirstSepFrom(s, 0).None?;
    } else {
      var tail := r[1..];
      assert forall k :: 0 <= k < |tail| ==> tail[k] == r[k + 1];
      SplitAtJoin(r[0], Strings.Join(tail, PairSeparator));
      SplitUnique(Strings.Join(tail, PairSeparator), tail);
      assert r == [r[0]] + tail;
    }
  }

  /** A parsed pair splits its input at the first separator, after a chunk free of `-vs-`-prefixes. */
  lemma {:induction false} ParseSound(pair: string, a: string, b: string)
    requires ParseComparePairSlug(pair) == Some(ComparePair(a, b))
    ensures pair == a + PairSeparator + b
    ensures SepFree(a + "-vs") && SepFree(b)
  {
    var n := |PairSeparator|;
    var i := FirstSepFrom(pair, 0).value;
    assert Split(pair) == [pair[..i]] + Split(pair[i + n..]);
    assert a == pair[..i];
    assert a + "-vs" == pair[..i + 3];
    forall j | 0 <= j < |a + "-vs"|
      ensures !SepAt(a + "-vs", j)
    {
      if j + n <= i + 3 {
        SepAtPrefix(pair, i + 3, j);
      }
    }
  }

  /**
   What parsing accepts: a pair `(a, b)` comes out of `pair` exactly when
   `pair` is `a-vs-b` for different non-empty `a` and `b`, the first separator
   of `pair` is the one after `a` (so `a + "-vs"` holds none) and `b` holds none.
   */
  lemma ParseExact(pair: string, a: string, b: string)
    ensures ParseComparePairSlug(pair) == Some(ComparePair(a, b)) <==>
              && a != "" && b != "" && a != b
              && pair == a + PairSeparator + b
              && SepFree(a + "-vs") && SepFree(b)
  {
    if ParseComparePairSlug(pair) == Some(ComparePair(a, b)) {
      ParseSound(pair, a, b);
    }
    if && a != "" && b != "" && a != b && pair == a + PairSeparator + b
       && SepFree(a + "-vs") && SepFree(b) {
      SplitAtJoin(a, b);
      assert Split(b) == [b];
    }
  }

  /**
   The round trip: parsing the slug built from `a` and `b` gives them back in
   slug order exactly when they differ, are non-empty, and the only separator
   the split finds is the one the build inserted.
   */
  lemma RoundTrip(a: string, b: string)
    ensures ParseComparePairSlug(BuildComparePairSlug(a, b)) == Some(Canonical(a, b)) <==>
              && a != "" && b != "" && a != b
              && SepFree(Lesser(a, b) + "-vs") && SepFree(Greater(a, b))
  {
    ParseExact(BuildComparePairSlug(a, b), Lesser(a, b), Greater(a, b));
  }

  /** A slug that pairs cleanly: non-empty, no separator, and not ending in `-vs`. */
  predicate PairSafe(slug: string)
  {
    slug != "" && SepFree(slug + "-vs")
  }

  lemma PairSafeSepFree(slug: string)
    requires PairSafe(slug)
    ensures SepFree(slug)
  {
    forall i | 0 <= i < |slug|
      ensures !SepAt(slug, i)
    {
      if i + |PairSeparator| <= |slug| {
        assert (slug + "-vs")[..|slug|] == slug;
        SepAtPrefix(slug + "-vs", |slug|, i);
      }
    }
  }

  /** Two different pair-safe slugs always round-trip. */
  lemma RoundTripSafe(a: string, b: string)
    requires PairSafe(a) && PairSafe(b) && a != b
    ensures ParseComparePairSlug(BuildComparePairSlug(a, b)) == Some(Canonical(a, b))
  {
    PairSafeSepFree(a);
    PairSafeSepFree(b);
    RoundTrip(a, b);
  }

  /** A slug without a stray separator never pairs with itself: `a-vs-a` is rejected. */
  lemma SelfPairRejected(a: string)
    requires SepFree(a + "-vs")
    ensures ParseComparePairSlug(BuildComparePairSlug(a, a)).None?
  {
    SplitAtJoin(a, a);
    assert a + "-vs" == (a + "-vs")[..|a|] + "-vs";
    forall i | 0 <= i < |a|
      ensures !SepAt(a, i)
    {
      if i + |PairSeparator| <= |a| {
        assert (a + "-vs")[..|a|] == a;
        SepAtPrefix(a + "-vs", |a|, i);
      }
    }
    assert Split(a) == [a];
  }

  /** A slug that is not separator-free can pair with itself, into two other slugs. */
  lemma SelfPairCounterexample()
    ensures BuildComparePairSlug("x-vs", "x-vs") == "x-vs-vs-x-vs"
    ensures ParseComparePairSlug(BuildComparePairSlug("x-vs", "x-vs")) == Some(ComparePair("x", "vs-x-vs"))
  {
    assert "x-vs" + PairSeparator + "x-vs" == "x-vs-vs-x-vs" == "x" + PairSeparator + "vs-x-vs";
    assert "x" + "-vs" == "x-vs";
    LiteralSepFree("x-vs");
    LiteralSepFree("vs-x-vs");
    ParseExact("x-vs-vs-x-vs", "x", "vs-x-vs");
  }

  /** The four characters of an occurrence of the separator. */
  lemma SepAtChars(s: string, i: int)
    requires SepAt(s, i)
    ensures s[i] == '-' && s[i + 1] == 'v' && s[i + 2] == 's' && s[i + 3] == '-'
  {
    assert s[i..i + 4][0] == s[i] && s[i..i + 4][1] == s[i + 1];
    assert s[i..i + 4][2] == s[i + 2] && s[i..i + 4][3] == s[i + 3];
  }

  /** Separator-freedom, checked character by character. */
  lemma LiteralSepFree(s: string)
    requires forall i :: 0 <= i < |s| - 3 ==>
               s[i] != '-' || s[i + 1] != 'v' || s[i + 2] != 's' || s[i + 3] != '-'
    ensures SepFree(s)
  {
    forall i | 0 <= i < |s|
      ensures !SepAt(s, i)
    {
      if SepAt(s, i) {
        SepAtChars(s, i);
      }
    }
  }

  /** A well-formed pair slug parses into its two slugs. */
  lemma ParseAcceptsExample()
    ensures ParseComparePairSlug("lisbon-vs-porto") == Some(ComparePair("lisbon", "porto"))
  {
    assert "lisbon" + PairSeparator + "porto" == "lisbon-vs-porto";
    assert "lisbon" + "-vs" == "lisbon-vs";
    LiteralSepFree("lisbon-vs");
    LiteralSepFree("porto");
    ParseExact("lisbon-vs-porto", "lisbon", "porto");
  }

  /** `a-vs-a`: the two chunks are equal. */
  lemma ParseRejectsSamePair()
    ensures ParseComparePairSlug("a-vs-a").None?
  {
    assert "a" + PairSeparator + "a" == "a-vs-a";
    assert "a" + "-vs" == "a-vs";
    LiteralSepFree("a-vs");
    SelfPairRejected("a");
  }

  /** `-vs-b`: the first chunk is empty. */
  lemma ParseRejectsEmptyChunk()
    ensures ParseComparePairSlug("-vs-b").None?
  {
    assert "" + PairSeparator + "b" == "-vs-b";
    assert "" + "-vs" == "-vs";
    LiteralSepFree("-vs");
    SplitAtJoin("", "b");
  }

  /** `a-vs-b-vs-c`: three chunks. */
  lemma ParseRejectsThreeChunks()
    ensures ParseComparePairSlug("a-vs-b-vs-c").None?
  {
    assert "a" + PairSeparator + "b-vs-c" == "a-vs-b-vs-c";
    assert "b" + PairSeparator + "c" == "b-vs-c";
    assert "a" + "-vs" == "a-vs";
    assert "b" + "-vs" == "b-vs";
    LiteralSepFree("a-vs");
    LiteralSepFree("b-vs");
    SplitAtJoin("a", "b-vs-c");
    SplitAtJoin("b", "c");
    assert Split("c") == ["c"];
  }

  /** A slug without the separator is one chunk. */
  lemma ParseRejectsSingleSlug()
    ensures ParseComparePairSlug("lisbon").None?
  {
    LiteralSepFree("lisbon");
    assert Split("lisbon") == ["lisbon"];
  }

  /**
   Non-empty, different slugs do not suffice: a slug ending in `-vs` moves the
   split, and the pair comes back as two other slugs.
   */
  lemma RoundTripCounterexample()
    ensures BuildComparePairSlug("a-vs", "b") == "a-vs-vs-b"
    ensures ParseComparePairSlug(BuildComparePairSlug("a-vs", "b")) == Some(ComparePair("a", "vs-b"))
  {
    assert "a-vs" + PairSeparator + "b" == "a-vs-vs-b" == "a" + PairSeparator + "vs-b";
    assert "a" + "-vs" == "a-vs";
    LiteralSepFree("a-vs");
    LiteralSepFree("vs-b");
    ParseExact("a-vs-vs-b", "a", "vs-b");
  }

  /**
   Without pair-safe slugs, two different pairs can come from two different
   slugs and still rebuild one slug: `z-vs` with `zz` parses as (`z`, `vs-zz`),
   `vs-zz` with `z` parses as (`vs-zz`, `z`), and building either pair back
   gives `vs-zz-vs-z`.
   */
  lemma CanonicalCollision()
    ensures ParseComparePairSlug(BuildComparePairSlug("z-vs", "zz")) == Some(ComparePair("z", "vs-zz"))
    ensures ParseComparePairSlug(BuildComparePairSlug("vs-zz", "z")) == Some(ComparePair("vs-zz", "z"))
    ensures BuildComparePairSlug("z", "vs-zz") == BuildComparePairSlug("vs-zz", "z")
  {
    CollisionLeft();
    CollisionRight();
    BuildSymmetric("z", "vs-zz");
  }

  /** `z-vs` with `zz` builds `z-vs-vs-zz`, which parses as (`z`, `vs-zz`). */
  lemma CollisionLeft()
    ensures BuildComparePairSlug("z-vs", "zz") == "z-vs-vs-zz"
    ensures ParseComparePairSlug("z-vs-vs-zz") == Some(ComparePair("z", "vs-zz"))
  {
    assert SlugLe("-vs", "z");
    assert "z-vs"[1..] == "-vs" && "zz"[1..] == "z";
    assert SlugLe("z-vs", "zz");
    assert "z-vs" + PairSeparator + "zz" == "z-vs-vs-zz" == "z" + PairSeparator + "vs-zz";
    assert "z" + "-vs" == "z-vs";
    LiteralSepFree("z-vs");
    LiteralSepFree("vs-zz");
    ParseExact("z-vs-vs-zz", "z", "vs-zz");
  }

  /** `vs-zz` with `z` builds `vs-zz-vs-z`, which parses as (`vs-zz`, `z`). */
  lemma CollisionRight()
    ensures BuildComparePairSlug("vs-zz", "z") == "vs-zz-vs-z"
    ensures ParseComparePairSlug("vs-zz-vs-z") == Some(ComparePair("vs-zz", "z"))
  {
    assert SlugLe("vs-zz", "z");
    assert "vs-zz" + PairSeparator + "z" == "vs-zz-vs-z";
    assert "vs-zz" + "-vs" == "vs-zz-vs";
    LiteralSepFree("vs-zz-vs");
    LiteralSepFree("z");
    ParseExact("vs-zz-vs-z", "vs-zz", "z");
  }
}
