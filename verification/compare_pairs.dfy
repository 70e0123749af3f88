/**
 `getComparableCityPairs` (lib/compare-seo.ts, lines 19-50): up to
 `maxPairs` comparison pairs over the cities ranked by overall score, first
 the pairs within one continent, then all pairs, each canonical slug taken
 at most once.

 The two nested loops are two nested recursive functions over an
 accumulator holding the program's `pairs` array and `seen` set. The
 accumulator also records, for each pair, the positions `(i, j)` in the
 ranking that produced it: bookkeeping the program does not keep, which the
 ordering properties are stated with.
 */
module ComparePairs {

  import opened Wrappers
  import opened Seqs
  import opened Types
  import opened CompareCodec
  import Rankings

  /** Two positions `i < j` in the ranking: one iteration of the inner loop. */
  datatype Origin = Origin(i: nat, j: nat)

  /** The loop state: the pairs so far, the slugs seen so far, and where each pair came from. */
  datatype Acc = Acc(pairs: seq<ComparePair>, seen: set<string>, origins: seq<Origin>)

  const Start: Acc := Acc([], {}, [])

  /** The canonical slug a parsed pair spells. */
  function Joined(p: ComparePair): string
  {
    p.citySlugA + PairSeparator + p.citySlugB
  }

  /** `[...cities].sort((a, b) => b.scores.overall - a.scores.overall)`. */
  function Ranking(cities: seq<City>): seq<City>
  {
    Rankings.GetCitiesByOverallScore(cities)
  }

  predicate ValidOrigin(ranked: seq<City>, o: Origin)
  {
    o.i < o.j < |ranked|
  }

  /** The slug `addPair` builds at positions `o`. */
  function BuildAt(ranked: seq<City>, o: Origin): string
    requires ValidOrigin(ranked, o)
  {
    BuildComparePairSlug(ranked[o.i].slug, ranked[o.j].slug)
  }

  predicate SameContinentAt(ranked: seq<City>, o: Origin)
    requires ValidOrigin(ranked, o)
  {
    ranked[o.i].continent == ranked[o.j].continent
  }

  /** Whether a pass calls `addPair` at `o`: the first pass only within a continent. */
  predicate Visits(ranked: seq<City>, sameContinentOnly: bool, o: Origin)
    requires ValidOrigin(ranked, o)
  {
    !sameContinentOnly || SameContinentAt(ranked, o)
  }

  /** Loop order: row by row, and along a row by column. */
  predicate OriginBefore(o1: Origin, o2: Origin)
  {
    o1.i < o2.i || (o1.i == o2.i && o1.j < o2.j)
  }

  /** Every pair has an origin, and every origin is two positions in the ranking. */
  ghost predicate InvShape(ranked: seq<City>, acc: Acc)
  {
    && |acc.origins| == |acc.pairs|
    && (forall k :: 0 <= k < |acc.origins| ==> ValidOrigin(ranked, acc.origins[k]))
  }

  /** Each pair is what parsing the slug built at its origin gave. */
  ghost predicate InvOrigins(ranked: seq<City>, acc: Acc)
  {
    && InvShape(ranked, acc)
    && (forall k :: 0 <= k < |acc.pairs| ==>
          ParseComparePairSlug(BuildAt(ranked, acc.origins[k])) == Some(acc.pairs[k]))
  }

  /** Each pair's slug is seen, and no two pairs share a slug. */
  ghost predicate InvJoined(acc: Acc)
  {
    && (forall k :: 0 <= k < |acc.pairs| ==> Joined(acc.pairs[k]) in acc.seen)
    && (forall k, l :: 0 <= k < l < |acc.pairs| ==> Joined(acc.pairs[k]) != Joined(acc.pairs[l]))
  }

  /** Every seen slug that parses has its pair recorded. */
  ghost predicate InvRecorded(acc: Acc)
  {
    forall s :: s in acc.seen && ParseComparePairSlug(s).Some? ==> ParseComparePairSlug(s).value in acc.pairs
  }

  /** What the loops keep true of their state. */
  ghost predicate Inv(ranked: seq<City>, acc: Acc)
  {
    InvOrigins(ranked, acc) && InvJoined(acc) && InvRecorded(acc)
  }

  /** `r` continues `acc`: the pairs so far are kept, in place, and the seen set only grows. */
  ghost predicate Grows(acc: Acc, r: Acc)
  {
    && |acc.pairs| <= |r.pairs|
    && (forall k :: 0 <= k < |acc.pairs| ==> r.pairs[k] == acc.pairs[k])
    && |acc.origins| <= |r.origins|
    && (forall k :: 0 <= k < |acc.origins| ==> r.origins[k] == acc.origins[k])
    && acc.seen <= r.seen
  }

  /**
   The pairs `r` adds to `acc` come from slugs `acc` had not seen, at
   positions the pass visits, in loop order.
   */
  ghost predicate FreshInOrder(ranked: seq<City>, sameContinentOnly: bool, acc: Acc, r: Acc)
    requires InvShape(ranked, r)
  {
    && (forall k :: |acc.pairs| <= k < |r.pairs| ==>
          Visits(ranked, sameContinentOnly, r.origins[k]) && BuildAt(ranked, r.origins[k]) !in acc.seen)
    && (forall k, l :: |acc.pairs| <= k < l < |r.pairs| ==> OriginBefore(r.origins[k], r.origins[l]))
  }

  /** The `addPair` closure: record the slug, and the parsed pair if it parses. */
  function AddPair(ranked: seq<City>, acc: Acc, o: Origin): (r: Acc)
    requires ValidOrigin(ranked, o)
    requires Inv(ranked, acc)
    ensures Inv(ranked, r)
    ensures Grows(acc, r)
    ensures BuildAt(ranked, o) in r.seen
    ensures |r.pairs| <= |acc.pairs| + 1
    ensures |r.pairs| == |acc.pairs| + 1 ==> r.origins[|acc.pairs|] == o && BuildAt(ranked, o) !in acc.seen
    ensures r == Record(ranked, acc, o)
  {
    var slug := BuildAt(ranked, o);
    if slug in acc.seen then acc
    else
      match ParseComparePairSlug(slug)
      case None =>
        SeeUnparsed(ranked, acc, slug);
        acc.(seen := acc.seen + {slug})
      case Some(p) =>
        SeeParsed(ranked, acc, o, p);
        Acc(acc.pairs + [p], acc.seen + {slug}, acc.origins + [o])
  }

  /** Seeing a slug that does not parse keeps the invariant. */
  lemma SeeUnparsed(ranked: seq<City>, acc: Acc, slug: string)
    requires Inv(ranked, acc) && ParseComparePairSlug(slug).None?
    ensures Inv(ranked, acc.(seen := acc.seen + {slug}))
  {
  }

  /** Seeing a new slug that parses, and recording its pair, keeps the invariant. */
  lemma SeeParsed(ranked: seq<City>, acc: Acc, o: Origin, p: ComparePair)
    requires Inv(ranked, acc) && ValidOrigin(ranked, o)
    requires BuildAt(ranked, o) !in acc.seen && ParseComparePairSlug(BuildAt(ranked, o)) == Some(p)
    ensures Inv(ranked, Acc(acc.pairs + [p], acc.seen + {BuildAt(ranked, o)}, acc.origins + [o]))
  {
    var slug := BuildAt(ranked, o);
    assert Joined(p) == slug;
    SeeParsedOrigins(ranked, acc, o, p);
    SeeParsedJoined(acc, o, p);
    SeeParsedRecorded(acc, slug, o, p);
  }

  lemma SeeParsedOrigins(ranked: seq<City>, acc: Acc, o: Origin, p: ComparePair)
    requires InvOrigins(ranked, acc) && ValidOrigin(ranked, o)
    requires ParseComparePairSlug(BuildAt(ranked, o)) == Some(p)
    ensures InvOrigins(ranked, Acc(acc.pairs + [p], acc.seen + {BuildAt(ranked, o)}, acc.origins + [o]))
  {
    var r := Acc(acc.pairs + [p], acc.seen + {BuildAt(ranked, o)}, acc.origins + [o]);
    forall k | 0 <= k < |r.pairs|
      ensures ValidOrigin(ranked, r.origins[k])
      ensures ParseComparePairSlug(BuildAt(ranked, r.origins[k])) == Some(r.pairs[k])
    {
      if k < |acc.pairs| {
        assert r.pairs[k] == acc.pairs[k] && r.origins[k] == acc.origins[k];
      }
    }
  }

  lemma SeeParsedJoined(acc: Acc, o: Origin, p: ComparePair)
    requires InvJoined(acc) && Joined(p) !in acc.seen
    ensures InvJoined(Acc(acc.pairs + [p], acc.seen + {Joined(p)}, acc.origins + [o]))
  {
    var r := Acc(acc.pairs + [p], acc.seen + {Joined(p)}, acc.origins + [o]);
    var n := |acc.pairs|;
    forall k, l | 0 <= k < l < |r.pairs|
      ensures Joined(r.pairs[k]) != Joined(r.pairs[l])
    {
      assert r.pairs[k] == acc.pairs[k];
      if l == n {
        assert Joined(acc.pairs[k]) in acc.seen;
      } else {
        assert r.pairs[l] == acc.pairs[l];
      }
    }
    forall k | 0 <= k < |r.pairs|
      ensures Joined(r.pairs[k]) in r.seen
    {
      if k < n {
        assert r.pairs[k] == acc.pairs[k];
      }
    }
  }

  lemma SeeParsedRecorded(acc: Acc, slug: string, o: Origin, p: ComparePair)
    requires InvRecorded(acc) && ParseComparePairSlug(slug) == Some(p)
    ensures InvRecorded(Acc(acc.pairs + [p], acc.seen + {slug}, acc.origins + [o]))
  {
    var r := Acc(acc.pairs + [p], acc.seen + {slug}, acc.origins + [o]);
    forall t | t in r.seen && ParseComparePairSlug(t).Some?
      ensures ParseComparePairSlug(t).value in r.pairs
    {
      if t != slug {
        assert ParseComparePairSlug(t).value in acc.pairs;
      }
    }
  }

  lemma GrowsRefl(a: Acc)
    ensures Grows(a, a)
  {
  }

  lemma GrowsTrans(a: Acc, b: Acc, c: Acc)
    requires Grows(a, b) && Grows(b, c)
    ensures Grows(a, c)
  {
  }

  /** `addPair` without its invariant: what `AddPair` computes. */
  function Record(ranked: seq<City>, acc: Acc, o: Origin): Acc
    requires ValidOrigin(ranked, o)
  {
    var slug := BuildAt(ranked, o);
    if slug in acc.seen then acc
    else
      match ParseComparePairSlug(slug)
      case None => acc.(seen := acc.seen + {slug})
      case Some(p) => Acc(acc.pairs + [p], acc.seen + {slug}, acc.origins + [o])
  }

  /** One iteration of the inner loop: `addPair` when the pass visits `o`. */
  function Visit(ranked: seq<City>, sameContinentOnly: bool, acc: Acc, o: Origin): Acc
    requires ValidOrigin(ranked, o)
  {
    if Visits(ranked, sameContinentOnly, o) then Record(ranked, acc, o) else acc
  }

  /** The inner loop without its invariant: what `InnerPass` computes. */
  function InnerRun(ranked: seq<City>, sameContinentOnly: bool, maxPairs: int, i: nat, j: nat, acc: Acc): Acc
    requires i < j && i < |ranked|
    decreases |ranked| - j
  {
    if j >= |ranked| || |acc.pairs| >= maxPairs then acc
    else InnerRun(ranked, sameContinentOnly, maxPairs, i, j + 1, Visit(ranked, sameContinentOnly, acc, Origin(i, j)))
  }

  /**
   The inner loop of one pass, at row `i` from column `j`, while the budget
   lasts. When it ends under budget, every slug the row visits is seen.
   */
  function InnerPass(ranked: seq<City>, sameContinentOnly: bool, maxPairs: int, i: nat, j: nat, acc: Acc): (r: Acc)
    requires i < j && i < |ranked|
    requires Inv(ranked, acc)
    ensures Inv(ranked, r)
    ensures Grows(acc, r)
    ensures |acc.pairs| <= maxPairs ==> |r.pairs| <= maxPairs
    ensures FreshInOrder(ranked, sameContinentOnly, acc, r)
    ensures forall k :: |acc.pairs| <= k < |r.pairs| ==> r.origins[k].i == i && j <= r.origins[k].j
    ensures |r.pairs| < maxPairs ==> RowCovered(ranked, sameContinentOnly, i, j, r.seen)
    ensures r == InnerRun(ranked, sameContinentOnly, maxPairs, i, j, acc)
    decreases |ranked| - j
  {
    if j >= |ranked| || |acc.pairs| >= maxPairs then acc
    else
      var o := Origin(i, j);
      var next := if Visits(ranked, sameContinentOnly, o) then AddPair(ranked, acc, o) else acc;
      var r := InnerPass(ranked, sameContinentOnly, maxPairs, i, j + 1, next);
      GrowsTrans(acc, next, r);
      InnerFresh(ranked, sameContinentOnly, i, j, acc, next, r);
      InnerCover(ranked, sameContinentOnly, maxPairs, i, j, next, r);
      r
  }

  /** Every slug row `i` visits from column `j` on is in `seen`. */
  ghost predicate RowCovered(ranked: seq<City>, sameContinentOnly: bool, i: nat, j: nat, seen: set<string>)
  {
    forall o :: ValidOrigin(ranked, o) && o.i == i && j <= o.j && Visits(ranked, sameContinentOnly, o) ==>
      BuildAt(ranked, o) in seen
  }

  /** Every slug rows `i` on visit is in `seen`. */
  ghost predicate RowsCovered(ranked: seq<City>, sameContinentOnly: bool, i: nat, seen: set<string>)
  {
    forall o :: ValidOrigin(ranked, o) && i <= o.i && Visits(ranked, sameContinentOnly, o) ==>
      BuildAt(ranked, o) in seen
  }

  /** One step of the inner loop adds at most the pair at `(i, j)`, ahead of the rest of the row. */
  lemma InnerFresh(ranked: seq<City>, sameContinentOnly: bool, i: nat, j: nat, acc: Acc, next: Acc, r: Acc)
    requires i < j < |ranked|
    requires |acc.origins| == |acc.pairs| && InvShape(ranked, next) && InvShape(ranked, r)
    requires Grows(acc, next) && Grows(next, r)
    requires |next.pairs| <= |acc.pairs| + 1
    requires |next.pairs| == |acc.pairs| + 1 ==>
               next.origins[|acc.pairs|] == Origin(i, j) && Visits(ranked, sameContinentOnly, Origin(i, j))
               && BuildAt(ranked, Origin(i, j)) !in acc.seen
    requires FreshInOrder(ranked, sameContinentOnly, next, r)
    requires forall k :: |next.pairs| <= k < |r.pairs| ==> r.origins[k].i == i && j + 1 <= r.origins[k].j
    ensures FreshInOrder(ranked, sameContinentOnly, acc, r)
    ensures forall k :: |acc.pairs| <= k < |r.pairs| ==> r.origins[k].i == i && j <= r.origins[k].j
  {
    var n := |acc.pairs|;
    if |next.pairs| == n + 1 {
      assert r.origins[n] == next.origins[n] == Origin(i, j);
      forall k | n <= k < |r.pairs|
        ensures Visits(ranked, sameContinentOnly, r.origins[k]) && BuildAt(ranked, r.origins[k]) !in acc.seen
      {
        if k > n {
          assert BuildAt(ranked, r.origins[k]) !in next.seen;
        }
      }
      forall k, l | n <= k < l < |r.pairs|
        ensures OriginBefore(r.origins[k], r.origins[l])
      {
        if k == n {
          assert r.origins[l].i == i && j + 1 <= r.origins[l].j;
        }
      }
    } else {
      assert |next.pairs| == n;
      forall k | n <= k < |r.pairs|
        ensures BuildAt(ranked, r.origins[k]) !in acc.seen
      {
        assert BuildAt(ranked, r.origins[k]) !in next.seen;
      }
    }
  }

  /** A row is covered from `j` once `(i, j)` is seen and the row is covered from `j + 1`. */
  lemma InnerCover(ranked: seq<City>, sameContinentOnly: bool, maxPairs: int, i: nat, j: nat, next: Acc, r: Acc)
    requires i < j < |ranked|
    requires Visits(ranked, sameContinentOnly, Origin(i, j)) ==> BuildAt(ranked, Origin(i, j)) in next.seen
    requires next.seen <= r.seen
    requires |r.pairs| < maxPairs ==> RowCovered(ranked, sameContinentOnly, i, j + 1, r.seen)
    ensures |r.pairs| < maxPairs ==> RowCovered(ranked, sameContinentOnly, i, j, r.seen)
  {
  }

  /** The outer loop of one pass, from row `i`. */
  function OuterPass(ranked: seq<City>, sameContinentOnly: bool, maxPairs: int, i: nat, acc: Acc): (r: Acc)
    requires Inv(ranked, acc)
    ensures Inv(ranked, r)
    ensures Grows(acc, r)
    ensures |acc.pairs| <= maxPairs ==> |r.pairs| <= maxPairs
    ensures FreshInOrder(ranked, sameContinentOnly, acc, r)
    ensures forall k :: |acc.pairs| <= k < |r.pairs| ==> i <= r.origins[k].i
    ensures |r.pairs| < maxPairs ==> RowsCovered(ranked, sameContinentOnly, i, r.seen)
    decreases |ranked| - i
  {
    if i >= |ranked| || |acc.pairs| >= maxPairs then acc
    else
      var row := InnerPass(ranked, sameContinentOnly, maxPairs, i, i + 1, acc);
      var r := OuterPass(ranked, sameContinentOnly, maxPairs, i + 1, row);
      GrowsTrans(acc, row, r);
      OuterFresh(ranked, sameContinentOnly, i, acc, row, r);
      OuterCover(ranked, sameContinentOnly, maxPairs, i, row, r);
      r
  }

  /** A row's pairs come before the later rows' pairs. */
  lemma OuterFresh(ranked: seq<City>, sameContinentOnly: bool, i: nat, acc: Acc, row: Acc, r: Acc)
    requires |acc.origins| == |acc.pairs| && InvShape(ranked, row) && InvShape(ranked, r)
    requires Grows(acc, row) && Grows(row, r)
    requires FreshInOrder(ranked, sameContinentOnly, acc, row)
    requires forall k :: |acc.pairs| <= k < |row.pairs| ==> row.origins[k].i == i
    requires FreshInOrder(ranked, sameContinentOnly, row, r)
    requires forall k :: |row.pairs| <= k < |r.pairs| ==> i + 1 <= r.origins[k].i
    ensures FreshInOrder(ranked, sameContinentOnly, acc, r)
    ensures forall k :: |acc.pairs| <= k < |r.pairs| ==> i <= r.origins[k].i
  {
    forall k | |acc.pairs| <= k < |row.pairs|
      ensures r.origins[k] == row.origins[k]
    {
    }
  }

  /** Rows from `i` are covered once row `i` and the rows after it are. */
  lemma OuterCover(ranked: seq<City>, sameContinentOnly: bool, maxPairs: int, i: nat, row: Acc, r: Acc)
    requires |row.pairs| <= |r.pairs| && row.seen <= r.seen
    requires |row.pairs| < maxPairs ==> RowCovered(ranked, sameContinentOnly, i, i + 1, row.seen)
    requires |r.pairs| < maxPairs ==> RowsCovered(ranked, sameContinentOnly, i + 1, r.seen)
    ensures |r.pairs| < maxPairs ==> RowsCovered(ranked, sameContinentOnly, i, r.seen)
  {
  }

  /** The first pass: pairs within one continent, from an empty state. */
  function FirstPass(cities: seq<City>, maxPairs: int): (t: Acc)
    ensures Inv(Ranking(cities), t)
  {
    if |cities| < 2 || maxPairs <= 0 then Start
    else OuterPass(Ranking(cities), true, maxPairs, 0, Start)
  }

  /**
   Both passes, with the origin of every pair: the pairs of the first pass,
   each within one continent and in loop order, then the pairs of the second,
   each across two continents and in loop order.
   */
  function ComparablePairsTrace(cities: seq<City>, maxPairs: int): (t: Acc)
    ensures Inv(Ranking(cities), t)
    ensures |cities| < 2 || maxPairs <= 0 ==> t.pairs == []
    ensures |t.pairs| <= maxPairs || t.pairs == []
    ensures Grows(FirstPass(cities, maxPairs), t)
    ensures forall k :: 0 <= k < |FirstPass(cities, maxPairs).pairs| ==>
              SameContinentAt(Ranking(cities), t.origins[k])
    ensures forall k :: |FirstPass(cities, maxPairs).pairs| <= k < |t.pairs| ==>
              !SameContinentAt(Ranking(cities), t.origins[k])
    ensures forall k, l :: 0 <= k < l < |FirstPass(cities, maxPairs).pairs| ==>
              OriginBefore(t.origins[k], t.origins[l])
    ensures forall k, l :: |FirstPass(cities, maxPairs).pairs| <= k < l < |t.pairs| ==>
              OriginBefore(t.origins[k], t.origins[l])
    ensures |t.pairs| < maxPairs ==> RowsCovered(Ranking(cities), false, 0, t.seen)
  {
    if |cities| < 2 || maxPairs <= 0 then Start
    else
      var ranked := Ranking(cities);
      var first := FirstPass(cities, maxPairs);
      var t := OuterPass(ranked, false, maxPairs, 0, first);
      SecondPassCrossesContinents(ranked, maxPairs, first, t);
      t
  }

  /**
   Whatever the second pass adds, it adds only after the first pass ended
   under budget, so every same-continent slug was already seen.
   */
  lemma SecondPassCrossesContinents(ranked: seq<City>, maxPairs: int, first: Acc, t: Acc)
    requires first == OuterPass(ranked, true, maxPairs, 0, Start)
    requires Inv(ranked, t) && Grows(first, t) && |t.pairs| <= maxPairs
    requires FreshInOrder(ranked, false, first, t)
    ensures forall k :: 0 <= k < |first.pairs| ==> SameContinentAt(ranked, t.origins[k])
    ensures forall k :: |first.pairs| <= k < |t.pairs| ==> !SameContinentAt(ranked, t.origins[k])
    ensures forall k, l :: 0 <= k < l < |first.pairs| ==> OriginBefore(t.origins[k], t.origins[l])
  {
    forall k | 0 <= k < |first.pairs|
      ensures t.origins[k] == first.origins[k]
    {
    }
    if |first.pairs| < |t.pairs| {
      assert RowsCovered(ranked, true, 0, first.seen);
    }
  }

  /** A city of the ranking is a city of the input. */
  lemma RankedIsInput(cities: seq<City>, k: int)
    requires 0 <= k < |Ranking(cities)|
    ensures Ranking(cities)[k] in cities
  {
    var ranked := Ranking(cities);
    assert ranked[k] in multiset(ranked);
  }

  /** Two cities of the input whose slugs build a slug that parses into `p`. */
  ghost predicate FromCities(cities: seq<City>, p: ComparePair)
  {
    exists x, y :: x in cities && y in cities && ParseComparePairSlug(BuildComparePairSlug(x.slug, y.slug)) == Some(p)
  }

  /**
   `getComparableCityPairs`: none for fewer than two cities or no budget;
   otherwise at most `maxPairs` pairs, no two equal and no two parsed from the
   same slug, each two different non-empty slugs parsed from the slug of two
   input cities.
   */
  function GetComparableCityPairs(cities: seq<City>, maxPairs: int): (r: seq<ComparePair>)
    ensures |cities| < 2 || maxPairs <= 0 ==> r == []
    ensures |r| <= maxPairs || r == []
    ensures forall k, l :: 0 <= k < l < |r| ==> Joined(r[k]) != Joined(r[l]) && r[k] != r[l]
    ensures forall k :: 0 <= k < |r| ==>
              r[k].citySlugA != "" && r[k].citySlugB != "" && r[k].citySlugA != r[k].citySlugB
    ensures forall k :: 0 <= k < |r| ==> FromCities(cities, r[k])
  {
    var t := ComparablePairsTrace(cities, maxPairs);
    var ranked := Ranking(cities);
    forall k | 0 <= k < |t.pairs|
      ensures FromCities(cities, t.pairs[k])
    {
      var o := t.origins[k];
      RankedIsInput(cities, o.i);
      RankedIsInput(cities, o.j);
      assert ParseComparePairSlug(BuildComparePairSlug(ranked[o.i].slug, ranked[o.j].slug)) == Some(t.pairs[k]);
    }
    t.pairs
  }

  /** Every slug in the catalogue pairs cleanly. */
  ghost predicate AllPairSafe(cities: seq<City>)
  {
    forall c :: c in cities ==> PairSafe(c.slug)
  }

  /** The position of a city of the input in the ranking. */
  lemma InputIsRanked(cities: seq<City>, x: City) returns (a: nat)
    requires x in cities
    ensures a < |Ranking(cities)| && Ranking(cities)[a] == x
  {
    var ranked := Ranking(cities);
    assert x in multiset(cities);
    assert x in ranked;
    a :| 0 <= a < |ranked| && ranked[a] == x;
  }

  /**
   With pair-safe slugs every entry is two different input slugs in slug
   order: so two cities sharing a slug never form a pair.
   */
  lemma PairSafeEntries(cities: seq<City>, maxPairs: int)
    requires AllPairSafe(cities)
    ensures forall p :: p in GetComparableCityPairs(cities, maxPairs) ==>
              && SlugLe(p.citySlugA, p.citySlugB)
              && (exists x, y :: x in cities && y in cities && x.slug == p.citySlugA && y.slug == p.citySlugB)
  {
    var r := GetComparableCityPairs(cities, maxPairs);
    forall p | p in r
      ensures SlugLe(p.citySlugA, p.citySlugB)
      ensures exists x, y :: x in cities && y in cities && x.slug == p.citySlugA && y.slug == p.citySlugB
    {
      var k :| 0 <= k < |r| && r[k] == p;
      assert FromCities(cities, r[k]);
      SafeEntry(cities, p);
    }
  }

  /**
   With pair-safe slugs no two entries rebuild the same comparison slug: each
   entry is in slug order, so rebuilding it gives back the slug it was parsed from.
   */
  lemma CanonicalSlugsDistinct(cities: seq<City>, maxPairs: int)
    requires AllPairSafe(cities)
    ensures var r := GetComparableCityPairs(cities, maxPairs);
            forall k, l :: 0 <= k < l < |r| ==>
              BuildComparePairSlug(r[k].citySlugA, r[k].citySlugB) != BuildComparePairSlug(r[l].citySlugA, r[l].citySlugB)
  {
    var r := GetComparableCityPairs(cities, maxPairs);
    PairSafeEntries(cities, maxPairs);
    forall k | 0 <= k < |r|
      ensures BuildComparePairSlug(r[k].citySlugA, r[k].citySlugB) == Joined(r[k])
    {
      assert r[k] in r;
    }
  }

  /**
   Without pair-safe slugs the canonical slug is not unique: a catalogue with
   the slugs `z-vs`, `zz`, `vs-zz` and `z`, given the budget for every pair,
   yields both (`z`, `vs-zz`) and (`vs-zz`, `z`), which rebuild one slug.
   */
  lemma CollidingEntries(cities: seq<City>, maxPairs: int, x: City, y: City, u: City, v: City)
    requires x in cities && y in cities && u in cities && v in cities
    requires x.slug == "z-vs" && y.slug == "zz" && u.slug == "vs-zz" && v.slug == "z"
    requires 2 * maxPairs >= |cities| * (|cities| - 1)
    ensures ComparePair("z", "vs-zz") in GetComparableCityPairs(cities, maxPairs)
    ensures ComparePair("vs-zz", "z") in GetComparableCityPairs(cities, maxPairs)
    ensures BuildComparePairSlug("z", "vs-zz") == BuildComparePairSlug("vs-zz", "z")
  {
    CanonicalCollision();
    CoveredWithinBudget(cities, maxPairs, x, y);
    CoveredWithinBudget(cities, maxPairs, u, v);
  }

  /** A pair parsed from two pair-safe input slugs holds those slugs, in slug order. */
  lemma SafeEntry(cities: seq<City>, p: ComparePair)
    requires AllPairSafe(cities) && FromCities(cities, p)
    ensures SlugLe(p.citySlugA, p.citySlugB)
    ensures exists x, y :: x in cities && y in cities && x.slug == p.citySlugA && y.slug == p.citySlugB
  {
    var x, y :| x in cities && y in cities && ParseComparePairSlug(BuildComparePairSlug(x.slug, y.slug)) == Some(p);
    SafeParseOrders(x.slug, y.slug, p);
    if x.slug == p.citySlugA {
      assert x in cities && y in cities && x.slug == p.citySlugA && y.slug == p.citySlugB;
    } else {
      assert y in cities && x in cities && y.slug == p.citySlugA && x.slug == p.citySlugB;
    }
  }

  /** A pair built from two pair-safe slugs parses back to those two slugs, in slug order. */
  lemma SafeParseOrders(a: string, b: string, p: ComparePair)
    requires PairSafe(a) && PairSafe(b)
    requires ParseComparePairSlug(BuildComparePairSlug(a, b)) == Some(p)
    ensures SlugLe(p.citySlugA, p.citySlugB)
    ensures (p.citySlugA == a && p.citySlugB == b) || (p.citySlugA == b && p.citySlugB == a)
  {
    if a == b {
      SelfPairRejected(a);
      assert false;
    }
    RoundTripSafe(a, b);
  }

  /**
   Under budget nothing is missed: for any two input cities with different
   slugs whose slug parses, the parsed pair is in the result.
   */
  lemma CoveredUnderBudget(cities: seq<City>, maxPairs: int, x: City, y: City)
    requires x in cities && y in cities && x.slug != y.slug
    requires |GetComparableCityPairs(cities, maxPairs)| < maxPairs
    requires ParseComparePairSlug(BuildComparePairSlug(x.slug, y.slug)).Some?
    ensures ParseComparePairSlug(BuildComparePairSlug(x.slug, y.slug)).value in GetComparableCityPairs(cities, maxPairs)
  {
    var o := OriginOf(cities, x, y);
    RecordedUnderBudget(cities, maxPairs, o);
  }

  /** Two input cities with different slugs sit at two ranking positions that build their slug. */
  lemma OriginOf(cities: seq<City>, x: City, y: City) returns (o: Origin)
    requires x in cities && y in cities && x.slug != y.slug
    ensures ValidOrigin(Ranking(cities), o)
    ensures BuildAt(Ranking(cities), o) == BuildComparePairSlug(x.slug, y.slug)
  {
    var ranked := Ranking(cities);
    var a := InputIsRanked(cities, x);
    var b := InputIsRanked(cities, y);
    BuildSymmetric(x.slug, y.slug);
    o := if a < b then Origin(a, b) else Origin(b, a);
  }

  /** Under budget, the pair of every two ranking positions whose slug parses is in the result. */
  lemma RecordedUnderBudget(cities: seq<City>, maxPairs: int, o: Origin)
    requires ValidOrigin(Ranking(cities), o)
    requires |GetComparableCityPairs(cities, maxPairs)| < maxPairs
    requires ParseComparePairSlug(BuildAt(Ranking(cities), o)).Some?
    ensures ParseComparePairSlug(BuildAt(Ranking(cities), o)).value in GetComparableCityPairs(cities, maxPairs)
  {
    var t := TraceUnderBudget(cities, maxPairs);
    assert BuildAt(Ranking(cities), o) in t.seen;
  }

  /** The loop state behind a result under budget has seen the slug of every position pair. */
  lemma TraceUnderBudget(cities: seq<City>, maxPairs: int) returns (t: Acc)
    requires |GetComparableCityPairs(cities, maxPairs)| < maxPairs
    ensures InvRecorded(t) && RowsCovered(Ranking(cities), false, 0, t.seen)
    ensures t.pairs == GetComparableCityPairs(cities, maxPairs)
  {
    t := ComparablePairsTrace(cities, maxPairs);
    assert GetComparableCityPairs(cities, maxPairs) == t.pairs;
  }

  /** With pair-safe slugs, under budget every two cities with different slugs appear, in slug order. */
  lemma CoveredUnderBudgetSafe(cities: seq<City>, maxPairs: int, x: City, y: City)
    requires AllPairSafe(cities)
    requires x in cities && y in cities && x.slug != y.slug
    requires |GetComparableCityPairs(cities, maxPairs)| < maxPairs
    ensures Canonical(x.slug, y.slug) in GetComparableCityPairs(cities, maxPairs)
  {
    RoundTripSafe(x.slug, y.slug);
    CoveredUnderBudget(cities, maxPairs, x, y);
  }

  /** Two input cities with these slugs, on one continent. */
  ghost predicate SameContinentPair(cities: seq<City>, p: ComparePair)
  {
    exists x, y :: x in cities && y in cities && x.slug == p.citySlugA && y.slug == p.citySlugB
                   && x.continent == y.continent
  }

  /** In a ranking with unique slugs, the slug fixes the position. */
  lemma SlugFixesPosition(ranked: seq<City>, a: int, b: int)
    requires DistinctBy(ranked, SlugOf)
    requires 0 <= a < |ranked| && 0 <= b < |ranked|
    ensures ranked[a].slug == ranked[b].slug ==> a == b
  {
    if a < b {
      assert SlugOf(ranked[a]) != SlugOf(ranked[b]);
    } else if b < a {
      assert SlugOf(ranked[b]) != SlugOf(ranked[a]);
    }
  }

  /** The first `split` entries are same-continent pairs and the rest are not. */
  ghost predicate SplitsAt(cities: seq<City>, r: seq<ComparePair>, split: int)
  {
    && 0 <= split <= |r|
    && (forall k :: 0 <= k < split ==> SameContinentPair(cities, r[k]))
    && (forall k :: split <= k < |r| ==> !SameContinentPair(cities, r[k]))
  }

  /**
   With unique, pair-safe slugs, every same-continent pair in the result
   precedes every cross-continent pair.
   */
  lemma SameContinentFirst(cities: seq<City>, maxPairs: int)
    requires AllPairSafe(cities) && DistinctBy(cities, SlugOf)
    ensures exists split :: SplitsAt(cities, GetComparableCityPairs(cities, maxPairs), split)
  {
    var r := GetComparableCityPairs(cities, maxPairs);
    var t := ComparablePairsTrace(cities, maxPairs);
    var ranked := Ranking(cities);
    var split := |FirstPass(cities, maxPairs).pairs|;
    DistinctByShrink(cities, ranked, SlugOf);
    forall k | 0 <= k < |r|
      ensures SameContinentPair(cities, r[k]) <==> SameContinentAt(ranked, t.origins[k])
    {
      EntryContinents(cities, ranked, t.origins[k], r[k]);
    }
    assert SplitsAt(cities, r, split);
  }

  /** With unique, pair-safe slugs, an entry is a same-continent pair exactly when its origin is. */
  lemma EntryContinents(cities: seq<City>, ranked: seq<City>, o: Origin, p: ComparePair)
    requires ranked == Ranking(cities)
    requires AllPairSafe(cities) && DistinctBy(ranked, SlugOf)
    requires ValidOrigin(ranked, o) && ParseComparePairSlug(BuildAt(ranked, o)) == Some(p)
    ensures SameContinentPair(cities, p) <==> SameContinentAt(ranked, o)
  {
    var u, v := ranked[o.i], ranked[o.j];
    RankedIsInput(cities, o.i);
    RankedIsInput(cities, o.j);
    SlugFixesPosition(ranked, o.i, o.j);
    RoundTripSafe(u.slug, v.slug);
    assert p == Canonical(u.slug, v.slug);
    if SameContinentAt(ranked, o) {
      if SlugLe(u.slug, v.slug) {
        assert u.slug == p.citySlugA && v.slug == p.citySlugB;
      } else {
        assert v.slug == p.citySlugA && u.slug == p.citySlugB;
      }
    }
    if SameContinentPair(cities, p) {
      var x, y :| x in cities && y in cities && x.slug == p.citySlugA && y.slug == p.citySlugB
                  && x.continent == y.continent;
      var a := InputIsRanked(cities, x);
      var b := InputIsRanked(cities, y);
      if SlugLe(u.slug, v.slug) {
        SlugFixesPosition(ranked, a, o.i);
        SlugFixesPosition(ranked, b, o.j);
      } else {
        SlugFixesPosition(ranked, a, o.j);
        SlugFixesPosition(ranked, b, o.i);
      }
    }
  }

  /** Every position pair `i < j` below `n`, row by row. */
  function AllOrigins(n: nat): set<Origin>
  {
    if n == 0 then {} else AllOrigins(n - 1) + Column(n - 1, n - 1)
  }

  /** The position pairs `(i, j)` with `i < m`. */
  function Column(m: nat, j: nat): set<Origin>
  {
    if m == 0 then {} else Column(m - 1, j) + {Origin(m - 1, j)}
  }

  lemma {:induction false} ColumnMembers(m: nat, j: nat, o: Origin)
    ensures o in Column(m, j) <==> o.i < m && o.j == j
  {
    if m > 0 {
      ColumnMembers(m - 1, j, o);
    }
  }

  lemma {:induction false} AllOriginsMembers(n: nat, o: Origin)
    ensures o in AllOrigins(n) <==> o.i < o.j < n
  {
    if n > 0 {
      AllOriginsMembers(n - 1, o);
      ColumnMembers(n - 1, n - 1, o);
    }
  }

  lemma {:induction false} ColumnSize(m: nat, j: nat)
    ensures |Column(m, j)| <= m
  {
    if m > 0 {
      ColumnSize(m - 1, j);
    }
  }

  /** `n(n-1)/2`, the number of position pairs below `n`, counted row by row. */
  function PairCount(n: nat): nat
  {
    if n == 0 then 0 else PairCount(n - 1) + (n - 1)
  }

  lemma {:induction false} PairCountClosed(n: nat)
    ensures 2 * PairCount(n) == n * (n - 1)
  {
    if n > 0 {
      PairCountClosed(n - 1);
      assert n * (n - 1) == (n - 1) * (n - 2) + 2 * (n - 1);
    }
  }

  /** There are at most `n(n-1)/2` position pairs below `n`. */
  lemma {:induction false} AllOriginsSize(n: nat)
    ensures |AllOrigins(n)| <= PairCount(n)
  {
    if n > 0 {
      AllOriginsSize(n - 1);
      ColumnSize(n - 1, n - 1);
      var a, c := AllOrigins(n - 1), Column(n - 1, n - 1);
      assert |a + c| + |a * c| == |a| + |c|;
    }
  }

  /** A subset at least as large as its superset is the whole superset. */
  lemma SubsetFull<T>(a: set<T>, b: set<T>)
    requires a <= b && |a| >= |b|
    ensures a == b
  {
    assert b == a + (b - a);
    assert |b| == |a| + |b - a|;
  }

  /** The origins of a sequence, as a set. */
  function OriginSet(s: seq<Origin>): set<Origin>
  {
    if |s| == 0 then {} else OriginSet(s[..|s| - 1]) + {s[|s| - 1]}
  }

  lemma {:induction false} OriginSetMembers(s: seq<Origin>, o: Origin)
    ensures o in OriginSet(s) <==> o in s
  {
    if |s| > 0 {
      OriginSetMembers(s[..|s| - 1], o);
      assert s == s[..|s| - 1] + [s[|s| - 1]];
    }
  }

  /** Different origins make a set of as many elements. */
  lemma {:induction false} OriginSetSize(s: seq<Origin>)
    requires forall k, l :: 0 <= k < l < |s| ==> s[k] != s[l]
    ensures |OriginSet(s)| == |s|
  {
    if |s| > 0 {
      var t := s[..|s| - 1];
      OriginSetSize(t);
      OriginSetMembers(t, s[|s| - 1]);
    }
  }

  /** No two pairs of a loop state come from the same two positions. */
  lemma OriginsDistinct(ranked: seq<City>, acc: Acc)
    requires InvOrigins(ranked, acc)
    requires forall k, l :: 0 <= k < l < |acc.pairs| ==> Joined(acc.pairs[k]) != Joined(acc.pairs[l])
    ensures forall k, l :: 0 <= k < l < |acc.origins| ==> acc.origins[k] != acc.origins[l]
  {
    forall k, l | 0 <= k < l < |acc.origins|
      ensures acc.origins[k] != acc.origins[l]
    {
      assert Joined(acc.pairs[k]) == BuildAt(ranked, acc.origins[k]);
      assert Joined(acc.pairs[l]) == BuildAt(ranked, acc.origins[l]);
    }
  }

  /** The origins of a loop state are position pairs below the ranking's length. */
  lemma OriginsBounded(ranked: seq<City>, acc: Acc)
    requires InvShape(ranked, acc)
    ensures OriginSet(acc.origins) <= AllOrigins(|ranked|)
  {
    forall o | o in OriginSet(acc.origins)
      ensures o in AllOrigins(|ranked|)
    {
      OriginSetMembers(acc.origins, o);
      AllOriginsMembers(|ranked|, o);
    }
  }

  /** A loop state has as many different origins as pairs, all below the ranking's length. */
  lemma UsedOriginsSize(ranked: seq<City>, acc: Acc)
    requires Inv(ranked, acc)
    ensures |OriginSet(acc.origins)| == |acc.pairs|
    ensures OriginSet(acc.origins) <= AllOrigins(|ranked|)
  {
    OriginsBounded(ranked, acc);
    OriginsDistinct(ranked, acc);
    OriginSetSize(acc.origins);
  }

  /** A loop state holding `n(n-1)/2` pairs has visited every position pair. */
  lemma FullStateVisitsAll(ranked: seq<City>, acc: Acc, o: Origin)
    requires |OriginSet(acc.origins)| == |acc.pairs| && OriginSet(acc.origins) <= AllOrigins(|ranked|)
    requires |acc.pairs| >= PairCount(|ranked|)
    requires ValidOrigin(ranked, o)
    ensures o in acc.origins
  {
    AllOriginsSize(|ranked|);
    SubsetFull(OriginSet(acc.origins), AllOrigins(|ranked|));
    AllOriginsMembers(|ranked|, o);
    OriginSetMembers(acc.origins, o);
  }

  /**
   A budget of at least `n(n-1)/2` for `n` cities leaves nothing out: for any
   two input cities with different slugs whose slug parses, the parsed pair
   is in the result (once, since no two entries share a slug).
   */
  lemma CoveredWithinBudget(cities: seq<City>, maxPairs: int, x: City, y: City)
    requires 2 * maxPairs >= |cities| * (|cities| - 1)
    requires x in cities && y in cities && x.slug != y.slug
    requires ParseComparePairSlug(BuildComparePairSlug(x.slug, y.slug)).Some?
    ensures ParseComparePairSlug(BuildComparePairSlug(x.slug, y.slug)).value in GetComparableCityPairs(cities, maxPairs)
  {
    var o := OriginOf(cities, x, y);
    RecordedWithinBudget(cities, maxPairs, o);
  }

  /** With that budget, the pair of every two ranking positions whose slug parses is in the result. */
  lemma RecordedWithinBudget(cities: seq<City>, maxPairs: int, o: Origin)
    requires 2 * maxPairs >= |cities| * (|cities| - 1)
    requires ValidOrigin(Ranking(cities), o)
    requires ParseComparePairSlug(BuildAt(Ranking(cities), o)).Some?
    ensures ParseComparePairSlug(BuildAt(Ranking(cities), o)).value in GetComparableCityPairs(cities, maxPairs)
  {
    if |GetComparableCityPairs(cities, maxPairs)| < maxPairs {
      RecordedUnderBudget(cities, maxPairs, o);
    } else {
      RecordedAtBudget(cities, maxPairs, o);
    }
  }

  /** A result that used up the budget holds every position pair, when the budget is large enough. */
  lemma RecordedAtBudget(cities: seq<City>, maxPairs: int, o: Origin)
    requires 2 * maxPairs >= |cities| * (|cities| - 1)
    requires |GetComparableCityPairs(cities, maxPairs)| >= maxPairs
    requires ValidOrigin(Ranking(cities), o)
    requires ParseComparePairSlug(BuildAt(Ranking(cities), o)).Some?
    ensures ParseComparePairSlug(BuildAt(Ranking(cities), o)).value in GetComparableCityPairs(cities, maxPairs)
  {
    var t := TraceAtBudget(cities, maxPairs);
    FullStateCovers(Ranking(cities), t, o);
  }

  /** The loop state behind a result that used up a budget of `n(n-1)/2` holds that many pairs. */
  lemma TraceAtBudget(cities: seq<City>, maxPairs: int) returns (t: Acc)
    requires 2 * maxPairs >= |cities| * (|cities| - 1)
    requires |GetComparableCityPairs(cities, maxPairs)| >= maxPairs
    ensures Inv(Ranking(cities), t) && |t.pairs| >= PairCount(|Ranking(cities)|)
    ensures t.pairs == GetComparableCityPairs(cities, maxPairs)
  {
    PairCountClosed(|cities|);
    t := ComparablePairsTrace(cities, maxPairs);
    assert GetComparableCityPairs(cities, maxPairs) == t.pairs;
    assert |Ranking(cities)| == |cities|;
  }

  /** A loop state holding `n(n-1)/2` pairs holds the pair of every position pair that parses. */
  lemma FullStateCovers(ranked: seq<City>, acc: Acc, o: Origin)
    requires Inv(ranked, acc) && |acc.pairs| >= PairCount(|ranked|)
    requires ValidOrigin(ranked, o) && ParseComparePairSlug(BuildAt(ranked, o)).Some?
    ensures ParseComparePairSlug(BuildAt(ranked, o)).value in acc.pairs
  {
    UsedOriginsSize(ranked, acc);
    FullStateVisitsAll(ranked, acc, o);
    var k :| 0 <= k < |acc.origins| && acc.origins[k] == o;
    assert acc.pairs[k] in acc.pairs;
  }

  /** With pair-safe slugs and that budget, every two cities with different slugs appear, in slug order. */
  lemma CoveredWithinBudgetSafe(cities: seq<City>, maxPairs: int, x: City, y: City)
    requires AllPairSafe(cities)
    requires 2 * maxPairs >= |cities| * (|cities| - 1)
    requires x in cities && y in cities && x.slug != y.slug
    ensures Canonical(x.slug, y.slug) in GetComparableCityPairs(cities, maxPairs)
  {
    RoundTripSafe(x.slug, y.slug);
    CoveredWithinBudget(cities, maxPairs, x, y);
  }

  // ---------------------------------------------------------------------
  // The budget only cuts the list short
  // ---------------------------------------------------------------------

  function OuterRun(ranked: seq<City>, sameContinentOnly: bool, maxPairs: int, i: nat, acc: Acc): Acc
    decreases |ranked| - i
  {
    if i >= |ranked| || |acc.pairs| >= maxPairs then acc
    else OuterRun(ranked, sameContinentOnly, maxPairs, i + 1, InnerRun(ranked, sameContinentOnly, maxPairs, i, i + 1, acc))
  }

  /** Both passes, stripped of their invariants. */
  function TraceRun(cities: seq<City>, maxPairs: int): Acc
  {
    if |cities| < 2 || maxPairs <= 0 then Start
    else
      var ranked := Ranking(cities);
      OuterRun(ranked, false, maxPairs, 0, OuterRun(ranked, true, maxPairs, 0, Start))
  }

  lemma {:induction false} OuterRunIsPass(ranked: seq<City>, sameContinentOnly: bool, m: int, i: nat, acc: Acc)
    requires Inv(ranked, acc)
    ensures OuterPass(ranked, sameContinentOnly, m, i, acc) == OuterRun(ranked, sameContinentOnly, m, i, acc)
    decreases |ranked| - i
  {
    if i < |ranked| && |acc.pairs| < m {
      var row := InnerPass(ranked, sameContinentOnly, m, i, i + 1, acc);
      OuterRunIsPass(ranked, sameContinentOnly, m, i + 1, row);
    }
  }

  lemma TraceRunIsTrace(cities: seq<City>, m: int)
    ensures ComparablePairsTrace(cities, m) == TraceRun(cities, m)
  {
    if |cities| >= 2 && m > 0 {
      var ranked := Ranking(cities);
      OuterRunIsPass(ranked, true, m, 0, Start);
      OuterRunIsPass(ranked, false, m, 0, FirstPass(cities, m));
    }
  }

  lemma RecordGrows(ranked: seq<City>, sameContinentOnly: bool, acc: Acc, o: Origin)
    requires ValidOrigin(ranked, o)
    ensures Grows(acc, Visit(ranked, sameContinentOnly, acc, o))
  {
  }

  lemma {:induction false} InnerRunGrows(ranked: seq<City>, sameContinentOnly: bool, m: int, i: nat, j: nat, acc: Acc)
    requires i < j && i < |ranked|
    ensures Grows(acc, InnerRun(ranked, sameContinentOnly, m, i, j, acc))
    decreases |ranked| - j
  {
    if j < |ranked| && |acc.pairs| < m {
      var next := Visit(ranked, sameContinentOnly, acc, Origin(i, j));
      RecordGrows(ranked, sameContinentOnly, acc, Origin(i, j));
      InnerRunGrows(ranked, sameContinentOnly, m, i, j + 1, next);
      GrowsTrans(acc, next, InnerRun(ranked, sameContinentOnly, m, i, j + 1, next));
    } else {
      GrowsRefl(acc);
    }
  }

  lemma {:induction false} OuterRunGrows(ranked: seq<City>, sameContinentOnly: bool, m: int, i: nat, acc: Acc)
    ensures Grows(acc, OuterRun(ranked, sameContinentOnly, m, i, acc))
    decreases |ranked| - i
  {
    if i < |ranked| && |acc.pairs| < m {
      var row := InnerRun(ranked, sameContinentOnly, m, i, i + 1, acc);
      InnerRunGrows(ranked, sameContinentOnly, m, i, i + 1, acc);
      OuterRunGrows(ranked, sameContinentOnly, m, i + 1, row);
      GrowsTrans(acc, row, OuterRun(ranked, sameContinentOnly, m, i + 1, row));
    } else {
      GrowsRefl(acc);
    }
  }

  /**
   Two runs of the inner loop from the same state, one with a larger budget:
   while the smaller budget lasts they take the same steps, and once it runs
   out the larger run only extends what the smaller one kept.
   */
  lemma {:induction false} InnerBudget(ranked: seq<City>, sameContinentOnly: bool, m: int, m': int, i: nat, j: nat, acc: Acc)
    requires i < j && i < |ranked| && m <= m'
    ensures var r := InnerRun(ranked, sameContinentOnly, m, i, j, acc);
            var r' := InnerRun(ranked, sameContinentOnly, m', i, j, acc);
            (|r.pairs| < m ==> r == r') && Grows(r, r')
    decreases |ranked| - j
  {
    if j >= |ranked| {
      GrowsRefl(acc);
    } else if |acc.pairs| >= m {
      InnerRunGrows(ranked, sameContinentOnly, m', i, j, acc);
    } else {
      InnerBudget(ranked, sameContinentOnly, m, m', i, j + 1, Visit(ranked, sameContinentOnly, acc, Origin(i, j)));
    }
  }

  /** The outer loop, likewise: a larger budget only extends the run. */
  lemma {:induction false} OuterBudget(ranked: seq<City>, sameContinentOnly: bool, m: int, m': int, i: nat, acc: Acc)
    requires m <= m'
    ensures var r := OuterRun(ranked, sameContinentOnly, m, i, acc);
            var r' := OuterRun(ranked, sameContinentOnly, m', i, acc);
            (|r.pairs| < m ==> r == r') && Grows(r, r')
    decreases |ranked| - i
  {
    if i >= |ranked| {
      GrowsRefl(acc);
    } else if |acc.pairs| >= m {
      OuterRunGrows(ranked, sameContinentOnly, m', i, acc);
    } else {
      var row := InnerRun(ranked, sameContinentOnly, m, i, i + 1, acc);
      var row' := InnerRun(ranked, sameContinentOnly, m', i, i + 1, acc);
      InnerBudget(ranked, sameContinentOnly, m, m', i, i + 1, acc);
      if |row.pairs| < m {
        OuterBudget(ranked, sameContinentOnly, m, m', i + 1, row);
      } else {
        assert OuterRun(ranked, sameContinentOnly, m, i + 1, row) == row;
        OuterRunGrows(ranked, sameContinentOnly, m', i + 1, row');
        GrowsTrans(row, row', OuterRun(ranked, sameContinentOnly, m', i + 1, row'));
      }
    }
  }

  /** Both passes: a larger budget only extends the trace. */
  lemma TraceBudget(cities: seq<City>, m: int, m': int)
    requires m <= m'
    ensures var t := TraceRun(cities, m);
            var t' := TraceRun(cities, m');
            (|t.pairs| < m ==> t == t') && Grows(t, t')
  {
    if |cities| >= 2 && m > 0 {
      var ranked := Ranking(cities);
      var first := OuterRun(ranked, true, m, 0, Start);
      var first' := OuterRun(ranked, true, m', 0, Start);
      OuterBudget(ranked, true, m, m', 0, Start);
      if |first.pairs| < m {
        OuterBudget(ranked, false, m, m', 0, first);
      } else {
        assert OuterRun(ranked, false, m, 0, first) == first;
        OuterRunGrows(ranked, false, m', 0, first');
        GrowsTrans(first, first', OuterRun(ranked, false, m', 0, first'));
      }
    } else {
      GrowsRefl(Start);
    }
  }

  /**
   The budget only decides where the list stops: the pairs kept under a
   budget `m` are the first `m` pairs kept under any larger budget. So the
   result under any budget is a prefix of the result that covers every pair.
   */
  lemma BudgetPrefix(cities: seq<City>, m: nat, m': int)
    requires m <= m'
    ensures GetComparableCityPairs(cities, m) == Take(GetComparableCityPairs(cities, m'), m)
  {
    TraceBudget(cities, m, m');
    TraceRunIsTrace(cities, m);
    TraceRunIsTrace(cities, m');
    var t := TraceRun(cities, m);
    var t' := TraceRun(cities, m');
    assert |t.pairs| <= m;
    if |t.pairs| == m {
      assert t.pairs == t'.pairs[..m];
    }
  }
}
