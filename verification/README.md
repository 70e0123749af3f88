# City ranking and content-matching engine, in Dafny

This project models the logic of a city-comparison site: a read-only
catalogue of cities, guides and reviews, and the pure functions that rank
and match that catalogue. Each source file has its own Dafny module.

- **Comparison pairs** (`CompareCodec`, `ComparePairs`, from
  `lib/compare-seo.ts`).
  - It builds the canonical `a-vs-b` slug of two cities and parses one back.
  - It enumerates up to `maxPairs` pairs over the cities ranked by overall
    score: same-continent pairs first, then all pairs, each slug taken once.
- **Category rankings** (`Filters`, `Rankings`, `CategoryConfig`, from
  `lib/filters.ts`, `lib/data/rankings.ts` and `config/categories.ts`).
  - Nine category slugs, each a stable sort on one key.
  - Any other slug returns the input unchanged.
- **Nomad score** (`Scoring`, from `lib/scoring.ts`).
  - A weighted linear formula, with no clamping.
- **Keyword landings** (`KeywordConfig`, `KeywordLandings`, from
  `config/keyword-landings.ts` and `lib/keyword-landings.ts`).
  - Sixteen landings with five ranking modes.
  - Per-mode inclusion thresholds and ranking formulas.
  - A fallback to the whole catalogue when fewer than six cities match.
  - A related-landing score.
- **Blog relevance** (`BlogSeo`, from `lib/blog-seo.ts`).
  - The tokenizer and its stop words.
  - Related posts by token overlap.
  - Related cities: direct mentions, then a backfill ranked by tag affinity.
  - Related posts of a city, scored by tag-gated thresholds.
  - The refresh schedule of a guide, and its FAQ questions.
- **Catalogue lookups** (`CitiesData`, `BlogsData`, `ReviewsData`, from
  `lib/data/*.ts`).

Shared modules:

- `Types`: the records.
- `Wrappers`: `Option`.
- `Seqs`: filter, find, take, subsequence, distinctness.
- `Strings`: ASCII lower-casing, `includes`, `join`.
- `StableSort`: a stable insertion sort by a `real` key, descending.

Every `Array.prototype.sort` in the program is stable (ES2019), so each one
is modelled as that sort. An ascending sort is a descending sort on the
negated key. `sort(...).slice(0, n)` is characterised by the predicate
`StableSort.StableTop`, which says:

- the result is `min(n, |s|)` elements of the input;
- in non-increasing key order;
- holding, for every key, a prefix of the input's elements with that key;
- cut only below keys it kept.

The catalogues (`config/cities`, `config/blogs`, `config/reviews`) are
parameters. The landing functions also take the registry as a parameter; the program's registry is the constant `KeywordConfig.Landings`, and the lemmas about it are stated on that constant.

The comparison-slug round trip has a non-obvious precondition.
`parse(build(a, b))` gives back the canonical pair exactly when:

- `a != b` and both are non-empty;
- the lesser slug followed by `-vs` contains no `-vs-`;
- the greater slug contains no `-vs-`.

`CompareCodec.RoundTrip` states this as an if-and-only-if. Two examples
show it failing:

- `build("a-vs", "b")` is `a-vs-vs-b`, which parses as (`a`, `vs-b`)
  (`CompareCodec.RoundTripCounterexample`).
- `build("x-vs", "x-vs")` parses as two different slugs
  (`CompareCodec.SelfPairCounterexample`).

So the enumerator's guarantees about slug order, input slugs and coverage
are stated for catalogues whose slugs are `PairSafe`: non-empty, with no
`-vs-`, and not ending in `-vs`. Without it, the slugs `z-vs`, `zz`,
`vs-zz` and `z` give two entries, (`z`, `vs-zz`) and (`vs-zz`, `z`), that
re-build the same slug (`CompareCodec.CanonicalCollision`,
`ComparePairs.CollidingEntries`). What holds unconditionally is that no two
entries are equal and no two are parsed from the same slug; with pair-safe
slugs, no two re-build the same slug (`ComparePairs.CanonicalSlugsDistinct`).

The budget never changes which pairs come first. The pairs kept under a
budget `m` are the first `m` of the pairs kept under any larger budget
(`ComparePairs.BudgetPrefix`). The proof goes through plain nested loops
that carry no invariant (`ComparePairs.TraceRunIsTrace`).

## Model

| member | source | states |
|---|---|---|
| CompareCodec.BuildComparePairSlug | lib/compare-seo.ts:3-7 | the slug is the lesser slug, `-vs-`, then the greater, in slug order; its length is the two lengths plus four |
| CompareCodec.BuildSymmetric | lib/compare-seo.ts:5-7 | building is independent of argument order, and so is the canonical pair |
| CompareCodec.SlugLeTotal | lib/compare-seo.ts:6 | the slug order used for `localeCompare` is total |
| CompareCodec.SlugLeAntisymmetric | lib/compare-seo.ts:6 | the slug order is antisymmetric, so the sorted pair is determined |
| CompareCodec.Split | lib/compare-seo.ts:10 | `split("-vs-")`: at least one chunk, no chunk holds the separator, joining the chunks with it gives back the input, and the matches are left-most: no occurrence straddles the end of any chunk but the last |
| CompareCodec.SplitUnique | lib/compare-seo.ts:10 | any chunking with those properties is the split, so they determine it |
| CompareCodec.ParseComparePairSlug | lib/compare-seo.ts:9-17 | none exactly when the split does not give two non-empty chunks, or gives two equal ones; otherwise two distinct, non-empty, separator-free slugs that join to the input |
| CompareCodec.ParseSound | lib/compare-seo.ts:9-17 | a parsed pair rebuilds the input, and its first slug followed by `-vs` holds no separator |
| CompareCodec.ParseExact | lib/compare-seo.ts:9-17 | `parse(s)` is `(a, b)` exactly when `s` is `a-vs-b` with `a`, `b` non-empty and distinct, `a + "-vs"` and `b` separator-free |
| CompareCodec.RoundTrip | lib/compare-seo.ts:5-17 | `parse(build(a, b))` is the canonical pair exactly when the slugs are distinct, non-empty, and the lesser slug plus `-vs` and the greater slug hold no separator |
| CompareCodec.RoundTripSafe | lib/compare-seo.ts:5-17 | two different pair-safe slugs always round-trip |
| CompareCodec.SelfPairRejected | lib/compare-seo.ts:14 | `build(a, a)` is rejected when `a + "-vs"` holds no separator |
| CompareCodec.SelfPairCounterexample | lib/compare-seo.ts:5-17 | `build("x-vs", "x-vs")` parses, as (`x`, `vs-x-vs`) |
| CompareCodec.RoundTripCounterexample | lib/compare-seo.ts:5-17 | `build("a-vs", "b")` parses as (`a`, `vs-b`), not as the pair built |
| CompareCodec.ParseAcceptsExample | lib/compare-seo.ts:9-17 | `lisbon-vs-porto` parses as (`lisbon`, `porto`) |
| CompareCodec.ParseRejectsSamePair | lib/compare-seo.ts:14 | `a-vs-a` is rejected |
| CompareCodec.ParseRejectsEmptyChunk | lib/compare-seo.ts:14 | `-vs-b` is rejected |
| CompareCodec.ParseRejectsThreeChunks | lib/compare-seo.ts:11 | `a-vs-b-vs-c` is rejected |
| CompareCodec.ParseRejectsSingleSlug | lib/compare-seo.ts:11 | a slug with no separator is rejected |
| CompareCodec.CanonicalCollision | lib/compare-seo.ts:5-17 | `build("z-vs", "zz")` parses as (`z`, `vs-zz`), `build("vs-zz", "z")` parses as (`vs-zz`, `z`), and those two pairs build the same slug |
| ComparePairs.AddPair | lib/compare-seo.ts:26-33 | `addPair` marks the built slug seen and appends its parse only when the slug was unseen and parses; the loop invariant is kept |
| ComparePairs.InnerPass | lib/compare-seo.ts:36-40 | the inner loop keeps the invariant and the budget, appends only unseen slugs of row `i` in column order, and, ending under budget, has seen every slug the row visits |
| ComparePairs.OuterPass | lib/compare-seo.ts:35-41 | the outer loop keeps the invariant and the budget, appends in row order, and, ending under budget, has seen every slug it visits |
| ComparePairs.ComparablePairsTrace | lib/compare-seo.ts:19-50 | both passes: the first pass's pairs are same-continent and the rest are not, each pass in `(i, j)` loop order; under budget every position pair's slug was seen |
| ComparePairs.SecondPassCrossesContinents | lib/compare-seo.ts:43-47 | the second pass adds only cross-continent pairs, because the first pass already saw every same-continent slug |
| ComparePairs.GetComparableCityPairs | lib/compare-seo.ts:19-50 | empty for fewer than two cities or no budget; at most `maxPairs` entries; no two equal or parsed from the same slug; each two different non-empty slugs parsed from two input cities' slug |
| ComparePairs.BudgetPrefix | lib/compare-seo.ts:19-50 | the budget only decides where the list stops: the pairs kept under budget `m` are the first `m` of those kept under any larger budget, so the earliest pairs in pass and loop order are the ones kept |
| ComparePairs.TraceRunIsTrace | lib/compare-seo.ts:19-50 | the two passes with their invariants compute the same state as the plain nested loops, with the budget tested before each visit |
| ComparePairs.OuterRunIsPass | lib/compare-seo.ts:35-41 | one pass with its invariant computes the same state as the plain nested loop |
| ComparePairs.CanonicalSlugsDistinct | lib/compare-seo.ts:19-50 | with pair-safe slugs, no two entries re-build the same slug |
| ComparePairs.CollidingEntries | lib/compare-seo.ts:19-50 | with cities slugged `z-vs`, `zz`, `vs-zz` and `z` and a budget for every pair, the result holds both (`z`, `vs-zz`) and (`vs-zz`, `z`), which re-build the same slug |
| ComparePairs.PairSafeEntries | lib/compare-seo.ts:26-33 | with pair-safe slugs, every entry is in slug order and both its slugs are input city slugs |
| ComparePairs.SafeParseOrders | lib/compare-seo.ts:5-17 | a pair parsed from the slug of two pair-safe slugs is those two slugs, in slug order |
| ComparePairs.CoveredUnderBudget | lib/compare-seo.ts:35-47 | a result under budget holds the parsed pair of every two input cities with different slugs whose slug parses |
| ComparePairs.CoveredUnderBudgetSafe | lib/compare-seo.ts:35-47 | with pair-safe slugs, a result under budget holds the canonical pair of every two cities with different slugs |
| ComparePairs.CoveredWithinBudget | lib/compare-seo.ts:35-47 | with `2 * maxPairs >= n(n-1)`, every two input cities with different slugs whose slug parses have their pair in the result |
| ComparePairs.CoveredWithinBudgetSafe | lib/compare-seo.ts:35-47 | with pair-safe slugs and that budget, every two cities with different slugs appear, as their canonical pair |
| ComparePairs.SameContinentFirst | lib/compare-seo.ts:35-47 | with unique pair-safe slugs, the result splits into same-continent pairs followed by cross-continent pairs |
| ComparePairs.UsedOriginsSize | lib/compare-seo.ts:26-33 | a loop state's pairs come from as many different position pairs, all inside the ranking |
| ComparePairs.FullStateCovers | lib/compare-seo.ts:35-47 | a loop state holding `n(n-1)/2` pairs holds the pair of every position pair whose slug parses |
| ComparePairs.AllOriginsSize | lib/compare-seo.ts:35-36 | there are at most `n(n-1)/2` position pairs `i < j < n` |
| ComparePairs.PairCountClosed | lib/compare-seo.ts:35-36 | counting the position pairs row by row gives `n(n-1)/2` |
| Filters.FilterByCategory | lib/filters.ts:3-28 | an unknown slug returns the input; each of the nine slugs gives a stable permutation of the input, non-increasing in its score (non-decreasing in cost for `cheapest`, in the nomad score for `digital-nomads`) |
| Filters.CheapestStable | lib/filters.ts:7-8 | `cheapest` keeps cities of equal cost in input order |
| Filters.HandledCategories | lib/filters.ts:4-26 | a slug is handled exactly when it is one of the registry's nine |
| Filters.EveryCategoryIsHandled | config/categories.ts:7-55 | no registered category falls through to the unchanged default |
| Rankings.GetCitiesByOverallScore | lib/data/rankings.ts:4-7 | a permutation of the catalogue, non-increasing in overall score, stable, and equal to the `overall` category ranking |
| CategoryConfig.CategorySlugs | config/categories.ts:55 | `categories` has one slug per category, position by position |
| CategoryConfig.CategoryOrder | config/categories.ts:7-53 | the nine slugs, in the listed order starting with `overall` |
| CategoryConfig.CategorySlugsDistinct | config/categories.ts:7-53 | category slugs are pairwise distinct |
| Scoring.NomadScore | lib/scoring.ts:3-10 | with scores in 0-10 and cost in 0-5000, the score is in 0-10 |
| Scoring.NomadScoreMonotone | lib/scoring.ts:4-9 | more internet, safety or quality of life, or a lower cost, never lowers the score |
| Scoring.NomadScoreWeights | lib/scoring.ts:4-9 | raising internet, safety or quality of life by `d` raises the score by exactly 0.3, 0.2 or 0.3 times `d`; raising the cost by `d` lowers it by `d / 2500` |
| Scoring.NomadScoreWeightsSumToOne | lib/scoring.ts:4-9 | the weights sum to one: when the three scores and the cost term all equal `v`, the score is `v` |
| Scoring.NomadScoreUnclamped | lib/scoring.ts:8 | above 5000 the cost term is negative and pulls the score below the three weighted scores |
| Scoring.NomadScoreExample | lib/scoring.ts:4-9 | internet 8, safety 7, quality of life 7.5 and cost 1500 score 7.45 |
| KeywordConfig.LandingSlugsDistinct | config/keyword-landings.ts:17-370 | sixteen landings with pairwise distinct slugs |
| KeywordConfig.LandingTopics | config/keyword-landings.ts:17-370 | every landing sets its related topic, and that topic is a function of its mode; every landing has two FAQ entries |
| KeywordConfig.EveryModeUsed | config/keyword-landings.ts:13-356 | each of the five modes is used by some landing |
| KeywordConfig.TopicFamilies | config/keyword-landings.ts:25-356 | two modes share a topic exactly when they are equal, or are `remote-budget` and `cheap-fast-internet`, or are `safe-healthcare` and `clean-air-jobs` |
| KeywordLandings.GetAllKeywordLandings | lib/keyword-landings.ts:5-7 | the registry, unchanged |
| KeywordLandings.GetKeywordLandingBySlug | lib/keyword-landings.ts:9-11 | the first landing with the slug, from the registry; none exactly when no landing has it |
| KeywordLandings.LookupFindsOwn | lib/keyword-landings.ts:9-11 | in a registry with distinct slugs, each landing is what its own slug finds |
| KeywordLandings.LookupUnambiguous | lib/keyword-landings.ts:9-11 | in the program's registry, each landing is what its own slug finds |
| KeywordLandings.RelatedScore | lib/keyword-landings.ts:19-22 | the score is 0, 2, 3 or 5: at least 3 exactly when the modes match, 2 or 5 exactly when both topics are set and equal |
| KeywordLandings.GetRelatedKeywordLandings | lib/keyword-landings.ts:13-29 | the stable top `limit` of the other landings by related score: never the current slug, at most `limit`, from the registry, non-increasing in score |
| KeywordLandings.RegistryRelatedScores | lib/keyword-landings.ts:19-22 | over the program's registry the related score is always 0, 2 or 5 |
| KeywordLandings.RankForMode | lib/keyword-landings.ts:31-46 | each mode's formula equals an offset plus the city's attributes times one weight table, with `remote-budget`'s nomad score expanded into those weights |
| KeywordLandings.IncludeForMode | lib/keyword-landings.ts:48-63 | a city is included exactly when it clears every threshold of the mode's table (cost at most the bound, each score at least its bound) and, for `cheap-fast-internet`, is in Europe |
| KeywordLandings.RankMonotone | lib/keyword-landings.ts:31-46 | no mode's formula ranks a city lower than one it is no worse than on every score and no cheaper than |
| KeywordLandings.IncludeMonotone | lib/keyword-landings.ts:48-63 | a city that passes a mode's thresholds still passes them when every score is no lower, the cost no higher and the continent the same |
| KeywordLandings.CheapFastInternetThresholds | lib/keyword-landings.ts:52-54 | `cheap-fast-internet` includes exactly the European cities with internet at least 8.5 |
| KeywordLandings.GetCitiesForKeywordLanding | lib/keyword-landings.ts:65-72 | the stable top `limit` by the mode's formula of the matching cities when at least six match, else of the whole input |
| KeywordLandings.LandingCitiesMembers | lib/keyword-landings.ts:65-72 | every city returned is an input city, and satisfies the mode's thresholds when at least six match |
| BlogSeo.Scrub | lib/blog-seo.ts:23 | replacing characters outside `[a-z0-9\s-]` by spaces keeps the length and leaves only token characters and whitespace |
| BlogSeo.SplitWhitespace | lib/blog-seo.ts:24 | `split(/\s+/)`: at least one piece, none holding whitespace, all made of the input's characters, and the pieces joined by single spaces are the input with every whitespace run squeezed to one space |
| BlogSeo.SplitWhitespaceUnique | lib/blog-seo.ts:24 | whitespace-free pieces whose space-join is the squeezed input are the split, so that property determines it |
| BlogSeo.SqueezeJoined | lib/blog-seo.ts:24 | words without whitespace joined by single spaces are already squeezed |
| BlogSeo.SplitJoin | lib/blog-seo.ts:24 | splitting non-empty words joined by single spaces gives back the words |
| BlogSeo.Tokenize | lib/blog-seo.ts:4-27 | every token is non-empty, not a stop word, and made only of `[a-z0-9-]`; the tokens are the kept pieces of the split of the scrubbed lower-cased text, in order, each as often as there |
| BlogSeo.TokenizeIdempotent | lib/blog-seo.ts:20-27 | tokenizing the tokens joined by spaces gives the same tokens |
| BlogSeo.TokenizeExample | lib/blog-seo.ts:4-27 | `Visa, 2026` tokenizes to `visa`, dropping the stop word `2026` |
| BlogSeo.LowerTags | lib/blog-seo.ts:33 | each tag is lower-cased whole |
| BlogSeo.Dedup | lib/blog-seo.ts:30-34 | `new Set([...])`: the same elements, without repeats |
| BlogSeo.CountSharedIsIntersection | lib/blog-seo.ts:46-48 | counting the current tokens the other set has gives the size of the intersection |
| BlogSeo.Overlap | lib/blog-seo.ts:30-48 | the overlap of two posts is the size of the intersection of their topic token sets |
| BlogSeo.OverlapSymmetric | lib/blog-seo.ts:30-48 | the overlap does not depend on which post is current |
| BlogSeo.TagIsOneToken | lib/blog-seo.ts:33 | a lower-cased tag is one topic token, spaces included |
| BlogSeo.GetRelatedPosts | lib/blog-seo.ts:29-55 | the stable top `limit` of the other posts by overlap: never the current slug, at most `limit`, from the input, non-increasing in overlap |
| BlogSeo.DirectMatches | lib/blog-seo.ts:58-62 | the catalogue cities whose lower-cased name or country the lower-cased post text contains: all of them, with multiplicity, in catalogue order, and no other |
| BlogSeo.TagAffinity | lib/blog-seo.ts:68-84 | the affinity is the sum, over the four tag groups the post carries, of the group's term: internet plus quality of life, ten minus the capped cost over 500, healthcare, safety; in 0-50 for a city with scores in range; 0 for a post with none of the six tags |
| BlogSeo.AddGroupTagAffinity | lib/blog-seo.ts:70-82 | tagging a post into a group it was not in raises every city's affinity by exactly that group's term |
| BlogSeo.TagAffinityExample | lib/blog-seo.ts:70-82 | internet 9, quality of life 8, cost 1800, healthcare 7 and safety 7.5 under all four groups give 17 + 6.4 + 7 + 7.5 = 37.9 |
| BlogSeo.TagAffinityMonotone | lib/blog-seo.ts:68-84 | a city no worse on every score and no dearer never has a lower tag affinity |
| BlogSeo.TagAffinityBudgetTerm | lib/blog-seo.ts:74-76 | the budget term stays in 0-10, and a post with none of the six tags gives every city affinity 0 |
| BlogSeo.FallbackByTags | lib/blog-seo.ts:68-86 | a stable permutation of the cities, non-increasing in tag affinity |
| BlogSeo.Step | lib/blog-seo.ts:89-93 | a city is appended exactly when its slug is not yet listed and the list is shorter than `limit` |
| BlogSeo.Backfill | lib/blog-seo.ts:88-93 | the list is a prefix of the result; a list within `limit` stays within it, a full list is left unchanged, and only offered cities are appended |
| BlogSeo.BackfillFresh | lib/blog-seo.ts:89-93 | an appended city never repeats a slug already listed |
| BlogSeo.BackfillCovers | lib/blog-seo.ts:89-93 | a result shorter than `limit` lists the slug of every city offered |
| BlogSeo.NewSlugs | lib/blog-seo.ts:88-93 | the unlimited top-up: a subsequence of the ranking, no slug already listed, no slug twice |
| BlogSeo.NewSlugsCover | lib/blog-seo.ts:88-93 | every slug of the ranking is listed already or among the new slugs |
| BlogSeo.NewSlugsFirst | lib/blog-seo.ts:88-93 | each new slug comes from the first city of the ranking that carries it |
| BlogSeo.BackfillTruncates | lib/blog-seo.ts:88-93 | topping up a list within `limit` appends exactly as many new-slug cities as fit under `limit`, the first ones in ranking order |
| BlogSeo.BackfillOrdered | lib/blog-seo.ts:85-93 | over a ranking non-increasing in a key, the appended cities come in non-increasing key |
| BlogSeo.GetRelatedCitiesForPost | lib/blog-seo.ts:57-96 | with at least `limit` direct matches, the first `limit` of them; otherwise the direct matches are a prefix; never over `limit` |
| BlogSeo.RelatedCitiesFill | lib/blog-seo.ts:57-96 | with fewer than `limit` direct matches, the result is the direct matches followed by the first new-slug cities of the tag-affinity ranking, up to `limit` |
| BlogSeo.RelatedCitiesMembers | lib/blog-seo.ts:57-96 | every city returned is a catalogue city |
| BlogSeo.RelatedCitiesBackfill | lib/blog-seo.ts:68-95 | after the direct matches, no city repeats an earlier slug, and tag affinity is non-increasing |
| BlogSeo.RelatedCitiesCover | lib/blog-seo.ts:88-95 | a result shorter than `limit` lists every catalogue slug |
| BlogSeo.RelatedCitiesDistinct | lib/blog-seo.ts:57-96 | with unique catalogue slugs the result has unique slugs |
| BlogSeo.RelatedCitiesLength | lib/blog-seo.ts:57-96 | with unique catalogue slugs the result has `min(limit, n)` cities |
| BlogSeo.TagBonuses | lib/blog-seo.ts:109-120 | the bonuses are 2 per tag group the post carries whose threshold the city passes: internet plus quality of life above 16, cost at most 1700, safety at least 7.5, healthcare at least 7.5; so even and at most 8 |
| BlogSeo.AddGroupTagBonuses | lib/blog-seo.ts:109-120 | tagging a post into a group it was not in adds 2 to the bonuses when the city passes that group's threshold and nothing otherwise |
| BlogSeo.TagBonusesExample | lib/blog-seo.ts:109-120 | internet 9, quality of life 8, cost 1800, safety 7.5 and healthcare 7 under all four groups earn the remote-work and safety bonuses: 4 |
| BlogSeo.CityPostScore | lib/blog-seo.ts:102-123 | the score is 5 if the lower-cased text names the city, plus 3 if it names the country, plus 2 per earned tag group; at most 16, and odd exactly when the text names exactly one of the city and the country |
| BlogSeo.CityPostScoreNamesCity | lib/blog-seo.ts:106 | of two cities alike but for the name, the one the text names scores exactly 5 more |
| BlogSeo.CityPostScoreNamesCountry | lib/blog-seo.ts:107 | of two cities alike but for the country, the one whose country the text names scores exactly 3 more |
| BlogSeo.AddGroupTagScore | lib/blog-seo.ts:103-120 | tags are not in the scored text, so tagging a post into a new group moves the score exactly as the bonuses move |
| BlogSeo.CityPostScoreExample | lib/blog-seo.ts:103-120 | a post naming the city but not its country, tagged safety and budget, scores a city with safety 8 and cost 2000 at 5 + 2 = 7 |
| BlogSeo.CityPostScoreMonotone | lib/blog-seo.ts:109-120 | a city with the same name and country, no worse on every score and no dearer, never scores a post lower |
| BlogSeo.GetRelatedPostsForCity | lib/blog-seo.ts:98-129 | the stable top `limit` of all posts by score: `min(limit, n)` posts, none filtered out, non-increasing in score |
| BlogSeo.GetBlogRefreshStatus | lib/blog-seo.ts:131-145 | days since update is the floor of the elapsed days; refresh is due exactly when that reaches the review period; the next review is the update plus the period |
| BlogSeo.RefreshDueAtReviewDate | lib/blog-seo.ts:135-137 | a refresh is due exactly when the clock has reached the next review date |
| BlogSeo.NextReviewIgnoresClock | lib/blog-seo.ts:137 | the next review date does not depend on the clock |
| BlogSeo.RefreshExample | lib/blog-seo.ts:131-145 | updated 2024-01-01, checked 2024-02-15, every 30 days: 45 days, due, next review 2024-01-31 |
| BlogSeo.BuildFaqForPost | lib/blog-seo.ts:147-165 | always three entries |
| BlogSeo.FaqKeywordRoundTrip | lib/blog-seo.ts:150 | the first question gives back the post's target keyword |
| BlogSeo.FaqDistinguishesKeywords | lib/blog-seo.ts:147-165 | two posts get the same FAQ exactly when their keywords are equal, and always the same last two questions |
| CitiesData.GetAllCities | lib/data/cities.ts:4-6 | the catalogue, unchanged |
| CitiesData.GetCityBySlug | lib/data/cities.ts:8-10 | the first catalogue city with the slug; none exactly when no city has it |
| BlogsData.GetAllBlogPosts | lib/data/blogs.ts:4-8 | a permutation of the catalogue, newest first, posts published together in catalogue order |
| BlogsData.GetBlogPostBySlug | lib/data/blogs.ts:10-12 | the first post with the slug; none exactly when no post has it |
| ReviewsData.GetAllReviews | lib/data/reviews.ts:4-6 | the catalogue, unchanged |
| ReviewsData.GetReviewsByCitySlug | lib/data/reviews.ts:8-10 | only that city's reviews, all of them with their multiplicity, as an order-preserving subsequence |
| StableSort.SortByKeyDesc | lib/filters.ts:6 | the comparator sort `(a, b) => key(b) - key(a)`: a permutation, non-increasing in the key, stable |
| StableSort.SortSpecDetermines | lib/filters.ts:6 | any sequence that is non-increasing in the key and keeps each key's elements in input order is this sort's result |
| StableSort.TakeSortedIsTop | lib/data/rankings.ts:6 | the first `n` of any stable non-increasing permutation are the stable top `n` |

## Left out

- `localeCompare` collation: slugs are compared in code-point order (`SlugLe`; a Dafny character is a Unicode scalar value, so this also differs from UTF-16 code-unit order above U+FFFF), a total order like the collation, but not the same one for mixed case or accents.
- Unicode `toLowerCase` and the `\s` class: lower-casing and whitespace are ASCII only.
- IEEE 754 arithmetic and NaN comparators: every score is a `real`, so `7.45` is exact.
- `new Date(...)` parsing and the clock: dates are integer milliseconds, and `now` is a parameter of `GetBlogRefreshStatus`.
- `async` and `Promise` wrappers, and the module-level catalogues, which are passed as parameters.
- Default arguments (`maxPairs = 180`, `limit = 15`, `limit = 3`, `limit = 4`, `reviewEveryDays = 30`): callers pass every value.
- Negative `limit` values: `limit` is a `nat`. `maxPairs` and `reviewEveryDays` are integers, not arbitrary numbers.
- Pages, components, layout, API routes and the sitemap: rendering and framework glue, with no ranking logic of their own.
- `config/topic-families.ts` and `config/blog-clusters.ts`: prose registries that no modelled function reads.
- Prose fields: titles, descriptions, intros, FAQ answers, metric provenance, and a review's `pros`, `cons` and `text` (a `Review` keeps only `id`, `citySlug`, `rating` and `costEstimate`). `BuildFaqForPost` keeps only the questions, and a landing keeps only the length of its FAQ list.
- ComparePairs.GetComparableCityPairs: the guarantees about slug order, input slugs, unique canonical slugs (`CanonicalSlugsDistinct`), continent order and coverage are stated under pair-safe slugs, because they fail for slugs such as `z-vs`, `zz`, `vs-zz` and `z` (`CollidingEntries`).
