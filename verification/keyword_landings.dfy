/**
 The keyword landing engine (lib/keyword-landings.ts): lookups in the
 landing registry, the related landings of a landing, and the city
 shortlist of a landing. The registry is passed in explicitly; the one the
 program reads is `KeywordConfig.Landings`.
 */
module KeywordLandings {

  import opened Wrappers
  import opened Seqs
  import opened StableSort
  import opened Types
  import opened Scoring
  import opened KeywordConfig

  function GetAllKeywordLandings(registry: seq<KeywordLanding>): (r: seq<KeywordLanding>)
    ensures r == registry
  {
    registry
  }

  function HasSlug(slug: string): KeywordLanding -> bool
  {
    (l: KeywordLanding) => l.slug == slug
  }

  /** The first landing with that slug; none exactly when no landing has it. */
  function GetKeywordLandingBySlug(registry: seq<KeywordLanding>, slug: string): (r: Option<KeywordLanding>)
    ensures r.Some? ==> r.value.slug == slug && r.value in registry
    ensures r.Some? ==> exists i :: 0 <= i < |registry| && registry[i] == r.value
                                    && forall j :: 0 <= j < i ==> registry[j].slug != slug
    ensures r.None? <==> forall i :: 0 <= i < |registry| ==> registry[i].slug != slug
  {
    FindFirst(registry, HasSlug(slug))
  }

  /** In a registry with distinct slugs, every landing is found by its own slug. */
  lemma LookupFindsOwn(registry: seq<KeywordLanding>, i: int)
    requires 0 <= i < |registry|
    requires forall a, b :: 0 <= a < b < |registry| ==> registry[a].slug != registry[b].slug
    ensures GetKeywordLandingBySlug(registry, registry[i].slug) == Some(registry[i])
  {
    var r := GetKeywordLandingBySlug(registry, registry[i].slug);
    var k :| 0 <= k < |registry| && registry[k] == r.value
             && forall j :: 0 <= j < k ==> registry[j].slug != registry[i].slug;
    assert k <= i;
    if k < i {
      assert registry[k].slug != registry[i].slug;
    }
  }

  /** In the program's registry every landing is found by its own slug. */
  lemma LookupUnambiguous(i: int)
    requires 0 <= i < |Landings|
    ensures GetKeywordLandingBySlug(Landings, Landings[i].slug) == Some(Landings[i])
  {
    LandingSlugsDistinct();
    LookupFindsOwn(Landings, i);
  }

  /** A JavaScript-truthy optional string: present and non-empty. */
  predicate Truthy(s: Option<string>)
  {
    s.Some? && s.value != ""
  }

  /** Both landings name the same related topic. */
  predicate TopicsMatch(landing: KeywordLanding, current: KeywordLanding)
  {
    Truthy(landing.relatedTopicSlug) && Truthy(current.relatedTopicSlug)
    && landing.relatedTopicSlug == current.relatedTopicSlug
  }

  /**
   How related `landing` is to `current`: the score decodes back into "same
   mode" (3 or more) and "same topic" (2 or 5).
   */
  function RelatedScore(landing: KeywordLanding, current: KeywordLanding): (r: nat)
    ensures r == 0 || r == 2 || r == 3 || r == 5
    ensures r >= 3 <==> landing.mode == current.mode
    ensures r == 2 || r == 5 <==> TopicsMatch(landing, current)
  {
    (if landing.mode == current.mode then 3 else 0) + (if TopicsMatch(landing, current) then 2 else 0)
  }

  function RelatedKey(current: KeywordLanding): KeywordLanding -> real
  {
    (l: KeywordLanding) => RelatedScore(l, current) as real
  }

  function OtherSlug(slug: string): KeywordLanding -> bool
  {
    (l: KeywordLanding) => l.slug != slug
  }

  /**
   `getRelatedKeywordLandings`: the other landings, best related score
   first, ties in registry order, the first `limit` of them.
   */
  function GetRelatedKeywordLandings(registry: seq<KeywordLanding>, current: KeywordLanding, limit: nat): (r: seq<KeywordLanding>)
    ensures StableTop(r, Filter(registry, OtherSlug(current.slug)), RelatedKey(current), limit)
    ensures |r| <= limit
    ensures forall i :: 0 <= i < |r| ==> r[i].slug != current.slug && r[i] in registry
    ensures forall i, j :: 0 <= i < j < |r| ==> RelatedScore(r[i], current) >= RelatedScore(r[j], current)
  {
    var others := Filter(registry, OtherSlug(current.slug));
    var r := TopByKey(others, RelatedKey(current), limit);
    StableTopMembers(r, others, RelatedKey(current), limit);
    FilterMembers(registry, OtherSlug(current.slug));
    forall i | 0 <= i < |r|
      ensures r[i].slug != current.slug && r[i] in registry
    {
      assert r[i] in others;
      assert OtherSlug(current.slug)(r[i]);
    }
    r
  }

  /**
   Over the program's registry a related score is only ever 0, 2 or 5: the
   topic follows the mode, so a shared mode always brings a shared topic.
   */
  lemma RegistryRelatedScores(a: int, b: int)
    requires 0 <= a < |Landings| && 0 <= b < |Landings|
    ensures var s := RelatedScore(Landings[a], Landings[b]); s == 0 || s == 2 || s == 5
  {
    LandingTopics();
    assert Landings[a].relatedTopicSlug == Some(TopicOfMode(Landings[a].mode));
    assert Landings[b].relatedTopicSlug == Some(TopicOfMode(Landings[b].mode));
  }

  /**
   `rankForMode`: the per-mode ranking formula. Every formula is an offset
   plus each attribute times its weight in the table below.
   */
  function RankForMode(c: City, mode: Mode): (r: real)
    ensures r == WeightedSum(c, mode)
  {
    match mode
    case RemoteBudget => NomadScore(c) + c.scores.internet + c.scores.qualityOfLife
    case CheapFastInternet =>
      c.scores.internet * 2.0 + c.scores.safety + c.scores.qualityOfLife - c.cost.single / 300.0
    case SafeHealthcare => c.scores.safety * 2.0 + c.scores.healthcare * 2.0 + c.scores.qualityOfLife
    case CleanAirJobs => c.scores.pollution * 2.0 + c.scores.job * 2.0 + c.scores.qualityOfLife
    case SoftwareRelocation =>
      c.scores.job * 2.0 + c.scores.internet * 2.0 + c.scores.qualityOfLife + c.scores.safety
  }

  /** The attributes a ranking formula can read. */
  datatype Metric = Internet | Safety | QualityOfLife | Healthcare | Pollution | Job | MonthlyCost

  function Value(c: City, m: Metric): real
  {
    match m
    case Internet => c.scores.internet
    case Safety => c.scores.safety
    case QualityOfLife => c.scores.qualityOfLife
    case Healthcare => c.scores.healthcare
    case Pollution => c.scores.pollution
    case Job => c.scores.job
    case MonthlyCost => c.cost.single
  }

  /**
   The weight of each attribute in each mode's formula, with the nomad score
   of `remote-budget` expanded into its own weights.
   */
  function Weight(mode: Mode, m: Metric): real
  {
    match (mode, m)
    case (RemoteBudget, Internet) => 1.3
    case (RemoteBudget, Safety) => 0.2
    case (RemoteBudget, QualityOfLife) => 1.3
    case (RemoteBudget, MonthlyCost) => -1.0 / 2500.0
    case (CheapFastInternet, Internet) => 2.0
    case (CheapFastInternet, Safety) => 1.0
    case (CheapFastInternet, QualityOfLife) => 1.0
    case (CheapFastInternet, MonthlyCost) => -1.0 / 300.0
    case (SafeHealthcare, Safety) => 2.0
    case (SafeHealthcare, Healthcare) => 2.0
    case (SafeHealthcare, QualityOfLife) => 1.0
    case (CleanAirJobs, Pollution) => 2.0
    case (CleanAirJobs, Job) => 2.0
    case (CleanAirJobs, QualityOfLife) => 1.0
    case (SoftwareRelocation, Job) => 2.0
    case (SoftwareRelocation, Internet) => 2.0
    case (SoftwareRelocation, QualityOfLife) => 1.0
    case (SoftwareRelocation, Safety) => 1.0
    case _ => 0.0
  }

  /** The constant part: the nomad score's cost term contributes 0.2 * 10. */
  function Offset(mode: Mode): real
  {
    if mode == RemoteBudget then 2.0 else 0.0
  }

  /** The weighted sum of the attributes under the weight table. */
  function WeightedSum(c: City, mode: Mode): real
  {
    Offset(mode)
    + Weight(mode, Internet) * Value(c, Internet)
    + Weight(mode, Safety) * Value(c, Safety)
    + Weight(mode, QualityOfLife) * Value(c, QualityOfLife)
    + Weight(mode, Healthcare) * Value(c, Healthcare)
    + Weight(mode, Pollution) * Value(c, Pollution)
    + Weight(mode, Job) * Value(c, Job)
    + Weight(mode, MonthlyCost) * Value(c, MonthlyCost)
  }

  /** No formula penalises a better or cheaper city. */
  lemma RankMonotone(a: City, b: City, mode: Mode)
    requires Dominates(b, a)
    ensures RankForMode(a, mode) <= RankForMode(b, mode)
  {
    NomadScoreMonotone(a, b);
  }

  /**
   The gate of each mode on each attribute: a floor on a score, a ceiling on
   the monthly cost, or nothing.
   */
  function Bound(mode: Mode, m: Metric): Option<real>
  {
    match (mode, m)
    case (RemoteBudget, MonthlyCost) => Some(2000.0)
    case (RemoteBudget, Internet) => Some(7.5)
    case (RemoteBudget, QualityOfLife) => Some(7.0)
    case (CheapFastInternet, Internet) => Some(8.5)
    case (SafeHealthcare, Safety) => Some(7.4)
    case (SafeHealthcare, Healthcare) => Some(7.8)
    case (CleanAirJobs, Pollution) => Some(7.0)
    case (CleanAirJobs, Job) => Some(7.2)
    case (SoftwareRelocation, Job) => Some(7.5)
    case (SoftwareRelocation, Internet) => Some(8.0)
    case (SoftwareRelocation, QualityOfLife) => Some(7.4)
    case _ => None
  }

  /** The city clears the mode's gate on one attribute. */
  predicate Clears(c: City, mode: Mode, m: Metric)
  {
    match Bound(mode, m)
    case None => true
    case Some(v) => if m == MonthlyCost then Value(c, m) <= v else Value(c, m) >= v
  }

  /**
   `includeForMode`: the per-mode thresholds; `software-relocation` is the
   default branch. A city is included exactly when it clears every gate of
   the table above, and, for `cheap-fast-internet`, is in Europe.
   */
  function IncludeForMode(c: City, mode: Mode): (b: bool)
    ensures b <==> (mode == CheapFastInternet ==> c.continent == "Europe")
                   && Clears(c, mode, Internet) && Clears(c, mode, Safety) && Clears(c, mode, QualityOfLife)
                   && Clears(c, mode, Healthcare) && Clears(c, mode, Pollution) && Clears(c, mode, Job)
                   && Clears(c, mode, MonthlyCost)
  {
    match mode
    case RemoteBudget =>
      c.cost.single <= 2000.0 && c.scores.internet >= 7.5 && c.scores.qualityOfLife >= 7.0
    case CheapFastInternet => c.continent == "Europe" && c.scores.internet >= 8.5
    case SafeHealthcare => c.scores.safety >= 7.4 && c.scores.healthcare >= 7.8
    case CleanAirJobs => c.scores.pollution >= 7.0 && c.scores.job >= 7.2
    case SoftwareRelocation =>
      c.scores.job >= 7.5 && c.scores.internet >= 8.0 && c.scores.qualityOfLife >= 7.4
  }

  /** Inclusion is kept by a better, no dearer city on the same continent. */
  lemma IncludeMonotone(a: City, b: City, mode: Mode)
    requires Dominates(b, a) && a.continent == b.continent
    requires IncludeForMode(a, mode)
    ensures IncludeForMode(b, mode)
  {
  }

  /** The cheap-fast-internet thresholds: a European city with internet of at least 8.5. */
  lemma CheapFastInternetThresholds(c: City)
    ensures IncludeForMode(c, CheapFastInternet) <==> c.continent == "Europe" && c.scores.internet >= 8.5
  {
  }

  function Includes(mode: Mode): City -> bool
  {
    (c: City) => IncludeForMode(c, mode)
  }

  function RankKey(mode: Mode): City -> real
  {
    (c: City) => RankForMode(c, mode)
  }

  /** Below this many matching cities a landing ranks the whole catalogue. */
  const MinMatches: nat := 6

  /**
   `getCitiesForKeywordLanding`: with at least six matching cities, the
   best-ranked `limit` of them; otherwise the best-ranked `limit` of the
   whole catalogue. Either way ranked by the mode's formula, ties in input
   order.
   */
  function GetCitiesForKeywordLanding(landing: KeywordLanding, cities: seq<City>, limit: nat): (r: seq<City>)
    ensures var matching := Filter(cities, Includes(landing.mode));
            |matching| >= MinMatches ==> StableTop(r, matching, RankKey(landing.mode), limit)
    ensures |Filter(cities, Includes(landing.mode))| < MinMatches ==>
              StableTop(r, cities, RankKey(landing.mode), limit)
    ensures forall i, j :: 0 <= i < j < |r| ==> RankForMode(r[i], landing.mode) >= RankForMode(r[j], landing.mode)
  {
    var matching := Filter(cities, Includes(landing.mode));
    var source := if |matching| >= MinMatches then matching else cities;
    var r := TopByKey(source, RankKey(landing.mode), limit);
    assert NonIncreasing(r, RankKey(landing.mode));
    r
  }

  /**
   The cities of a landing come from the catalogue, and when enough of them
   match the mode, all of them do.
   */
  lemma LandingCitiesMembers(landing: KeywordLanding, cities: seq<City>, limit: nat)
    ensures var r := GetCitiesForKeywordLanding(landing, cities, limit);
            forall i :: 0 <= i < |r| ==> r[i] in cities
    ensures var r := GetCitiesForKeywordLanding(landing, cities, limit);
            |Filter(cities, Includes(landing.mode))| >= MinMatches ==>
              forall i :: 0 <= i < |r| ==> IncludeForMode(r[i], landing.mode)
  {
    var r := GetCitiesForKeywordLanding(landing, cities, limit);
    var matching := Filter(cities, Includes(landing.mode));
    var source := if |matching| >= MinMatches then matching else cities;
    StableTopMembers(r, source, RankKey(landing.mode), limit);
    FilterMembers(cities, Includes(landing.mode));
    forall i | 0 <= i < |r|
      ensures r[i] in cities
      ensures |matching| >= MinMatches ==> IncludeForMode(r[i], landing.mode)
    {
      assert r[i] in source;
      if |matching| >= MinMatches {
        assert Includes(landing.mode)(r[i]);
      }
    }
  }
}
