/** Category rankings (lib/filters.ts). */
module Filters {

  import opened Wrappers
  import opened StableSort
  import opened Types
  import opened Scoring
  import CategoryConfig

  function OverallKey(c: City): real { c.scores.overall }
  /** Ascending cost is descending negated cost. */
  function CheapestKey(c: City): real { -c.cost.single }
  function SafetyKey(c: City): real { c.scores.safety }
  function InternetKey(c: City): real { c.scores.internet }
  function HealthcareKey(c: City): real { c.scores.healthcare }
  function ClimateKey(c: City): real { c.scores.climate }
  function PollutionKey(c: City): real { c.scores.pollution }
  function JobKey(c: City): real { c.scores.job }

  /** The key each handled category sorts by (descending), or none for an unknown slug. */
  function CategoryKey(category: string): Option<City -> real>
  {
    if category == "overall" then Some(OverallKey)
    else if category == "cheapest" then Some(CheapestKey)
    else if category == "safest" then Some(SafetyKey)
    else if category == "digital-nomads" then Some(NomadScore)
    else if category == "best-internet" then Some(InternetKey)
    else if category == "best-healthcare" then Some(HealthcareKey)
    else if category == "best-climate" then Some(ClimateKey)
    else if category == "lowest-pollution" then Some(PollutionKey)
    else if category == "best-job-market" then Some(JobKey)
    else None
  }

  /**
   A handled category gives a stable reordering of the input, ordered on the
   category's own attribute; any other slug gives the input back.
   */
  function FilterByCategory(cities: seq<City>, category: string): (r: seq<City>)
    ensures CategoryKey(category).None? ==> r == cities
    ensures CategoryKey(category).Some? ==> |r| == |cities| && multiset(r) == multiset(cities)
    ensures CategoryKey(category).Some? ==> StableWrt(r, cities, CategoryKey(category).value)
    ensures category == "overall" ==>
              forall i, j :: 0 <= i < j < |r| ==> r[i].scores.overall >= r[j].scores.overall
    ensures category == "cheapest" ==>
              forall i, j :: 0 <= i < j < |r| ==> r[i].cost.single <= r[j].cost.single
    ensures category == "safest" ==>
              forall i, j :: 0 <= i < j < |r| ==> r[i].scores.safety >= r[j].scores.safety
    ensures category == "digital-nomads" ==>
              forall i, j :: 0 <= i < j < |r| ==> NomadScore(r[i]) >= NomadScore(r[j])
    ensures category == "best-internet" ==>
              forall i, j :: 0 <= i < j < |r| ==> r[i].scores.internet >= r[j].scores.internet
    ensures category == "best-healthcare" ==>
              forall i, j :: 0 <= i < j < |r| ==> r[i].scores.healthcare >= r[j].scores.healthcare
    ensures category == "best-climate" ==>
              forall i, j :: 0 <= i < j < |r| ==> r[i].scores.climate >= r[j].scores.climate
    ensures category == "lowest-pollution" ==>
              forall i, j :: 0 <= i < j < |r| ==> r[i].scores.pollution >= r[j].scores.pollution
    ensures category == "best-job-market" ==>
              forall i, j :: 0 <= i < j < |r| ==> r[i].scores.job >= r[j].scores.job
  {
    match CategoryKey(category)
    case Some(key) => SortByKeyDesc(cities, key)
    case None => cities
  }

  /** `cheapest` keeps cities of equal cost in input order. */
  lemma CheapestStable(cities: seq<City>, cost: real)
    ensures WithKey(FilterByCategory(cities, "cheapest"), CheapestKey, -cost)
            == WithKey(cities, CheapestKey, -cost)
  {
  }

  /** Exactly the nine slugs of the category registry are handled. */
  lemma HandledCategories(category: string)
    ensures CategoryKey(category).Some? <==> category in CategoryConfig.CategorySlugs()
  {
    CategoryConfig.CategoryOrder();
  }

  /** No registered category falls through to the unchanged-input default. */
  lemma EveryCategoryIsHandled()
    ensures forall i :: 0 <= i < |CategoryConfig.CategorySlugs()| ==>
              CategoryKey(CategoryConfig.CategorySlugs()[i]).Some?
  {
    CategoryConfig.CategoryOrder();
  }
}
