/** The registry of "best of" category pages (config/categories.ts). */
module CategoryConfig {

  /** A category page; its description is display copy and is not kept. */
  datatype BestCategory = BestCategory(slug: string, title: string)

  const BestCategories: seq<BestCategory> := [
    BestCategory("overall", "Best Overall Cities"),
    BestCategory("cheapest", "Cheapest Cities"),
    BestCategory("safest", "Safest Cities"),
    BestCategory("digital-nomads", "Best for Digital Nomads"),
    BestCategory("best-internet", "Best Internet"),
    BestCategory("best-healthcare", "Best Healthcare"),
    BestCategory("best-climate", "Best Climate"),
    BestCategory("lowest-pollution", "Lowest Pollution"),
    BestCategory("best-job-market", "Best Job Market")
  ]

  /** `categories`: the slugs of `BestCategories`, position by position. */
  function CategorySlugs(): (r: seq<string>)
    ensures |r| == |BestCategories|
    ensures forall i :: 0 <= i < |r| ==> r[i] == BestCategories[i].slug
  {
    seq(|BestCategories|, i requires 0 <= i < |BestCategories| => BestCategories[i].slug)
  }

  /** Nine categories, in the listed order, starting with `overall`. */
  lemma CategoryOrder()
    ensures CategorySlugs() == ["overall", "cheapest", "safest", "digital-nomads", "best-internet",
                                "best-healthcare", "best-climate", "lowest-pollution", "best-job-market"]
  {
  }

  /** No two categories share a slug, so a slug names one page. */
  lemma CategorySlugsDistinct()
    ensures forall i, j :: 0 <= i < j < |CategorySlugs()| ==> CategorySlugs()[i] != CategorySlugs()[j]
  {
    CategoryOrder();
  }
}
