/** Review lookups (lib/data/reviews.ts), over an explicitly passed catalogue. */
module ReviewsData {

  import opened Seqs
  import opened Types

  function GetAllReviews(catalogue: seq<Review>): (r: seq<Review>)
    ensures r == catalogue
  {
    catalogue
  }

  function ForCity(citySlug: string): Review -> bool
  {
    (rv: Review) => rv.citySlug == citySlug
  }

  /** The city's reviews: all of them, only them, in catalogue order. */
  function GetReviewsByCitySlug(catalogue: seq<Review>, citySlug: string): (r: seq<Review>)
    ensures forall i :: 0 <= i < |r| ==> r[i].citySlug == citySlug
    ensures forall rv :: rv in catalogue && rv.citySlug == citySlug ==> rv in r
    ensures forall rv: Review :: rv.citySlug == citySlug ==> multiset(r)[rv] == multiset(catalogue)[rv]
    ensures IsSubsequence(r, catalogue)
  {
    var r := Filter(catalogue, ForCity(citySlug));
    forall rv | rv in catalogue && rv.citySlug == citySlug
      ensures rv in r
    {
      FilterKeeps(catalogue, ForCity(citySlug), rv);
    }
    r
  }
}
