/**
 City lookups (lib/data/cities.ts). The static catalogue is passed in
 explicitly rather than read from a module-level array.
 */
module CitiesData {

  import opened Wrappers
  import opened Seqs
  import opened Types

  function GetAllCities(catalogue: seq<City>): (r: seq<City>)
    ensures r == catalogue
  {
    catalogue
  }

  function HasSlug(slug: string): City -> bool
  {
    (c: City) => c.slug == slug
  }

  /** The first catalogue city with that slug; none exactly when no city has it. */
  function GetCityBySlug(catalogue: seq<City>, slug: string): (r: Option<City>)
    ensures r.Some? ==> r.value.slug == slug && r.value in catalogue
    ensures r.Some? ==> exists i :: 0 <= i < |catalogue| && catalogue[i] == r.value
                                    && forall j :: 0 <= j < i ==> catalogue[j].slug != slug
    ensures r.None? <==> forall i :: 0 <= i < |catalogue| ==> catalogue[i].slug != slug
  {
    FindFirst(catalogue, HasSlug(slug))
  }
}
