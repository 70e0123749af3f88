/** The overall ranking served to the rankings endpoint (lib/data/rankings.ts). */
module Rankings {

  import opened StableSort
  import opened Types
  import opened Filters
  import CitiesData

  /** Best overall score first, ties in catalogue order: the `overall` category ranking. */
  function GetCitiesByOverallScore(catalogue: seq<City>): (r: seq<City>)
    ensures |r| == |catalogue| && multiset(r) == multiset(catalogue)
    ensures forall i, j :: 0 <= i < j < |r| ==> r[i].scores.overall >= r[j].scores.overall
    ensures StableWrt(r, catalogue, OverallKey)
    ensures r == FilterByCategory(catalogue, "overall")
  {
    SortByKeyDesc(CitiesData.GetAllCities(catalogue), OverallKey)
  }
}
