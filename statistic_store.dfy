/** The store of regional statistics by year and of the first year over the
    temperature target (src/stores/statistics.ts). */
module StatisticsStore {
  import opened Common
  import opened Text
  import opened Entries

  /** One region's statistics, by statistic name; `{}` is the empty map. */
  type RegionStatistics = map<string, real>

  /** One year's statistics, by district or region id. */
  type YearlyStatistics = map<int, RegionStatistics>

  /** An administrative region as `findRegionByDistrict` returns it. The shown
      interface has no `id`, but the store reads one. */
  datatype AdminRegion = AdminRegion(id: int, name: string, districts: seq<int>)

  /** The lookup both getters share: the district's own key first, then the key
      of the region `findRegion` gives for the district, if any. */
  function Fallback<V>(m: map<int, V>, district: int, findRegion: int -> Option<AdminRegion>): (r: Option<V>)
    ensures district in m ==> r == Some(m[district])
    ensures district !in m && findRegion(district).Some? && findRegion(district).value.id in m
            ==> r == Some(m[findRegion(district).value.id])
    ensures r.None? <==> district !in m && (findRegion(district).None? || findRegion(district).value.id !in m)
  {
    if district in m then Some(m[district])
    else match findRegion(district)
      case Some(region) => if region.id in m then Some(m[region.id]) else None
      case None => None
  }

  /** When the district has its own entry, the region lookup is never consulted:
      any two `findRegion` functions give the same answer. */
  lemma FallbackIgnoresRegion<V>(m: map<int, V>, district: int, f: int -> Option<AdminRegion>, g: int -> Option<AdminRegion>)
    requires district in m
    ensures Fallback(m, district, f) == Fallback(m, district, g)
  {
  }

  /** `parseInt(key, 10)`, the reading of the statistics' year keys. */
  function YearKey(key: string): Option<int> {
    ParseInt(key, Decimal)
  }

  /** `parseInt(key)`, the reading of the over-target region keys. */
  function RegionKey(key: string): Option<int> {
    ParseInt(key, Unspecified)
  }

  /** Every year's document, parsed by `parseYearly`. */
  function ParsedEntries<D>(entries: seq<(string, D)>, parseYearly: D -> YearlyStatistics): (r: seq<(string, YearlyStatistics)>)
    ensures |r| == |entries|
    ensures forall i :: 0 <= i < |entries| ==> r[i] == (entries[i].0, parseYearly(entries[i].1))
  {
    seq(|entries|, i requires 0 <= i < |entries| => (entries[i].0, parseYearly(entries[i].1)))
  }

  class StatisticStore {
    var statistics: map<int, YearlyStatistics>
    var temperatureTargetYearPerRegion: map<int, int>

    constructor()
      ensures statistics == map[] && temperatureTargetYearPerRegion == map[]
    {
      statistics := map[];
      temperatureTargetYearPerRegion := map[];
    }

    /** `findStatistics(year, district)`: {} when nothing is loaded for the year,
        else the district's entry, else its region's, else {}. */
    function FindStatistics(year: int, district: int, findRegion: int -> Option<AdminRegion>): (r: RegionStatistics)
      reads this
      ensures year !in statistics ==> r == map[]
      ensures year in statistics && district in statistics[year] ==> r == statistics[year][district]
      ensures year in statistics && district !in statistics[year] ==>
        match findRegion(district)
        case Some(region) => r == (if region.id in statistics[year] then statistics[year][region.id] else map[])
        case None => r == map[]
    {
      if year in statistics then
        match Fallback(statistics[year], district, findRegion)
        case Some(s) => s
        case None => map[]
      else map[]
    }

    /** `getYearOverTarget(district)`: the same fallback, `undefined` (None) when
        neither key is present. */
    function GetYearOverTarget(district: int, findRegion: int -> Option<AdminRegion>): (r: Option<int>)
      reads this
      ensures district in temperatureTargetYearPerRegion ==> r == Some(temperatureTargetYearPerRegion[district])
      ensures r.None? <==> (district !in temperatureTargetYearPerRegion &&
        (findRegion(district).None? || findRegion(district).value.id !in temperatureTargetYearPerRegion))
      ensures r.Some? ==> r.value in temperatureTargetYearPerRegion.Values
    {
      Fallback(temperatureTargetYearPerRegion, district, findRegion)
    }

    /** `loadStatistics`, given the decoded `statistics` and `over_target` objects as
        lists of entries and `parseYearlyStatistics` as a parameter: each year's
        statistics are set under the year read with `parseInt(year, 10)`, then the
        over-target map is replaced by the one read from `over_target`. */
    method LoadStatistics<D>(yearly: seq<(string, D)>, overTarget: seq<(string, int)>, parseYearly: D -> YearlyStatistics)
      modifies this
      ensures statistics == SetParsed(old(statistics), ParsedEntries(yearly, parseYearly), YearKey)
      ensures temperatureTargetYearPerRegion == SetParsed(map[], overTarget, RegionKey)
    {
      var i := 0;
      while i < |yearly|
        invariant 0 <= i <= |yearly|
        invariant statistics == SetParsed(old(statistics), ParsedEntries(yearly, parseYearly)[..i], YearKey)
      {
        var (year, doc) := yearly[i];
        var parsed := parseYearly(doc);
        SetParsedStep(old(statistics), ParsedEntries(yearly, parseYearly), YearKey, i);
        assert ParsedEntries(yearly, parseYearly)[i] == (year, parsed);
        match YearKey(year) {
          case Some(y) => statistics := statistics[y := parsed];
          case None =>
        }
        i := i + 1;
      }
      assert ParsedEntries(yearly, parseYearly)[..i] == ParsedEntries(yearly, parseYearly);
      temperatureTargetYearPerRegion := SetParsed(map[], overTarget, RegionKey);
    }
  }

  /** After loading, a year read from some entry holds the statistics of the last
      entry for it; every other year keeps what it held. The over-target map holds
      exactly the regions read from its entries, with the last value for each. */
  lemma LoadedStatistics<D>(before: map<int, YearlyStatistics>, yearly: seq<(string, D)>, parseYearly: D -> YearlyStatistics,
                            overTarget: seq<(string, int)>, year: int, region: int)
    ensures var parsed := ParsedEntries(yearly, parseYearly);
      var after := SetParsed(before, parsed, YearKey);
      var i := LastWithKey(parsed, year, YearKey);
      && (i >= 0 ==> YearKey(yearly[i].0) == Some(year) && year in after && after[year] == parseYearly(yearly[i].1))
      && (i < 0 ==> (year in after <==> year in before) && (year in before ==> after[year] == before[year]))
    ensures var targets := SetParsed(map[], overTarget, RegionKey);
      var j := LastWithKey(overTarget, region, RegionKey);
      && (j >= 0 ==> region in targets && targets[region] == overTarget[j].1)
      && (j < 0 ==> region !in targets)
  {
    SetParsedAt(before, ParsedEntries(yearly, parseYearly), YearKey, year);
    SetParsedAt(map[], overTarget, RegionKey, region);
  }
}
