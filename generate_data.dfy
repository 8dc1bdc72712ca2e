/** tools/generate_data.py: the catastrophes of every year and the regional
    statistics of every year merged into one record per year, keyed by the year's
    decimal text. The statistics are read as the script indexes them: statistic
    name, then year, then region id. */
module GenerateData {
  import opened Common
  import opened Text
  import opened Constants

  /** The statistics the script merges: statistic name to year to region id to
      value. */
  type Statistics<V> = map<string, map<nat, map<nat, V>>>

  /** One output record: the year's catastrophes and, for each region id (as
      text), one entry per statistic, `None` where the statistic has no value. */
  datatype YearData<C, V> = YearData(catastrophes: seq<C>, statistics: map<string, map<string, Option<V>>>)

  /** `set().union(catastrophes.keys(), *[x.keys() for x in statistics.values()])`. */
  function Years<C, S>(catastrophes: map<nat, seq<C>>, statistics: map<string, map<nat, S>>): (r: set<nat>)
    ensures forall y :: y in catastrophes ==> y in r
    ensures forall k, y :: k in statistics && y in statistics[k] ==> y in r
    ensures forall y :: y in r ==> y in catastrophes || exists k :: k in statistics && y in statistics[k]
  {
    catastrophes.Keys + set k, y | k in statistics && y in statistics[k] :: y
  }

  /** `{k: v.get(year, {}) for k, v in statistics.items()}`. */
  function YearStats<V>(statistics: Statistics<V>, year: nat): (r: map<string, map<nat, V>>)
    ensures r.Keys == statistics.Keys
  {
    map k | k in statistics :: if year in statistics[k] then statistics[k][year] else map[]
  }

  /** `set().union(*[x.keys() for x in year_stats.values()])`. */
  function RegionIds<V>(yearStats: map<string, map<nat, V>>): set<nat> {
    set k, id | k in yearStats && id in yearStats[k] :: id
  }

  /** `{k: v.get(id, None) for k, v in year_stats.items()}`. */
  function RegionRecord<V>(yearStats: map<string, map<nat, V>>, id: nat): (r: map<string, Option<V>>)
    ensures r.Keys == yearStats.Keys
  {
    map k | k in yearStats :: if id in yearStats[k] then Some(yearStats[k][id]) else None
  }

  /** The record of one year. */
  function YearEntry<C, V>(catastrophes: map<nat, seq<C>>, statistics: Statistics<V>, year: nat): (r: YearData<C, V>)
    ensures forall id :: id in RegionIds(YearStats(statistics, year)) ==>
      NatToString(id) in r.statistics && r.statistics[NatToString(id)].Keys == statistics.Keys
  {
    var yearStats := YearStats(statistics, year);
    NatToStringInjectiveAll();
    var records := map id | id in RegionIds(yearStats) :: NatToString(id) := RegionRecord(yearStats, id);
    YearData(if year in catastrophes then catastrophes[year] else [], records)
  }

  /** Distinct numbers have distinct decimal texts. */
  lemma NatToStringInjectiveAll()
    ensures forall a: nat, b: nat :: NatToString(a) == NatToString(b) ==> a == b
  {
    forall a: nat, b: nat | NatToString(a) == NatToString(b) ensures a == b {
      NatToStringInjective(a, b);
    }
  }

  /** The record of a year holds the year's catastrophes, or none; a region id is
      listed exactly when some statistic has a value for it that year, and its
      entry has one key per statistic, holding that statistic's value or `None`. */
  lemma YearEntrySpec<C, V>(catastrophes: map<nat, seq<C>>, statistics: Statistics<V>, year: nat, id: nat)
    ensures var e := YearEntry(catastrophes, statistics, year);
      && (year !in catastrophes ==> e.catastrophes == [])
      && (year in catastrophes ==> e.catastrophes == catastrophes[year])
      && (NatToString(id) in e.statistics <==> exists k :: k in statistics && year in statistics[k] && id in statistics[k][year])
      && (NatToString(id) in e.statistics ==> e.statistics[NatToString(id)].Keys == statistics.Keys)
      && (NatToString(id) in e.statistics ==> forall k :: k in statistics ==>
            e.statistics[NatToString(id)][k] ==
              if year in statistics[k] && id in statistics[k][year] then Some(statistics[k][year][id]) else None)
  {
    YearEntryHasRegion(catastrophes, statistics, year, id);
    if NatToString(id) in YearEntry(catastrophes, statistics, year).statistics {
      YearEntryRegion(catastrophes, statistics, year, id);
      RegionRecordSpec(statistics, year, id);
    }
  }

  /** The decimal text of a region id is a key of a year's statistics exactly
      when the id is one of the year's region ids. */
  lemma YearEntryHasRegion<C, V>(catastrophes: map<nat, seq<C>>, statistics: Statistics<V>, year: nat, id: nat)
    ensures NatToString(id) in YearEntry(catastrophes, statistics, year).statistics <==>
      exists k :: k in statistics && year in statistics[k] && id in statistics[k][year]
  {
    NatToStringInjectiveAll();
    RegionIdsMembers(statistics, year, id);
  }

  /** The key of a region id holds that region's record. */
  lemma YearEntryRegion<C, V>(catastrophes: map<nat, seq<C>>, statistics: Statistics<V>, year: nat, id: nat)
    requires NatToString(id) in YearEntry(catastrophes, statistics, year).statistics
    ensures YearEntry(catastrophes, statistics, year).statistics[NatToString(id)] == RegionRecord(YearStats(statistics, year), id)
  {
    NatToStringInjectiveAll();
  }

  /** A region's record has one key per statistic, holding its value for the
      region that year or `None`. */
  lemma RegionRecordSpec<V>(statistics: Statistics<V>, year: nat, id: nat)
    ensures var r := RegionRecord(YearStats(statistics, year), id);
      && r.Keys == statistics.Keys
      && forall k :: k in statistics ==>
           r[k] == if year in statistics[k] && id in statistics[k][year] then Some(statistics[k][year][id]) else None
  {
  }

  /** A region id is listed for a year exactly when some statistic has a value
      for it that year. */
  lemma RegionIdsMembers<V>(statistics: Statistics<V>, year: nat, id: nat)
    ensures id in RegionIds(YearStats(statistics, year)) <==>
      exists k :: k in statistics && year in statistics[k] && id in statistics[k][year]
  {
    var yearStats := YearStats(statistics, year);
    if exists k :: k in statistics && year in statistics[k] && id in statistics[k][year] {
      var k :| k in statistics && year in statistics[k] && id in statistics[k][year];
      assert k in yearStats && id in yearStats[k];
    }
  }

  /** Every key of a year's statistics is the decimal text of a region id that
      some statistic has a value for that year. */
  lemma YearEntryKeys<C, V>(catastrophes: map<nat, seq<C>>, statistics: Statistics<V>, year: nat, key: string)
    requires key in YearEntry(catastrophes, statistics, year).statistics
    ensures exists id: nat :: key == NatToString(id) && exists k :: k in statistics && year in statistics[k] && id in statistics[k][year]
  {
    var ids := RegionIds(YearStats(statistics, year));
    var id :| id in ids && key == NatToString(id);
    RegionIdsMembers(statistics, year, id);
  }

  /** The statistics as `collect_statistics` of tools/generate_meteo_data.py
      returns them: statistic name to the number a row starts with to the list of
      the row's values. */
  type Rows<V> = map<string, map<nat, seq<Option<V>>>>

  /** The region ids of a year as the script computes them on those rows:
      `v.get(year, {})` is a list whenever some file has a row for the year, and a
      list has no `keys`, so the union raises `AttributeError`; a year no file has
      a row for gets only empty dictionaries, and no region. */
  function RegionIdsAsWritten<V>(rows: Rows<V>, year: nat): Result<set<nat>> {
    if exists k :: k in rows && year in rows[k] then Failed("AttributeError") else Ok({})
  }

  /** On the rows as read, a year with a row in any file is one of the output
      years, and merging it raises: the script never gets past a non-empty
      statistics file, and without one no region gets any statistics. */
  lemma MergeAsWrittenRaises<C, V>(catastrophes: map<nat, seq<C>>, rows: Rows<V>, k: string, year: nat)
    requires k in rows && year in rows[k]
    ensures year in Years(catastrophes, rows)
    ensures RegionIdsAsWritten(rows, year) == Failed("AttributeError")
    ensures forall y :: RegionIdsAsWritten(rows, y).Ok? ==> RegionIdsAsWritten(rows, y).value == {}
  {
  }

  /** The loop `for year in years: result[str(year)] = ...`, taking the years in
      whatever order the set yields them: one record per year, under the year's
      decimal text. */
  method MergeYears<C, V>(catastrophes: map<nat, seq<C>>, statistics: Statistics<V>)
    returns (result: map<string, YearData<C, V>>)
    ensures result.Keys == set y | y in Years(catastrophes, statistics) :: NatToString(y)
    ensures forall y :: y in Years(catastrophes, statistics) ==>
      NatToString(y) in result && result[NatToString(y)] == YearEntry(catastrophes, statistics, y)
  {
    var years := Years(catastrophes, statistics);
    result := map[];
    var remaining := years;
    NatToStringInjectiveAll();
    while remaining != {}
      invariant remaining <= years
      invariant result.Keys == set y | y in years && y !in remaining :: NatToString(y)
      invariant forall y :: y in years && y !in remaining ==>
        NatToString(y) in result && result[NatToString(y)] == YearEntry(catastrophes, statistics, y)
      decreases remaining
    {
      var year :| year in remaining;
      result := result[NatToString(year) := YearEntry(catastrophes, statistics, year)];
      remaining := remaining - {year};
    }
  }
}
