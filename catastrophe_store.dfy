/** The store of events by year (src/stores/catastrophes.ts). */
module CatastrophesStore {
  import opened Common
  import opened Text
  import opened Seqs
  import opened Entries
  import opened Catastrophes

  /** `parseInt(year, 10)`. */
  function YearKey(key: string): Option<int> {
    ParseInt(key, Decimal)
  }

  /** `docs.map(parseCatatrophe)`. */
  function ParseAll(docs: seq<CatastropheDocument>, parseDate: string -> int): (r: seq<Catastrophe>)
    ensures |r| == |docs| && forall i :: 0 <= i < |docs| ==> r[i] == ParseCatastrophe(docs[i], parseDate)
  {
    seq(|docs|, i requires 0 <= i < |docs| => ParseCatastrophe(docs[i], parseDate))
  }

  /** Every year's documents, parsed. */
  function ParsedEntries(entries: seq<(string, seq<CatastropheDocument>)>, parseDate: string -> int): (r: seq<(string, seq<Catastrophe>)>)
    ensures |r| == |entries|
    ensures forall i :: 0 <= i < |entries| ==> r[i] == (entries[i].0, ParseAll(entries[i].1, parseDate))
  {
    seq(|entries|, i requires 0 <= i < |entries| => (entries[i].0, ParseAll(entries[i].1, parseDate)))
  }

  /** The events of one year kept by the district and type filters: district 0
      means every district; the type filter is always applied. */
  function FilterEvents(events: seq<Catastrophe>, district: int, filter: seq<CatastropheType>): seq<Catastrophe> {
    var inDistrict := if district != 0 then Filter(events, (x: Catastrophe) => x.district == district) else events;
    Filter(inDistrict, (x: Catastrophe) => x.kind in filter)
  }

  /** Whether an event passes both filters. */
  predicate Selected(c: Catastrophe, district: int, filter: seq<CatastropheType>) {
    (district == 0 || c.district == district) && c.kind in filter
  }

  /** The filters keep the events' order and keep exactly the events of the
      district (any, for district 0) whose type is in the filter; so an empty
      type filter keeps nothing. */
  lemma FilterEventsMembers(events: seq<Catastrophe>, district: int, filter: seq<CatastropheType>)
    ensures IsSubsequence(FilterEvents(events, district, filter), events)
    ensures forall c :: c in FilterEvents(events, district, filter) ==> c in events && Selected(c, district, filter)
    ensures forall c :: c in events && Selected(c, district, filter) ==> c in FilterEvents(events, district, filter)
    ensures filter == [] ==> FilterEvents(events, district, filter) == []
  {
    var byDistrict := (x: Catastrophe) => x.district == district;
    var byType := (x: Catastrophe) => x.kind in filter;
    var inDistrict := if district != 0 then Filter(events, byDistrict) else events;
    if district != 0 {
      FilterIsSubsequence(events, byDistrict);
      FilterMembers(events, byDistrict);
    } else {
      SubsequenceReflexive(events);
    }
    FilterIsSubsequence(inDistrict, byType);
    FilterMembers(inDistrict, byType);
    SubsequenceTransitive(Filter(inDistrict, byType), inDistrict, events);
    if filter == [] {
      FilterNone(inDistrict, byType);
    }
  }

  /** Applying the filters to their own result changes nothing. */
  lemma FilterEventsIdempotent(events: seq<Catastrophe>, district: int, filter: seq<CatastropheType>)
    ensures FilterEvents(FilterEvents(events, district, filter), district, filter) == FilterEvents(events, district, filter)
  {
    var byDistrict := (x: Catastrophe) => x.district == district;
    var byType := (x: Catastrophe) => x.kind in filter;
    var r := FilterEvents(events, district, filter);
    if district != 0 {
      FilterCommutes(events, byDistrict, byType);
      FilterIdempotent(Filter(events, byType), byDistrict);
      FilterCommutes(r, byDistrict, byType);
      FilterIdempotent(Filter(events, byDistrict), byType);
      calc {
        FilterEvents(r, district, filter);
        Filter(Filter(r, byDistrict), byType);
        Filter(Filter(r, byType), byDistrict);
        { FilterIdempotent(Filter(events, byDistrict), byType); }
        Filter(r, byDistrict);
        Filter(Filter(Filter(events, byType), byDistrict), byDistrict);
        Filter(Filter(events, byType), byDistrict);
        r;
      }
    } else {
      FilterIdempotent(events, byType);
    }
  }

  /** The store: the events of each loaded year. */
  class CatastropheStore {
    var catastrophes: map<int, seq<Catastrophe>>

    constructor()
      ensures catastrophes == map[]
    {
      catastrophes := map[];
    }

    /** `findCatastrophes(year, district, filter)`; a year with nothing loaded has
        no events. */
    function FindCatastrophes(year: int, district: int, filter: seq<CatastropheType>): (r: seq<Catastrophe>)
      reads this
      ensures year !in catastrophes ==> r == []
      ensures year in catastrophes ==> r == FilterEvents(catastrophes[year], district, filter)
    {
      FilterEvents(if year in catastrophes then catastrophes[year] else [], district, filter)
    }

    /** `loadCatastrophes`, given the decoded `year -> documents` object as its list
        of entries: each year's documents are parsed and set under the year, read
        with `parseInt(year, 10)`. */
    method LoadCatastrophes(entries: seq<(string, seq<CatastropheDocument>)>, parseDate: string -> int)
      modifies this
      ensures catastrophes == SetParsed(old(catastrophes), ParsedEntries(entries, parseDate), YearKey)
    {
      var i := 0;
      while i < |entries|
        invariant 0 <= i <= |entries|
        invariant catastrophes == SetParsed(old(catastrophes), ParsedEntries(entries, parseDate)[..i], YearKey)
      {
        var (year, docs) := entries[i];
        var parsed := ParseAll(docs, parseDate);
        SetParsedStep(old(catastrophes), ParsedEntries(entries, parseDate), YearKey, i);
        assert ParsedEntries(entries, parseDate)[i] == (year, parsed);
        match YearKey(year) {
          case Some(y) => catastrophes := catastrophes[y := parsed];
          case None =>
        }
        i := i + 1;
      }
      assert ParsedEntries(entries, parseDate)[..i] == ParsedEntries(entries, parseDate);
    }
  }

  /** After loading, a year read from some entry holds the parsed documents of the
      last entry for it, in document order; every other year is untouched. */
  lemma LoadedYear(before: map<int, seq<Catastrophe>>, entries: seq<(string, seq<CatastropheDocument>)>,
                   parseDate: string -> int, year: int)
    ensures var parsed := ParsedEntries(entries, parseDate);
      var after := SetParsed(before, parsed, YearKey);
      var i := LastWithKey(parsed, year, YearKey);
      && (i >= 0 ==> YearKey(entries[i].0) == Some(year) && year in after
                     && |after[year]| == |entries[i].1|
                     && forall j :: 0 <= j < |entries[i].1| ==> after[year][j] == ParseCatastrophe(entries[i].1[j], parseDate))
      && (i < 0 ==> (year in after <==> year in before) && (year in before ==> after[year] == before[year]))
  {
    SetParsedAt(before, ParsedEntries(entries, parseDate), YearKey, year);
  }
}
