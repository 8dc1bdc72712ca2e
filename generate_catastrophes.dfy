/** The script that builds the events file of the web site
    (tools/generate_catastrophes.py): the civil-security records before and after
    2020, the forest fires and the heat waves are filtered into one list, sorted
    by date, tagged with the district that contains them and grouped by year. */
module GenerateCatastrophes {
  import opened Common
  import opened Text
  import opened Seqs
  import opened Catastrophes
  import opened PyDict
  import opened Dates
  import opened YearlyData
  import opened ToolsUtils
  import opened SeverityText

  // ---------------------------------------------------------------------------
  // Event types.

  /** The types of the script's enumeration. */
  predicate ScriptType(t: CatastropheType) {
    t == Flood || t == ForestFire || t == ViolentStorm || t == Tornado || t == FreezingRain ||
    t == WinterStorm || t == StormWinds || t == HeatWave
  }

  /** An entry of `event_types`: the type a record's label stands for, and the
      least severity kept for it. */
  datatype EventType = EventType(kind: CatastropheType, minSeverity: Severity)

  /** `event_types.get(name)`, keyed by lower-case labels. */
  function EventTypes(name: string): (r: Option<EventType>)
    ensures r.Some? ==> ScriptType(r.value.kind)
  {
    if name == "inondation" then Some(EventType(Flood, Important))
    else if name == "tornade" then Some(EventType(Tornado, Minor))
    else if name == "orage violent" then Some(EventType(ViolentStorm, Important))
    else if name == "ouragan" then Some(EventType(ViolentStorm, Important))
    else if name == "pluie verglaçante" then Some(EventType(FreezingRain, Extreme))
    else if name == "feu de forêt" then Some(EventType(ForestFire, Important))
    else if name == "tempête hivernale" then Some(EventType(WinterStorm, Extreme))
    else if name == "vent de tempête" then Some(EventType(StormWinds, Important))
    else if name == "vent violent" then Some(EventType(StormWinds, Important))
    else None
  }

  /** Every label maps to a type of the script other than the heat wave, with a
      threshold of at least Minor. */
  lemma EventTypesRange(name: string)
    ensures EventTypes(name).Some? ==>
      && ScriptType(EventTypes(name).value.kind) && EventTypes(name).value.kind != CatastropheType.HeatWave
      && SeverityLe(Minor, EventTypes(name).value.minSeverity)
  {
  }

  // ---------------------------------------------------------------------------
  // The JSON value of a type (`catastrophe['type'].value`).

  /** A type's value as `json.dump` writes it: a string, or a list for a tuple. */
  datatype TypeValue = Code(code: string) | List(items: seq<string>)

  /** The value as written: the trailing comma after the storm winds' member makes
      its value the one-element tuple ("STORM_WINDS",). */
  function TypeValueAsWritten(t: CatastropheType): TypeValue {
    if t == StormWinds then List([t.Code()]) else Code(t.Code())
  }

  /** The storm winds' value is written as a list, which the web site cannot read
      as a type code; every other type is written as its code. */
  lemma StormWindsWrittenAsList(t: CatastropheType)
    ensures TypeValueAsWritten(StormWinds) == List(["STORM_WINDS"])
    ensures t != StormWinds ==> TypeValueAsWritten(t) == Code(t.Code())
  {
  }

  /** The value as intended: the type's code. */
  function TypeValueOf(t: CatastropheType): (v: TypeValue)
    ensures v.Code?
  {
    Code(t.Code())
  }

  /** The web site reads every type of the script back from its value. */
  lemma TypeValueRoundTrip(t: CatastropheType)
    requires ScriptType(t)
    ensures TypeOfCode(TypeValueOf(t).code) == t
  {
  }

  // ---------------------------------------------------------------------------
  // Records.

  /** An event record before grouping. */
  datatype Record = Record(
    id: string,
    location: seq<real>,
    city: Option<string>,
    kind: CatastropheType,
    date: Date,
    severity: Severity,
    locApprox: bool)

  /** The foreign readers the parsers call: `strptime` with a date-and-time format,
      `strptime` with a date format, and `float()`; `None` stands for the
      `ValueError` they raise. */
  datatype Readers = Readers(
    dateTime: string -> Option<DateTime>,
    date: string -> Option<Date>,
    float: string -> Option<real>)

  /** The filter shared by the civil-security records: the lower-cased label is a
      known event type and the severity reaches its threshold. */
  function Known(name: string, severity: Severity): (r: Option<EventType>)
    ensures r.Some? ==> ScriptType(r.value.kind) && SeverityLe(r.value.minSeverity, severity)
  {
    var e := EventTypes(ToLower(name));
    if e.Some? && SeverityLe(e.value.minSeverity, severity) then e else None
  }

  /** A feature of the pre-2020 file (its properties and its coordinates). */
  datatype OldFeature = OldFeature(
    noSeqObservation: string,
    dateObservation: string,
    typeLabel: string,
    severite: string,
    nom: string,
    imprecision: string,
    coordinates: seq<real>)

  /** One step of the loop of `parse_old_file`. */
  function OldRecord(f: OldFeature, readers: Readers): (r: Outcome<Record>)
    ensures r.Raised? <==> readers.dateTime(f.dateObservation).None?
    ensures r.Kept? <==>
      && readers.dateTime(f.dateObservation).Some?
      && readers.dateTime(f.dateObservation).value.date.year >= MIN_YEAR
      && Known(f.typeLabel, ParseOldSeverity(ToUpper(f.severite))).Some?
    ensures var e := Known(f.typeLabel, ParseOldSeverity(ToUpper(f.severite)));
      r.Kept? ==>
      && e.Some? && r.value.kind == e.value.kind
      && r.value.severity == ParseOldSeverity(ToUpper(f.severite))
      && r.value.location == f.coordinates && r.value.city == Some(f.nom)
      && r.value.locApprox == (f.imprecision == "localisation")
  {
    match readers.dateTime(f.dateObservation)
    case None => Raised("ValueError")
    case Some(t) =>
      if t.date.year < MIN_YEAR then Skipped
      else
        var severity := ParseOldSeverity(ToUpper(f.severite));
        match Known(f.typeLabel, severity)
        case None => Skipped
        case Some(e) =>
          Kept(Record(f.noSeqObservation, f.coordinates, Some(f.nom), e.kind, t.date, severity,
                      f.imprecision == "localisation"))
  }

  /** One step of the loop of `parse_new_file`, on a CSV row. A row without
      exactly 14 cells cannot be unpacked. The date is `date_debut`, or
      `date_signalement` when that is empty; the location is `[coord_x, coord_y]`. */
  function NewRecord(line: seq<string>, readers: Readers): (r: Outcome<Record>)
    ensures |line| != 14 ==> r.Raised?
    ensures r.Kept? ==>
      && |line| == 14
      && r.value.severity == ParseNewSeverity(line[6])
      && Known(line[1], r.value.severity).Some? && r.value.kind == Known(line[1], r.value.severity).value.kind
      && readers.date(if line[8] != "" then line[8] else line[7]) == Some(r.value.date)
      && r.value.id == line[0] + line[2] + DateStamp(r.value.date)
      && r.value.city == Some(line[3])
      && r.value.locApprox == (ToLower(line[4]) == "imprécise")
      && readers.float(line[12]).Some? && readers.float(line[13]).Some?
      && r.value.location == [readers.float(line[12]).value, readers.float(line[13]).value]
    ensures |line| == 14 && Known(line[1], ParseNewSeverity(line[6])).None? ==> r.Skipped?
  {
    if |line| != 14 then Raised("ValueError")
    else
      var severity := ParseNewSeverity(line[6]);
      match Known(line[1], severity)
      case None => Skipped
      case Some(e) =>
        match readers.date(if line[8] != "" then line[8] else line[7])
        case None => Raised("ValueError")
        case Some(d) =>
          var x := readers.float(line[12]);
          var y := readers.float(line[13]);
          if x.None? || y.None? then Raised("ValueError")
          else
            Kept(Record(line[0] + line[2] + DateStamp(d), [x.value, y.value], Some(line[3]), e.kind, d, severity,
                        ToLower(line[4]) == "imprécise"))
  }

  /** A record of the forest-fire shapefile. */
  datatype FireRecord = FireRecord(annee: int, dateDebut: Date, latitude: real, longitude: real, cle: int, supHa: real)

  /** The severity of a fire by its burnt area in hectares. */
  function FireSeverity(ha: real): (r: Severity)
    ensures r != Severity.Unknown
  {
    if ha < 100.0 then Minor
    else if ha < 1000.0 then Moderate
    else if ha < 10000.0 then Important
    else Extreme
  }

  /** A larger fire is never less severe, and a fire reaches Important exactly
      when it burnt at least 1000 ha. */
  lemma FireSeverityOrder(a: real, b: real)
    ensures a <= b ==> SeverityLe(FireSeverity(a), FireSeverity(b))
    ensures SeverityLe(Important, FireSeverity(a)) <==> a >= 1000.0
    ensures FireSeverity(a) != Severity.Unknown
  {
  }

  /** One step of the loop of `parse_shp`. */
  function Fire(record: FireRecord): (r: Outcome<Record>)
    ensures !r.Raised?
    ensures r.Kept? <==> record.annee >= MIN_YEAR && record.supHa >= 1000.0
    ensures r.Kept? ==> r.value == Record(IntToString(record.cle), [record.longitude, record.latitude], None,
                                          ForestFire, record.dateDebut, FireSeverity(record.supHa), false)
  {
    if record.annee >= MIN_YEAR then
      var severity := FireSeverity(record.supHa);
      FireSeverityOrder(record.supHa, record.supHa);
      if SeverityLe(Important, severity) then
        Kept(Record(IntToString(record.cle), [record.longitude, record.latitude], None,
                    ForestFire, record.dateDebut, severity, false))
      else Skipped
    else Skipped
  }

  /** `Severity(min(Severity.Extreme.value, duration - 2))`; `None` for the
      `ValueError` a negative value raises. */
  function HeatWaveSeverity(duration: int): (r: Option<Severity>)
    ensures r.Some? <==> duration >= 2
    ensures r.Some? ==> r.value.Value() == if duration - 2 < 4 then duration - 2 else 4
  {
    SeverityOfValue(if 4 < duration - 2 then 4 else duration - 2)
  }

  /** A heat wave is kept, at Important or more, exactly when it lasted at least
      five days. */
  lemma HeatWaveKept(duration: int)
    requires duration >= 2
    ensures SeverityLe(Important, HeatWaveSeverity(duration).value) <==> duration >= 5
  {
  }

  /** One step of the loop of `parse_heat_waves`, on a CSV row of six cells: name,
      station id, longitude, latitude, date and duration. The city is set only for
      a non-empty name. */
  function HeatWaveRecord(line: seq<string>, readers: Readers): (r: Outcome<Record>)
    ensures |line| != 6 ==> r.Raised?
    ensures |line| == 6 && readers.date(line[4]).Some? && PyInt(line[5]).Some? && PyInt(line[5]).value < 2 ==> r.Raised?
    ensures r.Kept? ==>
      && |line| == 6 && PyInt(line[5]).Some? && PyInt(line[5]).value >= 5
      && Some(r.value.severity) == HeatWaveSeverity(PyInt(line[5]).value)
      && readers.date(line[4]) == Some(r.value.date)
      && r.value.id == line[1] + "_" + DateStamp(r.value.date)
      && r.value.kind == CatastropheType.HeatWave && r.value.locApprox
      && (r.value.city.Some? <==> line[0] != "") && (line[0] != "" ==> r.value.city == Some(line[0]))
      && readers.float(line[2]).Some? && readers.float(line[3]).Some?
      && r.value.location == [readers.float(line[2]).value, readers.float(line[3]).value]
    ensures |line| == 6 && readers.date(line[4]).Some? && PyInt(line[5]).Some? && 2 <= PyInt(line[5]).value < 5 ==> r.Skipped?
  {
    if |line| != 6 then Raised("ValueError")
    else
      match readers.date(line[4])
      case None => Raised("ValueError")
      case Some(d) =>
        match PyInt(line[5])
        case None => Raised("ValueError")
        case Some(duration) =>
          match HeatWaveSeverity(duration)
          case None => Raised("ValueError")
          case Some(severity) =>
            HeatWaveKept(duration);
            if !SeverityLe(Important, severity) then Skipped
            else
              var lng := readers.float(line[2]);
              var lat := readers.float(line[3]);
              if lng.None? || lat.None? then Raised("ValueError")
              else
                Kept(Record(line[1] + "_" + DateStamp(d), [lng.value, lat.value],
                            if line[0] != "" then Some(line[0]) else None,
                            CatastropheType.HeatWave, d, severity, true))
  }

  /** The loop every `parse_*` function runs: each kept record is appended to
      `catastrophes`, in order, and a record that raises aborts the script. */
  method AppendRecords<A>(items: seq<A>, parse: A -> Outcome<Record>, catastrophes: seq<Record>)
    returns (result: Result<seq<Record>>)
    ensures result == Collect(catastrophes, items, parse)
  {
    var acc := catastrophes;
    var i := 0;
    while i < |items|
      invariant 0 <= i <= |items|
      invariant Collect(catastrophes, items, parse) == Collect(acc, items[i..], parse)
    {
      CollectStep(acc, items, parse, i);
      match parse(items[i]) {
        case Raised(e) => return Failed(e);
        case Kept(v) => acc := acc + [v];
        case Skipped =>
      }
      i := i + 1;
    }
    return Ok(acc);
  }

  /** The four sources in the order the script reads them, each loop appending to
      the list the previous ones filled, and none run once one has raised. */
  function AllRecords(before2020: seq<OldFeature>, since2020: seq<seq<string>>, fires: seq<FireRecord>,
                      heatWaves: seq<seq<string>>, readers: Readers): Result<seq<Record>>
  {
    var early := Collect([], before2020, f => OldRecord(f, readers));
    var recent := CollectAfter(early, since2020, l => NewRecord(l, readers));
    var burnt := CollectAfter(recent, fires, Fire);
    CollectAfter(burnt, heatWaves, l => HeatWaveRecord(l, readers))
  }

  /** The script's records: it gets past the four sources exactly when no row of
      any source raises, and then holds the kept records of the pre-2020 file, of
      the post-2020 file, of the fires and of the heat waves, each in its order;
      a failure carries the error of a row that raised. */
  lemma AllRecordsSpec(before2020: seq<OldFeature>, since2020: seq<seq<string>>, fires: seq<FireRecord>,
                       heatWaves: seq<seq<string>>, readers: Readers)
    ensures var oldRecord := f => OldRecord(f, readers);
      var newRecord := l => NewRecord(l, readers);
      var heatWave := l => HeatWaveRecord(l, readers);
      var r := AllRecords(before2020, since2020, fires, heatWaves, readers);
      && (r.Ok? <==> NoneRaised(before2020, oldRecord) && NoneRaised(since2020, newRecord)
                     && NoneRaised(fires, Fire) && NoneRaised(heatWaves, heatWave))
      && (r.Ok? ==> r.value == KeptValues(before2020, oldRecord) + KeptValues(since2020, newRecord)
                               + KeptValues(fires, Fire) + KeptValues(heatWaves, heatWave))
      && (r.Failed? ==> RaisedBy(before2020, oldRecord, r.error) || RaisedBy(since2020, newRecord, r.error)
                        || RaisedBy(fires, Fire, r.error) || RaisedBy(heatWaves, heatWave, r.error))
  {
    var oldRecord := f => OldRecord(f, readers);
    var newRecord := l => NewRecord(l, readers);
    var heatWave := l => HeatWaveRecord(l, readers);
    CollectFourSpec(before2020, oldRecord, since2020, newRecord, fires, Fire, heatWaves, heatWave);
  }

  // ---------------------------------------------------------------------------
  // Districts and grouping.

  /** The id of the first district, in the dictionary's order, whose shape contains
      the point; 0 when none does. */
  function FirstDistrict(keys: seq<int>, shapes: map<int, Geometry>, pt: Position,
                         contains: (Geometry, Position) -> bool): (id: int)
    requires forall i :: 0 <= i < |keys| ==> keys[i] in shapes
    ensures id == 0 || id in keys
    ensures id != 0 ==> Contains(shapes[id], pt, contains)
    ensures (forall i :: 0 <= i < |keys| ==> !Contains(shapes[keys[i]], pt, contains)) ==> id == 0
  {
    if keys == [] then 0
    else if Contains(shapes[keys[0]], pt, contains) then keys[0]
    else FirstDistrict(keys[1..], shapes, pt, contains)
  }

  /** No key before position `k` has a shape containing the point. */
  predicate NoneBefore(keys: seq<int>, shapes: map<int, Geometry>, pt: Position,
                       contains: (Geometry, Position) -> bool, k: nat)
    requires k <= |keys| && forall i :: 0 <= i < |keys| ==> keys[i] in shapes
  {
    forall j :: 0 <= j < k ==> !Contains(shapes[keys[j]], pt, contains)
  }

  /** The district found is the first key whose shape contains the point: a
      non-zero result is a key with no containing key before it, and the first
      containing key, if there is one, is the result. */
  lemma FirstDistrictIsFirst(keys: seq<int>, shapes: map<int, Geometry>, pt: Position,
                             contains: (Geometry, Position) -> bool)
    requires forall i :: 0 <= i < |keys| ==> keys[i] in shapes
    ensures var id := FirstDistrict(keys, shapes, pt, contains);
      && (id != 0 ==> exists k :: 0 <= k < |keys| && keys[k] == id && NoneBefore(keys, shapes, pt, contains, k))
      && (forall k ::
            0 <= k < |keys| && Contains(shapes[keys[k]], pt, contains) && NoneBefore(keys, shapes, pt, contains, k)
            ==> id == keys[k])
  {
    var id := FirstDistrict(keys, shapes, pt, contains);
    if id != 0 {
      FirstDistrictPosition(keys, shapes, pt, contains);
    }
    forall k | 0 <= k < |keys| && Contains(shapes[keys[k]], pt, contains) && NoneBefore(keys, shapes, pt, contains, k)
      ensures id == keys[k]
    {
      FirstDistrictFirstHit(keys, shapes, pt, contains, k);
    }
  }

  /** A non-zero district is at a position with no containing key before it. */
  lemma {:induction false} FirstDistrictPosition(keys: seq<int>, shapes: map<int, Geometry>, pt: Position,
                                                 contains: (Geometry, Position) -> bool)
    requires forall i :: 0 <= i < |keys| ==> keys[i] in shapes
    requires FirstDistrict(keys, shapes, pt, contains) != 0
    ensures exists k ::
      0 <= k < |keys| && keys[k] == FirstDistrict(keys, shapes, pt, contains) && NoneBefore(keys, shapes, pt, contains, k)
  {
    if Contains(shapes[keys[0]], pt, contains) {
      assert NoneBefore(keys, shapes, pt, contains, 0);
    } else {
      var rest := keys[1..];
      FirstDistrictPosition(rest, shapes, pt, contains);
      var k :| 0 <= k < |rest| && rest[k] == FirstDistrict(rest, shapes, pt, contains) &&
        NoneBefore(rest, shapes, pt, contains, k);
      assert keys[k + 1] == rest[k];
      assert NoneBefore(keys, shapes, pt, contains, k + 1) by {
        forall j | 0 <= j < k + 1 ensures !Contains(shapes[keys[j]], pt, contains) {
          if j > 0 { assert keys[j] == rest[j - 1]; }
        }
      }
    }
  }

  /** The first key whose shape contains the point is the district found. */
  lemma {:induction false} FirstDistrictFirstHit(keys: seq<int>, shapes: map<int, Geometry>, pt: Position,
                                                 contains: (Geometry, Position) -> bool, k: nat)
    requires forall i :: 0 <= i < |keys| ==> keys[i] in shapes
    requires k < |keys| && Contains(shapes[keys[k]], pt, contains) && NoneBefore(keys, shapes, pt, contains, k)
    ensures FirstDistrict(keys, shapes, pt, contains) == keys[k]
  {
    if k > 0 {
      var rest := keys[1..];
      assert !Contains(shapes[keys[0]], pt, contains);
      assert rest[k - 1] == keys[k];
      assert NoneBefore(rest, shapes, pt, contains, k - 1) by {
        forall j | 0 <= j < k - 1 ensures !Contains(shapes[rest[j]], pt, contains) {
          assert rest[j] == keys[j + 1];
        }
      }
      FirstDistrictFirstHit(rest, shapes, pt, contains, k - 1);
    }
  }

  /** The inner loop over `district_shapes.items()`, stopped at the first hit. */
  method FindDistrict(districts: Dict<int, Geometry>, pt: Position, contains: (Geometry, Position) -> bool)
    returns (id: int)
    requires districts.Valid()
    ensures id == FirstDistrict(districts.keys, districts.entries, pt, contains)
  {
    assert forall i :: 0 <= i < |districts.keys| ==> districts.keys[i] in districts.entries;
    id := 0;
    var i := 0;
    while i < |districts.keys|
      invariant 0 <= i <= |districts.keys|
      invariant FirstDistrict(districts.keys, districts.entries, pt, contains)
             == FirstDistrict(districts.keys[i..], districts.entries, pt, contains)
    {
      var key := districts.keys[i];
      assert districts.keys[i..][1..] == districts.keys[i + 1..];
      var hit := ContainsPoint(districts.entries[key], pt, contains);
      if hit {
        id := key;
        break;
      }
      i := i + 1;
    }
  }

  /** An event as the output file holds it. */
  datatype Output = Output(
    id: string,
    location: seq<real>,
    kind: TypeValue,
    date: string,
    severity: nat,
    district: int,
    locApprox: bool,
    city: Option<string>)

  /** The output object of a record in a district. */
  function OutputOf(c: Record, district: int): (r: Output)
    ensures r.kind.Code? && r.severity <= 4 && r.district == district
  {
    Output(c.id, c.location, TypeValueOf(c.kind), IsoDate(c.date), c.severity.Value(), district, c.locApprox, c.city)
  }

  /** The output object of a record, with its district. */
  function Tagged(c: Record, districts: Dict<int, Geometry>, contains: (Geometry, Position) -> bool): (r: Output)
    requires districts.Valid()
    ensures r.district == 0 || r.district in districts.keys
    ensures r.district != 0 ==> r.district in districts.entries && Contains(districts.entries[r.district], c.location, contains)
  {
    assert forall i :: 0 <= i < |districts.keys| ==> districts.keys[i] in districts.entries;
    OutputOf(c, FirstDistrict(districts.keys, districts.entries, c.location, contains))
  }

  /** The key a record is grouped under: `str(date.year)`. */
  function YearText(c: Record): string {
    NatToString(c.date.year)
  }

  /** The sort key of a record: its date. */
  function DateOf(c: Record): int {
    DateKey(c.date)
  }

  /** One step of the final loop: the record tagged with the district found for it
      is appended to the list of its year. */
  lemma GroupByYearStep(sorted: seq<Record>, districts: Dict<int, Geometry>, contains: (Geometry, Position) -> bool,
                        i: nat, district: int)
    requires districts.Valid() && i < |sorted|
    requires district == FirstDistrict(districts.keys, districts.entries, sorted[i].location, contains)
    ensures GroupBy(sorted[..i + 1], YearText, c => Tagged(c, districts, contains))
         == Append(GroupBy(sorted[..i], YearText, c => Tagged(c, districts, contains)),
                   YearText(sorted[i]), OutputOf(sorted[i], district))
  {
    assert OutputOf(sorted[i], district) == Tagged(sorted[i], districts, contains);
    GroupByStep(sorted, YearText, c => Tagged(c, districts, contains), i);
  }

  /** The final loop: the records, sorted by date, each tagged with its district
      and appended to the list of its year. */
  method GroupByYear(catastrophes: seq<Record>, districts: Dict<int, Geometry>,
                     contains: (Geometry, Position) -> bool)
    returns (result: Dict<string, seq<Output>>)
    requires districts.Valid()
    ensures result == GroupBy(SortBy(catastrophes, DateOf), YearText, c => Tagged(c, districts, contains))
  {
    var sorted := SortBy(catastrophes, DateOf);
    result := Empty();
    var i := 0;
    while i < |sorted|
      invariant 0 <= i <= |sorted|
      invariant result == GroupBy(sorted[..i], YearText, c => Tagged(c, districts, contains))
    {
      var c := sorted[i];
      var district := FindDistrict(districts, c.location, contains);
      var obj := OutputOf(c, district);
      GroupByYearStep(sorted, districts, contains, i, district);
      result := Append(result, YearText(c), obj);
      i := i + 1;
    }
    assert sorted[..i] == sorted;
  }

  /** Two records share a year key exactly when they share a year. */
  lemma YearTextMeansYear(c: Record, year: nat)
    ensures YearText(c) == NatToString(year) <==> c.date.year == year
  {
    if YearText(c) == NatToString(year) {
      NatToStringRoundTrip(c.date.year);
      NatToStringRoundTrip(year);
    }
  }

  /** The records of one year, in their sorted order. */
  function OfYear(sorted: seq<Record>, year: nat): seq<Record> {
    Filter(sorted, KeyIs(YearText, NatToString(year)))
  }

  /** The records of a year, taken from the sorted list, are in non-decreasing date
      order and are exactly the input's records of that year. */
  lemma OfYearSpec(catastrophes: seq<Record>, year: nat)
    ensures var ofYear := OfYear(SortBy(catastrophes, DateOf), year);
      && SortedBy(ofYear, DateOf)
      && (forall c :: c in ofYear ==> c in catastrophes && c.date.year == year)
      && (forall c :: c in catastrophes && c.date.year == year ==> c in ofYear)
  {
    var sorted := SortBy(catastrophes, DateOf);
    var p := KeyIs(YearText, NatToString(year));
    SortByIsSorted(catastrophes, DateOf);
    FilterSortedBy(sorted, DateOf, p);
    FilterMembers(sorted, p);
    SortByMembers(catastrophes, DateOf);
    forall c: Record ensures p(c) <==> c.date.year == year {
      YearTextMeansYear(c, year);
    }
  }

  /** Sorting keeps the members. */
  lemma SortByMembers<T>(s: seq<T>, key: T -> int)
    ensures forall x :: x in SortBy(s, key) <==> x in s
  {
    var r := SortBy(s, key);
    forall x ensures x in r <==> x in s {
      assert x in r <==> x in multiset(r);
      assert x in s <==> x in multiset(s);
    }
  }

  /** Each year appears in the output exactly when some record has that year. */
  lemma GroupByYearKeys(catastrophes: seq<Record>, tag: Record -> Output, year: nat)
    ensures var result := GroupBy(SortBy(catastrophes, DateOf), YearText, tag);
      && result.Valid()
      && (NatToString(year) in result.entries <==> exists c :: c in catastrophes && c.date.year == year)
  {
    var sorted := SortBy(catastrophes, DateOf);
    var key := NatToString(year);
    GroupByKeys(sorted, YearText, tag, key);
    SortByMembers(catastrophes, DateOf);
    if exists i :: 0 <= i < |sorted| && YearText(sorted[i]) == key {
      var i :| 0 <= i < |sorted| && YearText(sorted[i]) == key;
      YearTextMeansYear(sorted[i], year);
    }
    if exists c :: c in catastrophes && c.date.year == year {
      var c :| c in catastrophes && c.date.year == year;
      var i :| 0 <= i < |sorted| && sorted[i] == c;
      YearTextMeansYear(c, year);
    }
  }

  /** A year's list holds the output objects (`tag`, the district tagging) of the
      records of that year, in their sorted order. */
  lemma GroupByYearLists(catastrophes: seq<Record>, tag: Record -> Output, year: nat)
    ensures var sorted := SortBy(catastrophes, DateOf);
      var result := GroupBy(sorted, YearText, tag);
      NatToString(year) in result.entries ==> result.entries[NatToString(year)] == Map(OfYear(sorted, year), tag)
  {
    var sorted := SortBy(catastrophes, DateOf);
    var key := NatToString(year);
    GroupByValues(sorted, YearText, tag, key);
  }
}
