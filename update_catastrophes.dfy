/** The script that rebuilds the events file from the two civil-security record
    files (tools/update_catastrophes.py): the municipalities table gives the
    position of each old record, and every record of a known type and enough
    severity is kept, old records first. */
module UpdateCatastrophes {
  import opened Common
  import opened Text
  import opened Catastrophes
  import opened PyDict
  import opened Dates
  import opened SeverityText

  // ---------------------------------------------------------------------------
  // Municipalities.

  /** The sign `convert_lat_lon` applies for a direction: negative exactly for west
      (`O`, ouest) and south. */
  function DirectionSign(direction: string): (sign: real)
    ensures sign == -1.0 || sign == 1.0
    ensures sign == -1.0 <==> Strip(direction) == "O" || Strip(direction) == "S"
  {
    if Strip(direction) == "O" || Strip(direction) == "S" then -1.0 else 1.0
  }

  /** `convert_lat_lon`, given the degrees-minutes-seconds reader `dms` that splits
      the text into its unsigned value and its direction (`None` for the
      `ValueError` of a text that does not split into four parts). */
  function ConvertLatLon(text: string, dms: string -> Option<(real, string)>): (r: Option<real>)
    ensures r.Some? <==> dms(text).Some?
    ensures r.Some? && dms(text).value.0 >= 0.0 ==>
      && (r.value <= 0.0 <==> Strip(dms(text).value.1) == "O" || Strip(dms(text).value.1) == "S" || dms(text).value.0 == 0.0)
      && (r.value == dms(text).value.0 || r.value == -dms(text).value.0)
  {
    match dms(text)
    case None => None
    case Some((magnitude, direction)) => Some(magnitude * DirectionSign(direction))
  }

  /** A `Municipalite` element: the texts of its code, latitude and longitude
      children, `None` for a missing child. */
  datatype City = City(code: Option<string>, latitude: Option<string>, longitude: Option<string>)

  /** A child text Python counts as true: present and not empty. */
  predicate Truthy(text: Option<string>) {
    text.Some? && text.value != ""
  }

  /** One step of the loop of `load_cities`. */
  function CityEntry(city: City, dms: string -> Option<(real, string)>): (r: Outcome<(string, seq<real>)>)
    ensures r.Skipped? <==> !(Truthy(city.code) && Truthy(city.latitude) && Truthy(city.longitude))
    ensures r.Kept? ==>
      && Truthy(city.code) && r.value.0 == city.code.value
      && ConvertLatLon(city.latitude.value, dms).Some? && ConvertLatLon(city.longitude.value, dms).Some?
      && r.value.1 == [ConvertLatLon(city.latitude.value, dms).value, ConvertLatLon(city.longitude.value, dms).value]
  {
    if Truthy(city.code) && Truthy(city.latitude) && Truthy(city.longitude) then
      var lat := ConvertLatLon(city.latitude.value, dms);
      var lng := ConvertLatLon(city.longitude.value, dms);
      if lat.None? || lng.None? then Raised("ValueError")
      else Kept((city.code.value, [lat.value, lng.value]))
    else Skipped
  }

  /** `load_cities`: the table of every municipality with a code and both
      coordinates, a later element with the same code replacing an earlier one. */
  method LoadCities(cities: seq<City>, dms: string -> Option<(real, string)>)
    returns (result: Result<Dict<string, seq<real>>>)
    ensures Collect([], cities, c => CityEntry(c, dms)).Failed? ==> result.Failed?
    ensures Collect([], cities, c => CityEntry(c, dms)).Ok? ==>
      result == Ok(PutAll(Empty(), Collect([], cities, c => CityEntry(c, dms)).value))
  {
    result := FillDict(cities, c => CityEntry(c, dms));
  }

  /** Whether a municipality has the code and both coordinates. */
  predicate Listed(city: City, code: string) {
    Truthy(city.code) && city.code.value == code && Truthy(city.latitude) && Truthy(city.longitude)
  }

  /** A code is in the table exactly when some municipality is listed with it, and
      it holds the position of the last such municipality. */
  lemma CitiesTable(cities: seq<City>, dms: string -> Option<(real, string)>, code: string)
    requires Collect([], cities, c => CityEntry(c, dms)).Ok?
    ensures var items := Collect([], cities, c => CityEntry(c, dms)).value;
      var table := PutAll(Empty(), items);
      && table.Valid()
      && (code in table.entries <==> exists i :: 0 <= i < |cities| && Listed(cities[i], code))
      && (code in table.entries ==> 0 <= LastIndex(items, code) && table.entries[code] == items[LastIndex(items, code)].1)
  {
    var items := Collect([], cities, c => CityEntry(c, dms)).value;
    PutAllKeys(items, code);
    CollectedKeys(cities, c => CityEntry(c, dms), code);
    CollectSpec([], cities, c => CityEntry(c, dms));
    if exists i :: 0 <= i < |cities| && Listed(cities[i], code) {
      var i :| 0 <= i < |cities| && Listed(cities[i], code);
      assert !CityEntry(cities[i], dms).Raised?;
    }
  }

  // ---------------------------------------------------------------------------
  // Event types.

  /** An entry of this script's `event_types`. */
  datatype EventType = EventType(kind: CatastropheType, minSeverity: Severity)

  /** This script's `event_types.get(name)`: seven labels, spelt as the record
      files spell them (`orages violents`, `feu de forêts`). */
  function EventTypes(name: string): (r: Option<EventType>)
    ensures r.Some? ==> r.value.kind.InEnum()
  {
    if name == "inondation" then Some(EventType(Flood, Important))
    else if name == "tornade" then Some(EventType(Tornado, Minor))
    else if name == "orages violents" then Some(EventType(ViolentStorm, Important))
    else if name == "pluie verglaçante" then Some(EventType(FreezingRain, Extreme))
    else if name == "feu de forêts" then Some(EventType(ForestFire, Important))
    else if name == "tempête hivernale" then Some(EventType(WinterStorm, Extreme))
    else if name == "vent de tempête" then Some(EventType(StormWinds, Important))
    else None
  }

  /** Every label maps to one of the seven named types of the script, each written
      as its own code, with a threshold of at least Minor. */
  lemma EventTypesRange(name: string)
    ensures EventTypes(name).Some? ==>
      && EventTypes(name).value.kind.InEnum()
      && EventTypes(name).value.kind !in {CatastropheType.HeatWave, Ticks, CatastropheType.Unknown}
      && TypeOfCode(EventTypes(name).value.kind.Code()) == EventTypes(name).value.kind
      && SeverityLe(Minor, EventTypes(name).value.minSeverity)
  {
  }

  /** The lower-cased label is a known type and the severity reaches its threshold. */
  function Known(name: string, severity: Severity): (r: Option<EventType>)
    ensures r.Some? <==> EventTypes(ToLower(name)).Some? && SeverityLe(EventTypes(ToLower(name)).value.minSeverity, severity)
    ensures r.Some? ==> r == EventTypes(ToLower(name))
  {
    var e := EventTypes(ToLower(name));
    if e.Some? && SeverityLe(e.value.minSeverity, severity) then e else None
  }

  // ---------------------------------------------------------------------------
  // Records.

  /** An event of the output file. */
  datatype Event = Event(location: seq<real>, description: string, kind: string, date: string, severity: nat)

  /** `strptime` with the date format of the new file and with the date-and-time
      format of the old file; `None` for the `ValueError` they raise. `float()`
      likewise. */
  datatype Readers = Readers(
    date: string -> Option<Date>,
    dateTime: string -> Option<DateTime>,
    float: string -> Option<real>)

  /** `parse_new_line`, on a row of the new file: 14 cells, a known type label in
      the second one, the severity read from the alert text, the date from
      `date_debut` or, when that is empty, `date_signalement`, and the location
      `[coord_y, coord_x]`. */
  function NewLine(line: seq<string>, readers: Readers): (r: Outcome<Event>)
    ensures |line| != 14 ==> r.Raised?
    ensures |line| == 14 && Known(line[1], ParseNewSeverity(line[6])).None? ==> r.Skipped?
    ensures r.Skipped? ==> |line| == 14 && Known(line[1], ParseNewSeverity(line[6])).None?
    ensures r.Kept? ==>
      && |line| == 14
      && Known(line[1], ParseNewSeverity(line[6])).Some?
      && r.value.kind == Known(line[1], ParseNewSeverity(line[6])).value.kind.Code()
      && r.value.severity == ParseNewSeverity(line[6]).Value()
      && r.value.description == line[1]
      && (var d := readers.date(if line[8] != "" then line[8] else line[7]);
          d.Some? && r.value.date == IsoDateTime(DateTime(d.value, 0, 0, 0)))
      && readers.float(line[13]).Some? && readers.float(line[12]).Some?
      && r.value.location == [readers.float(line[13]).value, readers.float(line[12]).value]
  {
    if |line| != 14 then Raised("ValueError")
    else
      var severity := ParseNewSeverity(line[6]);
      match Known(line[1], severity)
      case None => Skipped
      case Some(e) =>
        match readers.date(if line[8] != "" then line[8] else line[7])
        case None => Raised("ValueError")
        case Some(d) =>
          var y := readers.float(line[13]);
          var x := readers.float(line[12]);
          if y.None? || x.None? then Raised("ValueError")
          else Kept(Event([y.value, x.value], line[1], e.kind.Code(), IsoDateTime(DateTime(d, 0, 0, 0)), severity.Value()))
  }

  /** `parse_old_line`, on a row of the old file: 11 cells, a known type label in the
      eighth, the severity read from the upper-cased ninth, an observation date
      after the year 2000, and a municipality code found in `cities`. */
  function OldLine(line: seq<string>, cities: Dict<string, seq<real>>, readers: Readers): (r: Outcome<Event>)
    ensures |line| != 11 ==> r.Raised?
    ensures r.Kept? ==>
      && |line| == 11
      && Known(line[7], ParseOldSeverity(ToUpper(line[8]))).Some?
      && r.value.kind == Known(line[7], ParseOldSeverity(ToUpper(line[8]))).value.kind.Code()
      && r.value.severity == ParseOldSeverity(ToUpper(line[8])).Value()
      && r.value.description == line[7]
      && readers.dateTime(line[2]).Some? && readers.dateTime(line[2]).value.date.year > 2000
      && r.value.date == IsoDateTime(readers.dateTime(line[2]).value)
      && line[3] in cities.entries && r.value.location == cities.entries[line[3]] && r.value.location != []
    ensures (|line| == 11 && Known(line[7], ParseOldSeverity(ToUpper(line[8]))).Some?
             && readers.dateTime(line[2]).Some?) ==>
      (r.Kept? <==> readers.dateTime(line[2]).value.date.year > 2000 && line[3] in cities.entries && cities.entries[line[3]] != [])
    ensures |line| == 11 && Known(line[7], ParseOldSeverity(ToUpper(line[8]))).None? ==> r.Skipped?
  {
    if |line| != 11 then Raised("ValueError")
    else
      var severity := ParseOldSeverity(ToUpper(line[8]));
      match Known(line[7], severity)
      case None => Skipped
      case Some(e) =>
        match readers.dateTime(line[2])
        case None => Raised("ValueError")
        case Some(t) =>
          if t.date.year <= 2000 then Skipped
          else if line[3] !in cities.entries || cities.entries[line[3]] == [] then Skipped
          else Kept(Event(cities.entries[line[3]], line[7], e.kind.Code(), IsoDateTime(t), severity.Value()))
  }


  /** `parse_file`: every row after the header goes through the parser, and the
      records it gives are appended, in file order. */
  method ParseFile<A>(rows: seq<A>, catastrophes: seq<Event>, parser: A -> Outcome<Event>)
    returns (result: Result<seq<Event>>)
    ensures result == Collect(catastrophes, Body(rows), parser)
  {
    if rows == [] {
      return Ok(catastrophes);
    }
    var acc := catastrophes;
    var i := 1;
    assert rows[1..][0..] == rows[1..];
    while i < |rows|
      invariant 1 <= i <= |rows|
      invariant Collect(catastrophes, Body(rows), parser) == Collect(acc, rows[i..], parser)
    {
      CollectStep(acc, rows, parser, i);
      match parser(rows[i]) {
        case Raised(e) => return Failed(e);
        case Kept(v) => acc := acc + [v];
        case Skipped =>
      }
      i := i + 1;
    }
    return Ok(acc);
  }

  /** The script's two calls: the old file, then the new one. */
  function UpdateAll(oldRows: seq<seq<string>>, newRows: seq<seq<string>>, cities: Dict<string, seq<real>>,
                     readers: Readers): (r: Result<seq<Event>>)
    ensures r.Failed? ==>
      || (exists i :: 0 <= i < |Body(oldRows)| && OldLine(Body(oldRows)[i], cities, readers) == Raised(r.error))
      || (exists i :: 0 <= i < |Body(newRows)| && NewLine(Body(newRows)[i], readers) == Raised(r.error))
  {
    CollectSpec([], Body(oldRows), l => OldLine(l, cities, readers));
    match Collect([], Body(oldRows), l => OldLine(l, cities, readers))
    case Failed(e) => Failed(e)
    case Ok(before) =>
      CollectSpec(before, Body(newRows), l => NewLine(l, readers));
      Collect(before, Body(newRows), l => NewLine(l, readers))
  }

  /** When no row raises, the events file holds the kept old records, in file
      order, followed by the kept new records, in file order; a raising row of
      either file aborts the script. */
  lemma UpdateAllSpec(oldRows: seq<seq<string>>, newRows: seq<seq<string>>, cities: Dict<string, seq<real>>,
                      readers: Readers)
    ensures var oldLine := l => OldLine(l, cities, readers);
      var newLine := l => NewLine(l, readers);
      var r := UpdateAll(oldRows, newRows, cities, readers);
      && (r.Ok? <==> ((forall i :: 0 <= i < |Body(oldRows)| ==> !oldLine(Body(oldRows)[i]).Raised?)
                   && (forall i :: 0 <= i < |Body(newRows)| ==> !newLine(Body(newRows)[i]).Raised?)))
      && (r.Ok? ==> r.value == KeptValues(Body(oldRows), oldLine) + KeptValues(Body(newRows), newLine))
  {
    var oldLine := l => OldLine(l, cities, readers);
    var newLine := l => NewLine(l, readers);
    CollectThenSpec(Body(oldRows), oldLine, Body(newRows), newLine);
  }
}
