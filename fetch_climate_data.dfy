/** The script that lists the Quebec climate stations and finds the heat waves in
    their daily readings (tools/fetch_climate_data.py): a heat wave is a run of at
    least three consecutive days at 30 degrees or more. */
module FetchClimateData {
  import opened Common
  import opened Text
  import opened Seqs
  import opened PyDict
  import opened Dates
  import opened ToolsUtils

  // ---------------------------------------------------------------------------
  // Stations.

  /** A station of the list, as the script keeps it. */
  datatype Station = Station(name: string, loc: seq<real>, start: int, end: int)

  /** The position of the first municipality whose normalised name starts the
      lower-cased station name, or -1. */
  function FirstCity(cities: seq<(string, string)>, name: string): (k: int)
    ensures -1 <= k < |cities|
    ensures k >= 0 ==> StartsWith(name, cities[k].0)
    ensures forall j :: 0 <= j < |cities| && (k < 0 || j < k) ==> !StartsWith(name, cities[j].0)
  {
    if cities == [] then -1
    else if StartsWith(name, cities[0].0) then 0
    else
      var k := FirstCity(cities[1..], name);
      if k < 0 then -1 else k + 1
  }

  /** `next((x[1] for x in cities if raw_name.lower().startswith(x[0])), '')`. */
  function CityName(cities: seq<(string, string)>, rawName: string): (r: string)
    ensures r != "" ==> exists k :: 0 <= k < |cities| && StartsWith(ToLower(rawName), cities[k].0) && r == cities[k].1
    ensures (forall j :: 0 <= j < |cities| ==> !StartsWith(ToLower(rawName), cities[j].0)) ==> r == ""
  {
    var k := FirstCity(cities, ToLower(rawName));
    if k < 0 then "" else cities[k].1
  }

  /** One step of the loop over the station list, on a row of 16 cells: a station
      of another province, without both daily years, or whose last daily year is
      before the first year kept, is skipped. */
  function StationEntry(line: seq<string>, cities: seq<(string, string)>, float: string -> Option<real>)
    : (r: Outcome<(string, Station)>)
    ensures |line| != 16 ==> r.Raised?
    ensures |line| == 16 && (line[1] != "QUEBEC" || line[12] == "" || line[13] == "") ==> r.Skipped?
    ensures (&& |line| == 16 && line[1] == "QUEBEC" && line[12] != "" && line[13] != ""
             && PyInt(line[13]).Some? && PyInt(line[13]).value < MIN_YEAR) ==> r.Skipped?
    ensures r.Kept? ==>
      && |line| == 16 && line[1] == "QUEBEC" && line[12] != "" && line[13] != ""
      && PyInt(line[12]).Some? && PyInt(line[13]).Some? && PyInt(line[13]).value >= MIN_YEAR
      && r.value.0 == line[5]
      && r.value.1.name == CityName(cities, line[0])
      && float(line[3]).Some? && float(line[2]).Some? && r.value.1.loc == [float(line[3]).value, float(line[2]).value]
      && r.value.1.start >= MIN_YEAR && r.value.1.start >= PyInt(line[12]).value
      && (r.value.1.start == MIN_YEAR || r.value.1.start == PyInt(line[12]).value)
      && r.value.1.end == PyInt(line[13]).value
  {
    if |line| != 16 then Raised("ValueError")
    else if line[1] != "QUEBEC" then Skipped
    else if line[12] == "" || line[13] == "" then Skipped
    else
      match PyInt(line[13])
      case None => Raised("ValueError")
      case Some(last) =>
        if last < MIN_YEAR then Skipped
        else
          var lng := float(line[3]);
          var lat := float(line[2]);
          var first := PyInt(line[12]);
          if lng.None? || lat.None? || first.None? then Raised("ValueError")
          else
            Kept((line[5], Station(CityName(cities, line[0]), [lng.value, lat.value],
                                   if first.value < MIN_YEAR then MIN_YEAR else first.value, last)))
  }

  /** The loop that fills `stations`, keyed by climate id, over the rows after the
      header; a later row with the same id replaces an earlier one. */
  method LoadStations(rows: seq<seq<string>>, cities: seq<(string, string)>, float: string -> Option<real>)
    returns (result: Result<Dict<string, Station>>)
    ensures var items := Collect([], Body(rows), l => StationEntry(l, cities, float));
      && (items.Failed? ==> result.Failed?)
      && (items.Ok? ==> result == Ok(PutAll(Empty(), items.value)))
  {
    result := FillDict(Body(rows), l => StationEntry(l, cities, float));
  }


  // ---------------------------------------------------------------------------
  // Readings.

  /** A daily reading: its date and its maximum temperature. */
  datatype Reading = Reading(date: Date, maxTemp: real)

  /** The foreign readers: `datetime(year, month, day)` (`None` for the
      `ValueError` of an invalid date), `date.toordinal()` and `float()`. */
  datatype Readers = Readers(
    makeDate: (int, int, int) -> Option<Date>,
    ordinal: Date -> int,
    float: string -> Option<real>)

  /** One step of the loop over a station's file, on a row of 31 cells: a row
      without a maximum temperature is dropped. */
  function ReadingEntry(line: seq<string>, readers: Readers): (r: Outcome<Reading>)
    ensures |line| != 31 ==> r.Raised?
    ensures |line| == 31 && line[9] == "" ==> r.Skipped?
    ensures r.Skipped? ==> |line| == 31 && line[9] == ""
    ensures r.Kept? ==>
      && |line| == 31 && PyInt(line[5]).Some? && PyInt(line[6]).Some? && PyInt(line[7]).Some?
      && readers.makeDate(PyInt(line[5]).value, PyInt(line[6]).value, PyInt(line[7]).value) == Some(r.value.date)
      && readers.float(line[9]) == Some(r.value.maxTemp)
  {
    if |line| != 31 then Raised("ValueError")
    else if line[9] == "" then Skipped
    else
      var year := PyInt(line[5]);
      var month := PyInt(line[6]);
      var day := PyInt(line[7]);
      if year.None? || month.None? || day.None? then Raised("ValueError")
      else
        match readers.makeDate(year.value, month.value, day.value)
        case None => Raised("ValueError")
        case Some(date) =>
          match readers.float(line[9])
          case None => Raised("ValueError")
          case Some(t) => Kept(Reading(date, t))
  }

  /** The sort key of a reading: its date. */
  function ReadingDate(x: Reading): int {
    DateKey(x.date)
  }

  // ---------------------------------------------------------------------------
  // Heat waves.

  /** A heat wave: the date of its first counted reading and its length. */
  datatype Wave = Wave(start: Date, length: nat)

  /** `abs(a - b)`. */
  function Distance(a: int, b: int): nat {
    if a < b then b - a else a - b
  }

  /** Whether reading `i` extends a run: it is not the first reading, it is at most
      one day after the previous one (the same day included), and it reached 30
      degrees. */
  predicate Counts(r: seq<Reading>, ordinal: Date -> int, i: int) {
    1 <= i < |r| && Distance(ordinal(r[i - 1].date), ordinal(r[i].date)) <= 1 && r[i].maxTemp >= 30.0
  }

  /** The number of counting readings from `j` on, up to the first that does not
      count. */
  function RunLength(r: seq<Reading>, ordinal: Date -> int, j: nat): nat
    decreases |r| - j
  {
    if j < |r| && Counts(r, ordinal, j) then 1 + RunLength(r, ordinal, j + 1) else 0
  }

  /** The number of counting readings just before `i`. */
  function BackRun(r: seq<Reading>, ordinal: Date -> int, i: nat): nat {
    if i >= 1 && Counts(r, ordinal, i - 1) then 1 + BackRun(r, ordinal, i - 1) else 0
  }

  /** Reading `j` counts and the one before it does not: a run starts there. */
  predicate RunStart(r: seq<Reading>, ordinal: Date -> int, j: int) {
    Counts(r, ordinal, j) && !Counts(r, ordinal, j - 1)
  }

  /** The heat wave starting at reading `j`, if a run of at least three starts there. */
  function WaveAt(r: seq<Reading>, ordinal: Date -> int, j: nat): seq<Wave> {
    if j < |r| && RunStart(r, ordinal, j) && RunLength(r, ordinal, j) >= 3
    then [Wave(r[j].date, RunLength(r, ordinal, j))]
    else []
  }

  /** The heat waves starting at readings `a` to `b - 1`, in order. */
  function WavesBetween(r: seq<Reading>, ordinal: Date -> int, a: nat, b: nat): seq<Wave>
    decreases b
  {
    if b <= a then [] else WavesBetween(r, ordinal, a, b - 1) + WaveAt(r, ordinal, b - 1)
  }

  /** The heat waves of a series of readings: every maximal run of at least three
      counting readings, in the order of the readings. */
  function HeatWaves(r: seq<Reading>, ordinal: Date -> int): seq<Wave> {
    WavesBetween(r, ordinal, 1, |r|)
  }

  /** The run just before `i` starts at `i - BackRun`, and all of it counts. */
  lemma {:induction false} BackRunStart(r: seq<Reading>, ordinal: Date -> int, i: nat)
    requires BackRun(r, ordinal, i) > 0
    ensures var j := i - BackRun(r, ordinal, i);
      && 1 <= j && RunStart(r, ordinal, j)
      && forall k :: j <= k < i ==> Counts(r, ordinal, k)
  {
    if BackRun(r, ordinal, i - 1) > 0 {
      BackRunStart(r, ordinal, i - 1);
    }
  }

  /** A run of counting readings from `j` up to `e`, closed at `e`, has length
      `e - j`. */
  lemma {:induction false} RunLengthClosed(r: seq<Reading>, ordinal: Date -> int, j: nat, e: nat)
    requires j <= e <= |r|
    requires forall k :: j <= k < e ==> Counts(r, ordinal, k)
    requires e == |r| || !Counts(r, ordinal, e)
    ensures RunLength(r, ordinal, j) == e - j
    decreases e - j
  {
    if j < e {
      RunLengthClosed(r, ordinal, j + 1, e);
    }
  }

  /** No wave starts in `[b, c)` means the waves up to `c` are those up to `b`. */
  lemma {:induction false} WavesSkip(r: seq<Reading>, ordinal: Date -> int, a: nat, b: nat, c: nat)
    requires a <= b <= c
    requires forall k :: b <= k < c ==> WaveAt(r, ordinal, k) == []
    ensures WavesBetween(r, ordinal, a, c) == WavesBetween(r, ordinal, a, b)
    decreases c
  {
    if b < c {
      WavesSkip(r, ordinal, a, b, c - 1);
    }
  }

  /** Where a run ends at `e` (the end of the readings or a reading that does not
      count), the waves up to `e` are those before the run, then the run itself
      when it has at least three readings. */
  lemma RunEnd(r: seq<Reading>, ordinal: Date -> int, e: nat)
    requires 1 <= e <= |r|
    requires e == |r| || !Counts(r, ordinal, e)
    ensures var n := BackRun(r, ordinal, e);
      && e - n >= 1
      && WavesBetween(r, ordinal, 1, e)
         == WavesBetween(r, ordinal, 1, e - n) + (if n >= 3 then [Wave(r[e - n].date, n)] else [])
  {
    var n := BackRun(r, ordinal, e);
    if n > 0 {
      BackRunStart(r, ordinal, e);
      var j := e - n;
      RunLengthClosed(r, ordinal, j, e);
      forall k | j + 1 <= k < e ensures WaveAt(r, ordinal, k) == [] {
        assert Counts(r, ordinal, k - 1);
      }
      WavesSkip(r, ordinal, 1, j + 1, e);
      assert WavesBetween(r, ordinal, 1, j + 1) == WavesBetween(r, ordinal, 1, j) + WaveAt(r, ordinal, j);
      assert WaveAt(r, ordinal, j) == if n >= 3 then [Wave(r[j].date, n)] else [];
    } else {
      assert WavesBetween(r, ordinal, 1, e) + [] == WavesBetween(r, ordinal, 1, e);
    }
  }

  /** A reading that does not count resets the run and starts no wave. */
  lemma BreakStep(r: seq<Reading>, ordinal: Date -> int, i: nat)
    requires 1 <= i < |r| && !Counts(r, ordinal, i)
    ensures BackRun(r, ordinal, i + 1) == 0
    ensures WavesBetween(r, ordinal, 1, i + 1) == WavesBetween(r, ordinal, 1, i)
  {
    assert WaveAt(r, ordinal, i) == [];
  }

  /** A reading that counts extends the run by one. */
  lemma CountStep(r: seq<Reading>, ordinal: Date -> int, i: nat)
    requires Counts(r, ordinal, i)
    ensures BackRun(r, ordinal, i + 1) == BackRun(r, ordinal, i) + 1
  {
  }

  /** The heat-wave scan of `fetch_climate_data.py` over a station's sorted
      readings: `length` counts the current run and `start` remembers where it
      began; a reading that does not count closes the run, which is emitted when
      it has at least three readings, and so is a run still open after the last
      reading. */
  method DetectHeatWaves(readings: seq<Reading>, ordinal: Date -> int) returns (waves: seq<Wave>)
    ensures waves == HeatWaves(readings, ordinal)
  {
    var start: Option<Date> := None;
    var length: nat := 0;
    waves := [];
    var i := 1;
    while i < |readings|
      invariant 1 <= i <= |readings| || (|readings| == 0 && i == 1)
      invariant length == BackRun(readings, ordinal, i)
      invariant length <= i - 1
      invariant length > 0 ==> start == Some(readings[i - length].date)
      invariant waves == WavesBetween(readings, ordinal, 1, i - length)
    {
      var lastReading := readings[i - 1];
      var reading := readings[i];
      if Distance(ordinal(lastReading.date), ordinal(reading.date)) > 1 || reading.maxTemp < 30.0 {
        assert !Counts(readings, ordinal, i);
        RunEnd(readings, ordinal, i);
        BreakStep(readings, ordinal, i);
        if length >= 3 && start.Some? {
          waves := waves + [Wave(start.value, length)];
        }
        assert waves == WavesBetween(readings, ordinal, 1, i + 1);
        length := 0;
      } else {
        assert Counts(readings, ordinal, i);
        CountStep(readings, ordinal, i);
        assert (i + 1) - (length + 1) == i - length;
        if length == 0 {
          start := Some(reading.date);
        }
        length := length + 1;
      }
      i := i + 1;
    }
    if |readings| == 0 {
      return;
    }
    assert i == |readings|;
    RunEnd(readings, ordinal, i);
    if length >= 3 && start.Some? {
      waves := waves + [Wave(start.value, length)];
    }
  }

  // ---------------------------------------------------------------------------
  // What the heat waves are.

  /** The readings where the heat waves of `WavesBetween(r, ordinal, a, b)` start. */
  function StartsBetween(r: seq<Reading>, ordinal: Date -> int, a: nat, b: nat): seq<nat>
    decreases b
  {
    if b <= a then []
    else StartsBetween(r, ordinal, a, b - 1) + (if WaveAt(r, ordinal, b - 1) != [] then [b - 1] else [])
  }

  /** Each heat wave is the wave of a run start of its own, the starts increasing. */
  lemma {:induction false} WavesAtStarts(r: seq<Reading>, ordinal: Date -> int, a: nat, b: nat)
    ensures var w := WavesBetween(r, ordinal, a, b);
      var s := StartsBetween(r, ordinal, a, b);
      && |w| == |s|
      && (forall k :: 0 <= k < |s| ==> a <= s[k] < b && WaveAt(r, ordinal, s[k]) == [w[k]])
      && (forall k, l :: 0 <= k < l < |s| ==> s[k] < s[l])
    decreases b
  {
    if a < b {
      WavesAtStarts(r, ordinal, a, b - 1);
      var w0, s0 := WavesBetween(r, ordinal, a, b - 1), StartsBetween(r, ordinal, a, b - 1);
      var x := WaveAt(r, ordinal, b - 1);
      var y: seq<nat> := if x != [] then [b - 1] else [];
      assert |x| == |y|;
      var w, s := w0 + x, s0 + y;
      forall k | 0 <= k < |s| ensures a <= s[k] < b && WaveAt(r, ordinal, s[k]) == [w[k]] {
        if k < |s0| {
          assert s[k] == s0[k] && w[k] == w0[k];
        } else {
          assert s[k] == b - 1 && w[k] == x[0];
        }
      }
      forall k, l | 0 <= k < l < |s| ensures s[k] < s[l] {
        if l < |s0| {
          assert s[k] == s0[k] && s[l] == s0[l];
        } else {
          assert s[k] == s0[k] && s[l] == b - 1;
        }
      }
    }
  }

  /** A reading starts a wave exactly when it is a run start with a run of at
      least three readings; the wave has the run's first date and length. */
  lemma WaveAtSpec(r: seq<Reading>, ordinal: Date -> int, j: nat, x: Wave)
    ensures WaveAt(r, ordinal, j) == [x] <==>
      j < |r| && RunStart(r, ordinal, j) && RunLength(r, ordinal, j) >= 3 && x == Wave(r[j].date, RunLength(r, ordinal, j))
  {
  }

  /** A run that starts at `j` is counted readings up to `j + RunLength`, where a
      reading that does not count, or the end of the series, closes it. */
  lemma {:induction false} RunShape(r: seq<Reading>, ordinal: Date -> int, j: nat)
    requires j <= |r|
    ensures j + RunLength(r, ordinal, j) <= |r|
    ensures forall k :: j <= k < j + RunLength(r, ordinal, j) ==> Counts(r, ordinal, k)
    ensures j + RunLength(r, ordinal, j) == |r| || !Counts(r, ordinal, j + RunLength(r, ordinal, j))
    decreases |r| - j
  {
    if j < |r| && Counts(r, ordinal, j) {
      RunShape(r, ordinal, j + 1);
    }
  }

  /** A wave is found exactly for a run of at least three readings that each
      reached 30 degrees and came at most a day after the reading before them,
      where the reading before the run (the first reading of the series never
      counts) did not qualify; its start is the run's first reading and its length
      the run's. */
  lemma HeatWavesMembers(r: seq<Reading>, ordinal: Date -> int, w: Wave)
    ensures w in HeatWaves(r, ordinal) <==>
      exists j :: 1 <= j < |r| && RunStart(r, ordinal, j) && RunLength(r, ordinal, j) >= 3
                  && w == Wave(r[j].date, RunLength(r, ordinal, j))
  {
    WavesAtStarts(r, ordinal, 1, |r|);
    var ws := HeatWaves(r, ordinal);
    var s := StartsBetween(r, ordinal, 1, |r|);
    if w in ws {
      var m :| 0 <= m < |ws| && ws[m] == w;
      WaveAtSpec(r, ordinal, s[m], w);
    }
    if exists j :: 1 <= j < |r| && RunStart(r, ordinal, j) && RunLength(r, ordinal, j) >= 3
                   && w == Wave(r[j].date, RunLength(r, ordinal, j)) {
      var j :| 1 <= j < |r| && RunStart(r, ordinal, j) && RunLength(r, ordinal, j) >= 3
               && w == Wave(r[j].date, RunLength(r, ordinal, j));
      WaveInBetween(r, ordinal, 1, |r|, j);
    }
  }

  /** The wave of a run start in `[a, b)` is among the waves between them. */
  lemma {:induction false} WaveInBetween(r: seq<Reading>, ordinal: Date -> int, a: nat, b: nat, j: nat)
    requires a <= j < b && j < |r| && RunStart(r, ordinal, j) && RunLength(r, ordinal, j) >= 3
    ensures Wave(r[j].date, RunLength(r, ordinal, j)) in WavesBetween(r, ordinal, a, b)
    decreases b
  {
    if j < b - 1 {
      WaveInBetween(r, ordinal, a, b - 1, j);
    } else {
      assert WaveAt(r, ordinal, j) == [Wave(r[j].date, RunLength(r, ordinal, j))];
    }
  }

  /** Two heat waves never share a reading: a later wave starts after at least
      one reading, between the two, that does not count. On readings sorted by
      date the waves come in date order. */
  lemma HeatWavesDisjoint(r: seq<Reading>, ordinal: Date -> int, k: nat, l: nat)
    requires k < l < |HeatWaves(r, ordinal)|
    ensures var s := StartsBetween(r, ordinal, 1, |r|);
      && |s| == |HeatWaves(r, ordinal)|
      && s[k] + RunLength(r, ordinal, s[k]) < s[l]
      && !Counts(r, ordinal, s[k] + RunLength(r, ordinal, s[k]))
    ensures SortedBy(r, ReadingDate) ==>
      DateKey(HeatWaves(r, ordinal)[k].start) <= DateKey(HeatWaves(r, ordinal)[l].start)
  {
    WavesAtStarts(r, ordinal, 1, |r|);
    var s := StartsBetween(r, ordinal, 1, |r|);
    var i, j := s[k], s[l];
    WaveAtSpec(r, ordinal, i, HeatWaves(r, ordinal)[k]);
    WaveAtSpec(r, ordinal, j, HeatWaves(r, ordinal)[l]);
    var n := RunLength(r, ordinal, i);
    RunShape(r, ordinal, i);
    assert i < j && !Counts(r, ordinal, j - 1);
    if SortedBy(r, ReadingDate) {
      assert ReadingDate(r[i]) <= ReadingDate(r[j]);
    }
  }

  /** The heat waves of one station: its readings, in file order, sorted by date
      (a stable sort), then scanned; a row that raises aborts the script. */
  function StationWaves(rows: seq<seq<string>>, readers: Readers): (r: Result<seq<Wave>>)
    ensures r.Ok? <==> forall i :: 0 <= i < |rows| ==> !ReadingEntry(rows[i], readers).Raised?
  {
    CollectSpec([], rows, l => ReadingEntry(l, readers));
    match Collect([], rows, l => ReadingEntry(l, readers))
    case Failed(e) => Failed(e)
    case Ok(readings) => Ok(HeatWaves(SortBy(readings, ReadingDate), readers.ordinal))
  }

  /** Every heat wave of a station lasts at least three days, and the waves come
      in date order. */
  lemma StationWavesSpec(rows: seq<seq<string>>, readers: Readers, k: nat, l: nat)
    requires StationWaves(rows, readers).Ok?
    ensures var ws := StationWaves(rows, readers).value;
      && (forall w :: w in ws ==> w.length >= 3)
      && (k < l < |ws| ==> DateKey(ws[k].start) <= DateKey(ws[l].start))
  {
    var readings := Collect([], rows, l => ReadingEntry(l, readers)).value;
    var sorted := SortBy(readings, ReadingDate);
    SortByIsSorted(readings, ReadingDate);
    forall w | w in HeatWaves(sorted, readers.ordinal) ensures w.length >= 3 {
      HeatWavesMembers(sorted, readers.ordinal, w);
    }
    if k < l < |HeatWaves(sorted, readers.ordinal)| {
      HeatWavesDisjoint(sorted, readers.ordinal, k, l);
    }
  }
}
