/** `collect_statistics` of tools/generate_meteo_data.py: one statistics CSV file
    read into a table from the number a row starts with to the values of its other
    cells. */
module GenerateMeteoData {
  import opened Common
  import opened Text
  import opened PyDict

  /** `[float(value) if value else None for value in cells]`: an empty cell is
      `None`, any other is read by `float`, which may fail and abort the script
      (`None` for the whole list). */
  function ReadValues(cells: seq<string>, float: string -> Option<real>): (r: Option<seq<Option<real>>>)
    ensures r.Some? <==> forall i :: 0 <= i < |cells| && cells[i] != "" ==> float(cells[i]).Some?
    ensures r.Some? ==> |r.value| == |cells|
    ensures r.Some? ==> forall i :: 0 <= i < |cells| ==> r.value[i] == (if cells[i] == "" then None else float(cells[i]))
  {
    if cells == [] then Some([])
    else if cells[0] != "" && float(cells[0]).None? then None
    else
      match ReadValues(cells[1..], float)
      case None => None
      case Some(rest) => Some([if cells[0] == "" then None else float(cells[0])] + rest)
  }

  /** The body of the loop on one row: a row without cells raises `IndexError`, a
      row whose first cell does not start with a digit is skipped, and any other
      row gives the number its first cell starts with and the values of its other
      cells. */
  function StatisticsRow(line: seq<string>, float: string -> Option<real>): (r: Outcome<(nat, seq<Option<real>>)>)
    ensures line == [] ==> r == Raised("IndexError")
    ensures line != [] ==> (r.Skipped? <==> LeadingNumber(line[0]).None?)
    ensures line != [] ==> (r.Raised? <==> LeadingNumber(line[0]).Some? && ReadValues(line[1..], float).None?)
    ensures r.Kept? ==>
      && line != []
      && Some(r.value.0) == LeadingNumber(line[0])
      && Some(r.value.1) == ReadValues(line[1..], float)
      && |r.value.1| == |line| - 1
  {
    if line == [] then Raised("IndexError")
    else
      match LeadingNumber(line[0])
      case None => Skipped
      case Some(n) =>
        match ReadValues(line[1..], float)
        case None => Raised("ValueError")
        case Some(values) => Kept((n, values))
  }

  /** A row the loop keeps under key `n`. */
  predicate Keyed(line: seq<string>, n: nat) {
    line != [] && LeadingNumber(line[0]) == Some(n)
  }

  /** `collect_statistics`: the rows after the header set `result[n] = values` in
      turn, so a later row with the same number replaces an earlier one. */
  method CollectStatistics(rows: seq<seq<string>>, float: string -> Option<real>)
    returns (result: Result<Dict<nat, seq<Option<real>>>>)
    ensures var items := Collect([], Body(rows), l => StatisticsRow(l, float));
      && (items.Failed? ==> result.Failed?)
      && (items.Ok? ==> result == Ok(PutAll(Empty(), items.value)))
  {
    result := FillDict(Body(rows), l => StatisticsRow(l, float));
  }

  /** A number is a key exactly when some row after the header starts with it, and
      it holds the values of the last such row. */
  lemma StatisticsTable(rows: seq<seq<string>>, float: string -> Option<real>, n: nat)
    requires Collect([], Body(rows), l => StatisticsRow(l, float)).Ok?
    ensures var items := Collect([], Body(rows), l => StatisticsRow(l, float)).value;
      var table := PutAll(Empty(), items);
      && table.Valid()
      && (n in table.entries <==> exists i :: 0 <= i < |Body(rows)| && Keyed(Body(rows)[i], n))
      && (n in table.entries ==> 0 <= LastIndex(items, n) && table.entries[n] == items[LastIndex(items, n)].1)
  {
    var row := l => StatisticsRow(l, float);
    var items := Collect([], Body(rows), row).value;
    PutAllKeys(items, n);
    CollectedKeys(Body(rows), row, n);
    CollectSpec([], Body(rows), row);
    if exists i :: 0 <= i < |Body(rows)| && Keyed(Body(rows)[i], n) {
      var i :| 0 <= i < |Body(rows)| && Keyed(Body(rows)[i], n);
      assert !row(Body(rows)[i]).Raised?;
    }
  }

  /** A row whose first cell is the decimal text of `n`, followed by anything but a
      digit, is kept under `n`. */
  lemma RowNumberRead(line: seq<string>, n: nat, rest: string)
    requires line != [] && line[0] == NatToString(n) + rest
    requires rest == [] || !IsDigit(rest[0])
    ensures Keyed(line, n)
  {
    LeadingNumberOfText(n, rest);
  }
}
