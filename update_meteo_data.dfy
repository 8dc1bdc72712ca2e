/** tools/update_meteo_data.py: a regional statistics CSV file read into a grid of
    one row per line, then turned into one list per region, for the 17
    administrative regions. */
module UpdateMeteoData {
  import opened Common
  import opened GenerateMeteoData

  /** The number of administrative regions of Quebec, the length of `regions`. */
  const REGION_COUNT: nat := 17

  /** The cells after the first column; a line without cells has none. */
  function Tail(line: seq<string>): seq<string> {
    if line == [] then [] else line[1..]
  }

  /** One grid row, or the `ValueError` of a cell `float` cannot read. */
  function GridRow(line: seq<string>, float: string -> Option<real>): Outcome<seq<Option<real>>> {
    match ReadValues(Tail(line), float)
    case None => Raised("ValueError")
    case Some(values) => Kept(values)
  }

  /** The loop `grid.append(...)` over the lines after the header. */
  method ReadGrid(rows: seq<seq<string>>, float: string -> Option<real>) returns (result: Result<seq<seq<Option<real>>>>)
    ensures result == Collect([], Body(rows), l => GridRow(l, float))
  {
    var row := l => GridRow(l, float);
    var grid: seq<seq<Option<real>>> := [];
    if rows == [] {
      return Ok(grid);
    }
    assert rows[1..][0..] == rows[1..];
    var i := 1;
    while i < |rows|
      invariant 1 <= i <= |rows|
      invariant Collect([], Body(rows), row) == Collect(grid, rows[i..], row)
    {
      CollectStep(grid, rows, row, i);
      match row(rows[i]) {
        case Raised(e) => return Failed(e);
        case Kept(values) => grid := grid + [values];
        case Skipped =>
      }
      i := i + 1;
    }
    return Ok(grid);
  }

  /** The grid has one row per line after the header, holding the values of that
      line's cells after the first; it is read exactly when every cell is empty or
      a number. */
  lemma ReadGridSpec(rows: seq<seq<string>>, float: string -> Option<real>)
    ensures var grid := Collect([], Body(rows), l => GridRow(l, float));
      && (grid.Ok? <==> forall i :: 0 <= i < |Body(rows)| ==> ReadValues(Tail(Body(rows)[i]), float).Some?)
      && (grid.Ok? ==> |grid.value| == |Body(rows)|)
      && (grid.Ok? ==> forall j :: 0 <= j < |Body(rows)| ==>
            Some(grid.value[j]) == ReadValues(Tail(Body(rows)[j]), float))
  {
    var row := l => GridRow(l, float);
    CollectSpec([], Body(rows), row);
    if Collect([], Body(rows), row).Ok? {
      KeptAll(Body(rows), row);
    }
  }

  /** The `n` first columns of a grid whose rows all have at least `n` values, as
      rows. */
  function Transposed<T>(grid: seq<seq<T>>, n: nat): (r: seq<seq<T>>)
    requires forall j :: 0 <= j < |grid| ==> n <= |grid[j]|
  {
    seq(n, i requires 0 <= i < n => seq(|grid|, j requires 0 <= j < |grid| => grid[j][i]))
  }

  /** The columns of the columns of a grid whose rows all have `n` values are its
      rows again. */
  lemma TransposedInvolution<T>(grid: seq<seq<T>>, n: nat)
    requires forall j :: 0 <= j < |grid| ==> |grid[j]| == n
    ensures Transposed(Transposed(grid, n), |grid|) == grid
  {
    var t := Transposed(grid, n);
    var back := Transposed(t, |grid|);
    assert |back| == |grid|;
    forall j | 0 <= j < |grid| ensures back[j] == grid[j] {
      assert |back[j]| == n;
    }
  }

  /** `regions[i] = [grid[j][i] for j in range(len(grid))]` for the 17 regions in
      turn: region `i` lists the `i`th value of every row, and a row with fewer
      than 17 values raises `IndexError`. */
  method Transpose(grid: seq<seq<Option<real>>>) returns (result: Result<seq<seq<Option<real>>>>)
    ensures result.Ok? <==> forall j :: 0 <= j < |grid| ==> |grid[j]| >= REGION_COUNT
    ensures result.Failed? ==> result.error == "IndexError"
    ensures result.Ok? ==> |result.value| == REGION_COUNT
    ensures result.Ok? ==> forall i :: 0 <= i < REGION_COUNT ==> |result.value[i]| == |grid|
    ensures result.Ok? ==> forall i, j :: 0 <= i < REGION_COUNT && 0 <= j < |grid| ==> result.value[i][j] == grid[j][i]
  {
    var regions := new seq<Option<real>>[REGION_COUNT](_ => []);
    for i := 0 to REGION_COUNT
      invariant forall j :: 0 <= j < |grid| ==> |grid[j]| >= i
      invariant forall k :: 0 <= k < i ==> |regions[k]| == |grid|
      invariant forall k, j :: 0 <= k < i && 0 <= j < |grid| ==> regions[k][j] == grid[j][k]
    {
      var column: seq<Option<real>> := [];
      for j := 0 to |grid|
        invariant |column| == j
        invariant forall jj :: 0 <= jj < j ==> |grid[jj]| > i && column[jj] == grid[jj][i]
      {
        if i >= |grid[j]| {
          return Failed("IndexError");
        }
        column := column + [grid[j][i]];
      }
      regions[i] := column;
    }
    return Ok(regions[..]);
  }

  /** What `Transpose` computes is the grid's first 17 columns. */
  lemma TransposeColumns(grid: seq<seq<Option<real>>>, regions: seq<seq<Option<real>>>)
    requires forall j :: 0 <= j < |grid| ==> |grid[j]| >= REGION_COUNT
    requires |regions| == REGION_COUNT
    requires forall i :: 0 <= i < REGION_COUNT ==> |regions[i]| == |grid|
    requires forall i, j :: 0 <= i < REGION_COUNT && 0 <= j < |grid| ==> regions[i][j] == grid[j][i]
    ensures regions == Transposed(grid, REGION_COUNT)
  {
    var t := Transposed(grid, REGION_COUNT);
    forall i | 0 <= i < REGION_COUNT ensures regions[i] == t[i] {
    }
  }
}
