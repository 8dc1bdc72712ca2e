/** Helpers of the data scripts (tools/utils.py): the district shapes by id
    and the point-in-shape test that looks inside geometry collections. */
module ToolsUtils {
  import opened YearlyData
  import opened PyDict

  /** The id of the Ungava district. */
  const UNGAVA_ID := 938

  /** The first year the scripts keep. */
  const MIN_YEAR := 1990

  /** Whether `geo` contains the point: a collection when some member does,
      recursively; any other geometry by the primitive test `contains`. */
  predicate Contains(geo: Geometry, pt: Position, contains: (Geometry, Position) -> bool)
    decreases geo
  {
    match geo
    case GeometryCollection(gs) => exists i :: 0 <= i < |gs| && Contains(gs[i], pt, contains)
    case _ => contains(geo, pt)
  }

  /** `contains_point`: the members of a collection are tried in order and the
      search stops at the first one that contains the point. */
  method ContainsPoint(geo: Geometry, pt: Position, contains: (Geometry, Position) -> bool) returns (r: bool)
    ensures r == Contains(geo, pt, contains)
    decreases geo
  {
    if geo.GeometryCollection? {
      var i := 0;
      while i < |geo.geometries|
        invariant 0 <= i <= |geo.geometries|
        invariant forall j :: 0 <= j < i ==> !Contains(geo.geometries[j], pt, contains)
      {
        var hit := ContainsPoint(geo.geometries[i], pt, contains);
        if hit {
          return true;
        }
        i := i + 1;
      }
      return false;
    }
    return contains(geo, pt);
  }

  /** An empty collection contains nothing; a non-empty one contains the point
      exactly when its first member does or the collection of the others does. */
  lemma {:induction false} ContainsCollection(gs: seq<Geometry>, pt: Position, contains: (Geometry, Position) -> bool)
    ensures gs == [] ==> !Contains(GeometryCollection(gs), pt, contains)
    ensures gs != [] ==> (Contains(GeometryCollection(gs), pt, contains) <==>
      Contains(gs[0], pt, contains) || Contains(GeometryCollection(gs[1..]), pt, contains))
  {
    if gs != [] {
      var rest := GeometryCollection(gs[1..]);
      if Contains(GeometryCollection(gs), pt, contains) {
        var i :| 0 <= i < |gs| && Contains(gs[i], pt, contains);
        if i > 0 {
          assert gs[1..][i - 1] == gs[i];
        }
      }
      if Contains(rest, pt, contains) {
        var i :| 0 <= i < |gs[1..]| && Contains(gs[1..][i], pt, contains);
        assert gs[i + 1] == gs[1..][i];
      }
    }
  }

  /** The district map of `load_map`, given each feature as its `properties.id`
      and its shape: `districts[id] = shape` for each feature in order. */
  method LoadMap(features: seq<(int, Geometry)>) returns (districts: Dict<int, Geometry>)
    ensures districts == PutAll(Empty(), features)
  {
    districts := Empty();
    var i := 0;
    while i < |features|
      invariant 0 <= i <= |features|
      invariant districts == PutAll(Empty(), features[..i])
    {
      var (id, shape) := features[i];
      assert features[..i + 1][..i] == features[..i];
      districts := Put(districts, id, shape);
      i := i + 1;
    }
    assert features[..i] == features;
  }

  /** For a repeated id the last feature wins; every id of some feature is present
      and no other. */
  lemma LoadMapLastWins(features: seq<(int, Geometry)>, id: int)
    ensures var districts := PutAll(Empty(), features);
      var i := LastIndex(features, id);
      && districts.Valid()
      && (i >= 0 ==> id in districts.entries && districts.entries[id] == features[i].1)
      && (i < 0 ==> id !in districts.entries)
  {
    PutAllAt(Empty(), features, id);
  }
}
