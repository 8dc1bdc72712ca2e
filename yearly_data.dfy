/** GeoJSON geometries, ring flattening and the filtering of events by the region
    they fall in (src/models/yearly_data.ts). */
module YearlyData {
  import opened Common
  import opened Seqs
  import opened Catastrophes

  /** A GeoJSON position (longitude, latitude, optional altitude). */
  type Position = seq<real>

  /** A linear ring: a closed list of positions. */
  type Ring = seq<Position>

  /** The GeoJSON geometry types of section 3.1 of RFC 7946. A polygon's
      coordinates are its rings: the exterior ring, then the holes. */
  datatype Geometry =
    | Point(position: Position)
    | MultiPoint(positions: seq<Position>)
    | LineString(line: seq<Position>)
    | MultiLineString(lines: seq<seq<Position>>)
    | Polygon(rings: seq<Ring>)
    | MultiPolygon(polygons: seq<seq<Ring>>)
    | GeometryCollection(geometries: seq<Geometry>)

  /** A GeoJSON feature; only its (possibly null) geometry matters here. */
  datatype Feature = Feature(geometry: Option<Geometry>)

  /** One year of data: its events and its statistics. */
  datatype StatSnapshot = StatSnapshot(avgTemp: Option<real>, avgPrec: Option<real>)
  datatype YearlySnapshot = YearlySnapshot(catastrophes: seq<Catastrophe>, statistics: seq<StatSnapshot>)

  /** The snapshot of a year whose data could not be downloaded. */
  const EMPTY_SNAPSHOT := YearlySnapshot([], [])

  /** The rings `getPolygons` collects: a polygon's own rings; the rings of a
      collection's members one after the other; nothing for any other type. */
  function Rings(g: Geometry): seq<Ring>
    decreases g, 1
  {
    match g
    case Polygon(rings) => rings
    case GeometryCollection(gs) => RingsOfAll(gs)
    case _ => []
  }

  /** The rings of a list of geometries, in order. */
  function RingsOfAll(gs: seq<Geometry>): seq<Ring>
    decreases gs, 0
  {
    if gs == [] then [] else RingsOfAll(gs[..|gs| - 1]) + Rings(gs[|gs| - 1])
  }

  /** `getPolygons`, collecting the rings of a collection's members with a loop. */
  method GetPolygons(g: Geometry) returns (result: seq<Ring>)
    ensures result == Rings(g)
    decreases g
  {
    if g.Polygon? {
      return g.rings;
    }
    if g.GeometryCollection? {
      result := [];
      var i := 0;
      while i < |g.geometries|
        invariant 0 <= i <= |g.geometries|
        invariant result == RingsOfAll(g.geometries[..i])
      {
        var rings := GetPolygons(g.geometries[i]);
        assert g.geometries[..i + 1][..i] == g.geometries[..i];
        result := result + rings;
        i := i + 1;
      }
      assert g.geometries[..i] == g.geometries;
      return result;
    }
    return [];
  }

  /** A polygon gives its rings unchanged: the exterior ring and each hole count
      as one polygon apiece. Every type other than a polygon or a collection gives
      no ring. */
  lemma RingsOfSimpleGeometries(g: Geometry)
    ensures g.Polygon? ==> Rings(g) == g.rings
    ensures !g.Polygon? && !g.GeometryCollection? ==> Rings(g) == []
  {
  }

  /** The rings of a collection split along any split of its members. */
  lemma {:induction false} RingsOfAllConcat(a: seq<Geometry>, b: seq<Geometry>)
    ensures RingsOfAll(a + b) == RingsOfAll(a) + RingsOfAll(b)
    decreases |b|
  {
    if b == [] {
      assert a + b == a;
    } else {
      var init := b[..|b| - 1];
      RingsOfAllConcat(a, init);
      SnocSplit(a, b);
      RingsOfAllSnoc(a + init, b[|b| - 1]);
      RingsOfAllSnoc(init, b[|b| - 1]);
      ConcatAssociative(RingsOfAll(a), RingsOfAll(init), Rings(b[|b| - 1]));
    }
  }

  /** One more geometry at the end adds its rings at the end. */
  lemma RingsOfAllSnoc(gs: seq<Geometry>, g: Geometry)
    ensures RingsOfAll(gs + [g]) == RingsOfAll(gs) + Rings(g)
  {
    assert (gs + [g])[..|gs|] == gs;
  }

  /** A collection's rings are those of its first member followed by those of the
      rest, recursively: the in-order concatenation of section 3.1.8 of RFC 7946. */
  lemma RingsOfCollection(gs: seq<Geometry>)
    requires gs != []
    ensures Rings(GeometryCollection(gs)) == Rings(gs[0]) + Rings(GeometryCollection(gs[1..]))
  {
    assert gs == [gs[0]] + gs[1..];
    RingsOfAllConcat([gs[0]], gs[1..]);
    assert RingsOfAll([gs[0]]) == RingsOfAll([]) + Rings(gs[0]);
  }

  /** Some ring contains the position, by the point-in-polygon test `inside`
      (`polygons.some(...)`). */
  function SomeRingContains(position: Position, polygons: seq<Ring>, inside: (Position, Ring) -> bool): (r: bool)
    ensures r <==> exists k :: 0 <= k < |polygons| && inside(position, polygons[k])
  {
    if polygons == [] then false
    else
      assert forall k :: 1 <= k < |polygons| ==> polygons[k] == polygons[1..][k - 1];
      inside(position, polygons[0]) || SomeRingContains(position, polygons[1..], inside)
  }

  /** An event's position as GeoJSON orders it: `[lng, lat]`. */
  function EventPosition(c: Catastrophe): Position {
    [c.location.lng, c.location.lat]
  }

  /** `filterCatastrophesByRegion`: the events inside some ring of the region's
      geometry, in their order; nothing for a region without geometry or an empty
      list of events. */
  function FilterByRegion(events: seq<Catastrophe>, region: Feature, inside: (Position, Ring) -> bool): (r: seq<Catastrophe>)
    ensures |r| <= |events|
  {
    if region.geometry.Some? && |events| > 0 then
      var polygons := Rings(region.geometry.value);
      Filter(events, c => SomeRingContains(EventPosition(c), polygons, inside))
    else []
  }

  /** Whether an event lies in the region. */
  predicate InRegion(c: Catastrophe, region: Feature, inside: (Position, Ring) -> bool) {
    region.geometry.Some? && SomeRingContains(EventPosition(c), Rings(region.geometry.value), inside)
  }

  /** The filter keeps the order of the events and keeps an event exactly when
      its `[lng, lat]` point lies inside at least one of the region's rings. */
  lemma FilterByRegionMembers(events: seq<Catastrophe>, region: Feature, inside: (Position, Ring) -> bool)
    ensures IsSubsequence(FilterByRegion(events, region, inside), events)
    ensures forall c :: c in FilterByRegion(events, region, inside) ==> c in events && InRegion(c, region, inside)
    ensures forall c :: c in events && InRegion(c, region, inside) ==> c in FilterByRegion(events, region, inside)
  {
    if region.geometry.Some? && |events| > 0 {
      var polygons := Rings(region.geometry.value);
      var p := (c: Catastrophe) => SomeRingContains(EventPosition(c), polygons, inside);
      FilterIsSubsequence(events, p);
      FilterMembers(events, p);
    } else {
      assert IsSubsequence([], events) by { EmptyIsSubsequence(events); }
    }
  }

  /** No geometry, no events or a geometry without rings gives no events. */
  lemma FilterByRegionEmpty(events: seq<Catastrophe>, region: Feature, inside: (Position, Ring) -> bool)
    requires region.geometry.None? || events == [] || Rings(region.geometry.value) == []
    ensures FilterByRegion(events, region, inside) == []
  {
    if region.geometry.Some? && |events| > 0 {
      var p := (c: Catastrophe) => SomeRingContains(EventPosition(c), Rings(region.geometry.value), inside);
      FilterNone(events, p);
    }
  }

  /** Filtering the result again by the same region changes nothing. */
  lemma FilterByRegionIdempotent(events: seq<Catastrophe>, region: Feature, inside: (Position, Ring) -> bool)
    ensures FilterByRegion(FilterByRegion(events, region, inside), region, inside) == FilterByRegion(events, region, inside)
  {
    if region.geometry.Some? && |events| > 0 {
      var polygons := Rings(region.geometry.value);
      FilterIdempotent(events, c => SomeRingContains(EventPosition(c), polygons, inside));
    }
  }
}
