/** The catastrophe model of the front end: event types and severities, the parsing
    of a downloaded catastrophe document, and the French description of an event
    (src/models/catastrophes.ts). */
module Catastrophes {
  import opened Common
  import opened Text

  /** Event types. The first seven are the members of the front end's enumeration;
      `HeatWave`, `Ticks` and `Unknown` are used by the French locale and the data
      scripts; `Other` stands for any other code string, which a TypeScript `as`
      cast lets through. */
  datatype CatastropheType =
    | Flood | ForestFire | ViolentStorm | Tornado | FreezingRain | WinterStorm | StormWinds
    | HeatWave | Ticks | Unknown
    | Other(code: string)
  {
    /** The string value the type has in the JSON documents. */
    function Code(): string {
      match this
      case Flood => "FLOOD"
      case ForestFire => "FOREST_FIRE"
      case ViolentStorm => "VIOLENT_STORM"
      case Tornado => "TORNADO"
      case FreezingRain => "FREEZING_RAIN"
      case WinterStorm => "WINTER_STORM"
      case StormWinds => "STORM_WINDS"
      case HeatWave => "HEAT_WAVE"
      case Ticks => "TICKS"
      case Unknown => "UNKNOWN"
      case Other(c) => c
    }

    /** One of the seven members of the front end's enumeration. */
    predicate InEnum() {
      Flood? || ForestFire? || ViolentStorm? || Tornado? || FreezingRain? || WinterStorm? || StormWinds?
    }
  }

  /** Whether a code string is the code of a named type. */
  predicate IsKnownCode(code: string) {
    code in {"FLOOD", "FOREST_FIRE", "VIOLENT_STORM", "TORNADO", "FREEZING_RAIN",
             "WINTER_STORM", "STORM_WINDS", "HEAT_WAVE", "TICKS", "UNKNOWN"}
  }

  /** `doc.type as CatastropheType`: the type a code string denotes. */
  function TypeOfCode(code: string): (t: CatastropheType)
    ensures t.Code() == code
    ensures t.Other? <==> !IsKnownCode(code)
  {
    if code == "FLOOD" then Flood
    else if code == "FOREST_FIRE" then ForestFire
    else if code == "VIOLENT_STORM" then ViolentStorm
    else if code == "TORNADO" then Tornado
    else if code == "FREEZING_RAIN" then FreezingRain
    else if code == "WINTER_STORM" then WinterStorm
    else if code == "STORM_WINDS" then StormWinds
    else if code == "HEAT_WAVE" then HeatWave
    else if code == "TICKS" then Ticks
    else if code == "UNKNOWN" then CatastropheType.Unknown
    else Other(code)
  }

  /** A type that does not hide a named type behind `Other`. */
  predicate CanonicalType(t: CatastropheType) {
    t.Other? ==> !IsKnownCode(t.code)
  }

  /** Reading a type back from its code gives the type. */
  lemma TypeCodeRoundTrip(t: CatastropheType)
    requires CanonicalType(t)
    ensures TypeOfCode(t.Code()) == t
  {
  }

  /** Severities, numbered as in the JSON documents. */
  datatype Severity = Unknown | Minor | Moderate | Important | Extreme
  {
    function Value(): (n: nat)
      ensures n <= 4
    {
      match this
      case Unknown => 0
      case Minor => 1
      case Moderate => 2
      case Important => 3
      case Extreme => 4
    }
  }

  /** The severity numbered `n`, if any. */
  function SeverityOfValue(n: int): (r: Option<Severity>)
    ensures r.Some? <==> 0 <= n <= 4
    ensures r.Some? ==> r.value.Value() == n
  {
    if n == 0 then Some(Severity.Unknown)
    else if n == 1 then Some(Minor)
    else if n == 2 then Some(Moderate)
    else if n == 3 then Some(Important)
    else if n == 4 then Some(Extreme)
    else None
  }

  /** Severities compare by their number. */
  predicate SeverityLe(a: Severity, b: Severity) {
    a.Value() <= b.Value()
  }

  /** The numbering is one-to-one, so the order on severities is a total order:
      Unknown < Minor < Moderate < Important < Extreme. */
  lemma SeverityOrder(a: Severity, b: Severity)
    ensures SeverityLe(a, b) || SeverityLe(b, a)
    ensures SeverityLe(a, b) && SeverityLe(b, a) ==> a == b
    ensures SeverityOfValue(a.Value()) == Some(a)
  {
  }

  datatype Location = Location(lat: real, lng: real)

  /** An event as the front end holds it. `date` is the instant `new Date` gives,
      as a number; `locApprox` marks a location known only approximately. */
  datatype Catastrophe = Catastrophe(
    id: string, location: Location, city: string, kind: CatastropheType,
    date: int, severity: Severity, district: int, locApprox: bool)

  /** An event as the yearly JSON file holds it. */
  datatype CatastropheDocument = CatastropheDocument(
    id: string, location: (real, real), city: string, kind: string,
    date: string, severity: Severity, district: int)

  /** `parseCatatrophe`: every field is copied; the first coordinate becomes the
      latitude and the second the longitude. Date parsing is the given `parseDate`. */
  function ParseCatastrophe(doc: CatastropheDocument, parseDate: string -> int): (c: Catastrophe)
    ensures c.id == doc.id && c.city == doc.city && c.district == doc.district
    ensures c.severity == doc.severity && c.kind.Code() == doc.kind
    ensures c.location.lat == doc.location.0 && c.location.lng == doc.location.1
    ensures !c.locApprox
  {
    Catastrophe(doc.id, Location(doc.location.0, doc.location.1), doc.city,
                TypeOfCode(doc.kind), parseDate(doc.date), doc.severity, doc.district, false)
  }

  /** The document an event was read from, given the date printer `formatDate`. */
  function ToDocument(c: Catastrophe, formatDate: int -> string): CatastropheDocument {
    CatastropheDocument(c.id, (c.location.lat, c.location.lng), c.city, c.kind.Code(),
                        formatDate(c.date), c.severity, c.district)
  }

  /** Parsing loses nothing: an exact-location event written out as a document and
      parsed again is the same event, when the date parser inverts the printer. */
  lemma ParseCatastropheRoundTrip(c: Catastrophe, parseDate: string -> int, formatDate: int -> string)
    requires CanonicalType(c.kind) && !c.locApprox
    requires parseDate(formatDate(c.date)) == c.date
    ensures ParseCatastrophe(ToDocument(c, formatDate), parseDate) == c
  {
    TypeCodeRoundTrip(c.kind);
  }

  // ---------------------------------------------------------------------------
  // French names (`typeNames`, `getTypeName`).

  /** The singular and plural French name of the types of the enumeration. */
  function TypeNames(t: CatastropheType): Option<(string, string)> {
    match t
    case Flood => Some(("Inondation", "Inondations"))
    case ForestFire => Some(("Feu de forêt", "Feux de forêt"))
    case ViolentStorm => Some(("Orage violent", "Orages violents"))
    case Tornado => Some(("Tornade", "Tornades"))
    case FreezingRain => Some(("Pluie verglaçante", "Pluies verglaçantes"))
    case WinterStorm => Some(("Tempête hivernale", "Tempêtes hivernales"))
    case StormWinds => Some(("Vent de tempête", "Vents de tempête"))
    case _ => None
  }

  /** `getTypeName(type, plural)`: the plural or singular name, or '' for a type with
      no entry. */
  function TypeName(t: CatastropheType, plural: bool): (r: string)
    ensures r == "" <==> !t.InEnum()
    ensures TypeNames(t).Some? ==> r == if plural then TypeNames(t).value.1 else TypeNames(t).value.0
  {
    var names := TypeNames(t);
    if names.Some? then (if plural then names.value.1 else names.value.0) else ""
  }

  /** Every member of the enumeration has a name, different in the singular and the
      plural, and no two members share a name. */
  lemma TypeNamesDistinct(t: CatastropheType, u: CatastropheType, p: bool, q: bool)
    requires t.InEnum() && u.InEnum()
    ensures TypeName(t, false) != TypeName(t, true)
    ensures TypeName(t, p) == TypeName(u, q) ==> t == u && p == q
  {
  }

  // ---------------------------------------------------------------------------
  // Descriptions.

  /** `getSeverityDescription`: the masculine singular word, '' for Unknown. */
  function SeverityDescription(s: Severity): (r: string)
    ensures r == "" <==> s == Severity.Unknown
  {
    match s
    case Extreme => "extrême"
    case Important => "important"
    case Moderate => "modéré"
    case Minor => "mineur"
    case Unknown => ""
  }

  /** The types whose name is feminine in `formatDescription`. */
  predicate DescriptionFeminine(t: CatastropheType) {
    t == Flood || t == Tornado || t == FreezingRain
  }

  /** `formatDescription`: '' for an unknown severity; otherwise the singular type
      name, a space and the severity word, then an 'e' for a feminine name except
      with "extrême", then an 's' for storm winds, whose name reads as a plural. */
  function FormatDescription(c: Catastrophe): (r: string)
    ensures r == "" <==> c.severity == Severity.Unknown
    ensures var head := TypeName(c.kind, false) + " " + SeverityDescription(c.severity);
      r != "" ==>
        && StartsWith(r, head)
        && |r| == |head| + (if DescriptionFeminine(c.kind) && c.severity != Extreme then 1 else 0)
                         + (if c.kind == StormWinds then 1 else 0)
        && (|r| > |head| && r[|head|] == 'e' <==> DescriptionFeminine(c.kind) && c.severity != Extreme)
        && (c.kind == StormWinds ==> EndsWith(r, "s"))
  {
    var word := SeverityDescription(c.severity);
    if word == "" then ""
    else
      var feminine := DescriptionFeminine(c.kind) && c.severity != Extreme;
      TypeName(c.kind, false) + " " + word + (if feminine then "e" else "") +
        (if c.kind == StormWinds then "s" else "")
  }

  /** `getIconUrl`: the icon path holds the lower-cased type code. */
  function IconUrl(t: CatastropheType): (r: string)
    ensures StartsWith(r, "/icons/") && EndsWith(r, "_b.png")
    ensures |r| == |t.Code()| + 13 && r[7..|r| - 6] == ToLower(t.Code())
  {
    "/icons/" + ToLower(t.Code()) + "_b.png"
  }

  /** A code with no lower-case letter (every named type's code) is told apart by
      its icon path. */
  lemma {:induction false} IconUrlInjective(t: CatastropheType, u: CatastropheType)
    requires forall i :: 0 <= i < |t.Code()| ==> !IsLowerLetter(t.Code()[i])
    requires forall i :: 0 <= i < |u.Code()| ==> !IsLowerLetter(u.Code()[i])
    requires IconUrl(t) == IconUrl(u)
    ensures t.Code() == u.Code()
  {
    var r := IconUrl(t);
    assert ToLower(t.Code()) == r[7..|r| - 6] == ToLower(u.Code());
    ToLowerInjective(t.Code(), u.Code());
  }
}
