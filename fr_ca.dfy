/** The French (Canada) messages that describe events: grammatical gender of the
    type names, the agreement of severity adjectives, and the text of a single
    event and of a group of events (src/locales/fr-CA.ts). */
module FrenchLocale {
  import opened Common
  import opened Text
  import opened Catastrophes

  /** `isCatastropheFeminine`: the types whose French name is feminine. */
  predicate IsCatastropheFeminine(t: CatastropheType): (r: bool)
    ensures r ==> CatastropheNames(t).Some?
  {
    t == Flood || t == Tornado || t == FreezingRain || t == HeatWave || t == Ticks
  }

  /** On the types of the enumeration the locale and `formatDescription` agree on
      gender; the locale adds heat waves and ticks. */
  lemma FeminineAgrees(t: CatastropheType)
    ensures t.InEnum() ==> (IsCatastropheFeminine(t) <==> DescriptionFeminine(t))
    ensures IsCatastropheFeminine(t) ==> DescriptionFeminine(t) || t == HeatWave || t == Ticks
  {
  }

  /** The locale's `catastrophes` table: singular and plural name per type code. */
  function CatastropheNames(t: CatastropheType): (r: Option<(string, string)>)
    ensures r.Some? <==> t.InEnum() || t == HeatWave || t == Ticks
  {
    match t
    case Flood => Some(("Inondation", "Inondations"))
    case ForestFire => Some(("Feu de forêt", "Feux de forêt"))
    case ViolentStorm => Some(("Orage violent", "Orages violents"))
    case Tornado => Some(("Tornade", "Tornades"))
    case FreezingRain => Some(("Pluie verglaçante", "Pluies verglaçantes"))
    case WinterStorm => Some(("Tempête hivernale", "Tempêtes hivernales"))
    case StormWinds => Some(("Vent de tempête", "Vents de tempête"))
    case HeatWave => Some(("Vague de chaleur", "Vagues de chaleur"))
    case Ticks => Some(("Tique", "Tiques"))
    case _ => None
  }

  /** The locale's names extend the model's: they agree on every type of the
      enumeration. */
  lemma NamesAgree(t: CatastropheType)
    requires t.InEnum()
    ensures CatastropheNames(t) == TypeNames(t)
  {
  }

  // ---------------------------------------------------------------------------
  // `translateSeverity`.

  /** The masculine singular word of a severity, "inconnu" for Unknown. */
  function SeverityWord(s: Severity): string {
    match s
    case Extreme => "extrême"
    case Important => "important"
    case Moderate => "modéré"
    case Minor => "mineur"
    case Unknown => "inconnu"
  }

  /** What `translateSeverity` returns: the word, an 'e' for the feminine unless
      the word already ends in 'e', then an 's' for the plural unless it already
      ends in 's'. */
  function TranslatedSeverity(s: Severity, feminine: bool, plural: bool): string {
    Agreed(SeverityWord(s), feminine, plural)
  }

  /** A word made to agree: an 'e' for the feminine, then an 's' for the plural. */
  function Agreed(word: string, feminine: bool, plural: bool): string {
    var gendered := if feminine then AddSuffix(word, 'e') else word;
    if plural then AddSuffix(gendered, 's') else gendered
  }

  /** The word with `c` appended, unless it already ends with `c`. */
  function AddSuffix(w: string, c: char): string {
    if EndsWith(w, [c]) then w else w + [c]
  }

  /** Adding a suffix keeps the word as a prefix, adds at most one character, and
      leaves the word ending with it, after the word's own last character when
      that is another one. */
  lemma AddSuffixFacts(w: string, c: char)
    requires w != []
    ensures var r := AddSuffix(w, c);
      && |w| <= |r| <= |w| + 1 && r[..|w|] == w && r[|r| - 1] == c
      && (w[|w| - 1] != c ==> |r| == |w| + 1 && r[|r| - 2] == w[|w| - 1])
      && (w[|w| - 1] == c ==> r == w)
  {
    assert EndsWith(w, [c]) <==> w[|w| - 1] == c by {
      assert w[|w| - 1..] == [w[|w| - 1]];
    }
  }

  /** A text ends with one character, or with two, exactly when its last
      characters are those. */
  lemma EndsWithChars(r: string, a: char, b: char)
    ensures EndsWith(r, [b]) <==> r != [] && r[|r| - 1] == b
    ensures EndsWith(r, [a, b]) <==> |r| >= 2 && r[|r| - 2] == a && r[|r| - 1] == b
  {
    if |r| >= 1 {
      assert r[|r| - 1..] == [r[|r| - 1]];
    }
    if |r| >= 2 {
      assert r[|r| - 2..] == [r[|r| - 2], r[|r| - 1]];
    }
  }

  /** `translateSeverity(severity, feminine, plural)`, updating its result step by step. */
  method TranslateSeverity(severity: Severity, feminine: bool, plural: bool) returns (result: string)
    ensures result == TranslatedSeverity(severity, feminine, plural)
  {
    result := "inconnu";
    match severity {
      case Extreme => result := "extrême";
      case Important => result := "important";
      case Moderate => result := "modéré";
      case Minor => result := "mineur";
      case Unknown =>
    }
    if feminine && !EndsWith(result, "e") {
      result := result + "e";
    }
    if plural && !EndsWith(result, "s") {
      result := result + "s";
    }
  }

  /** The agreement rules: the result is the word, then an 'e' for the feminine
      unless the word already ends in one, then an 's' for the plural; a feminine
      form ends in 'e' before any plural 's', which is never doubled; a plural
      ends in 's'; "extrême" takes no second 'e'. */
  lemma TranslatedSeverityAgreement(s: Severity, feminine: bool, plural: bool)
    ensures var r := TranslatedSeverity(s, feminine, plural);
      var w := SeverityWord(s);
      && r == w + (if feminine && w[|w| - 1] != 'e' then "e" else "") + (if plural then "s" else "")
      && StartsWith(r, w) && |w| <= |r| <= |w| + 2
      && (plural ==> EndsWith(r, "s") && !EndsWith(r, "ss"))
      && (!plural ==> !EndsWith(r, "s"))
      && (feminine && !plural ==> EndsWith(r, "e") && !EndsWith(r, "ee"))
      && (feminine && plural ==> r == TranslatedSeverity(s, true, false) + "s")
      && (!feminine && !plural ==> r == w)
      && (s == Extreme && !plural ==> r == "extrême")
  {
    var w := SeverityWord(s);
    assert w[|w| - 1] != 's' && (w[|w| - 1] != 'e' || w[|w| - 2] != 'e');
    AgreedRules(w, feminine, plural);
  }

  /** The agreement rules for any word that is not empty, does not end in 's' and
      does not end in "ee". */
  lemma AgreedRules(w: string, feminine: bool, plural: bool)
    requires w != [] && w[|w| - 1] != 's' && (w[|w| - 1] != 'e' || |w| < 2 || w[|w| - 2] != 'e')
    ensures var r := Agreed(w, feminine, plural);
      && r == w + (if feminine && w[|w| - 1] != 'e' then "e" else "") + (if plural then "s" else "")
      && StartsWith(r, w) && |w| <= |r| <= |w| + 2
      && (plural ==> EndsWith(r, "s") && !EndsWith(r, "ss"))
      && (!plural ==> !EndsWith(r, "s"))
      && (feminine && !plural ==> EndsWith(r, "e") && !EndsWith(r, "ee"))
      && (feminine && plural ==> r == Agreed(w, true, false) + "s")
      && (!feminine && !plural ==> r == w)
  {
    var g := if feminine then AddSuffix(w, 'e') else w;
    GenderRules(w, feminine);
    PluralRules(g, plural);
    PrefixOfPrefix(w, g, Agreed(w, feminine, plural));
  }

  /** The gender step: the word, or the word ending in a single 'e'. */
  lemma GenderRules(w: string, feminine: bool)
    requires w != [] && w[|w| - 1] != 's' && (w[|w| - 1] != 'e' || |w| < 2 || w[|w| - 2] != 'e')
    ensures var g := if feminine then AddSuffix(w, 'e') else w;
      && g != [] && g[|g| - 1] != 's'
      && StartsWith(g, w) && |w| <= |g| <= |w| + 1
      && (feminine ==> EndsWith(g, "e") && !EndsWith(g, "ee") && g == Agreed(w, true, false))
      && (!feminine ==> g == w)
  {
    var g := if feminine then AddSuffix(w, 'e') else w;
    AddSuffixFacts(w, 'e');
    EndsWithChars(g, 'e', 'e');
  }

  /** The number step on a word not ending in 's': the word, or the word and one 's'. */
  lemma PluralRules(g: string, plural: bool)
    requires g != [] && g[|g| - 1] != 's'
    ensures var r := if plural then AddSuffix(g, 's') else g;
      && StartsWith(r, g) && |g| <= |r| <= |g| + 1
      && (plural ==> EndsWith(r, "s") && !EndsWith(r, "ss") && r == g + "s")
      && (!plural ==> r == g && !EndsWith(r, "s"))
  {
    var r := if plural then AddSuffix(g, 's') else g;
    AddSuffixFacts(g, 's');
    EndsWithChars(r, 's', 's');
  }

  /** A prefix of a prefix is a prefix. */
  lemma PrefixOfPrefix(a: string, b: string, c: string)
    requires StartsWith(b, a) && StartsWith(c, b)
    ensures StartsWith(c, a)
  {
    assert c[..|a|] == c[..|b|][..|a|];
  }

  /** Masculine singular forms are the words `getSeverityDescription` gives. */
  lemma TranslatedMatchesDescription(s: Severity)
    requires s != Severity.Unknown
    ensures TranslatedSeverity(s, false, false) == SeverityDescription(s)
  {
  }

  // ---------------------------------------------------------------------------
  // `catastrophe_with_severity`.

  /** The message for one event. `typeText` is the translation of the event's type
      that the message links to. The city is added, after "près de" for an
      approximate location and after "à" otherwise, only when `showCity` is set and
      the city is not empty. */
  function CatastropheWithSeverity(typeText: string, c: Catastrophe, showCity: bool): (r: string)
    ensures var head := typeText + " " + TranslatedSeverity(c.severity, IsCatastropheFeminine(c.kind), false);
      && StartsWith(r, head)
      && (r == head <==> !showCity || c.city == "")
      && (showCity && c.city != "" ==>
            EndsWith(r, (if c.locApprox then " près de " else " à ") + c.city))
      && (showCity && c.city != "" ==> r == head + (if c.locApprox then " près de " else " à ") + c.city)
  {
    var severity := TranslatedSeverity(c.severity, IsCatastropheFeminine(c.kind), false);
    var head := typeText + " " + severity;
    if showCity && c.city != "" then
      head + (if c.locApprox then " près de " else " à ") + c.city
    else head
  }

  /** Without the city, the message for an event of the enumeration with a known
      severity is the model's own description, except for storm winds, whose model
      description is put in the plural. */
  lemma WithSeverityMatchesDescription(c: Catastrophe)
    requires c.kind.InEnum() && c.kind != StormWinds && c.severity != Severity.Unknown
    ensures CatastropheWithSeverity(TypeName(c.kind, false), c, false) == FormatDescription(c)
  {
  }

  // ---------------------------------------------------------------------------
  // `catastrophe_group`.

  /** A group of events of one type at one place, as the map pins them. */
  datatype CatastropheGroup = CatastropheGroup(kind: CatastropheType, city: string, instances: seq<Catastrophe>)

  /** The lowest severity of a non-empty list of events (`minBy`). */
  function MinSeverity(events: seq<Catastrophe>): (r: Severity)
    requires |events| > 0
    ensures exists i :: 0 <= i < |events| && events[i].severity == r
    ensures forall i :: 0 <= i < |events| ==> SeverityLe(r, events[i].severity)
  {
    if |events| == 1 then events[0].severity
    else
      var rest := MinSeverity(events[1..]);
      assert forall i :: 1 <= i < |events| ==> events[i] == events[1..][i - 1];
      if SeverityLe(events[0].severity, rest) then events[0].severity else rest
  }

  /** The highest severity of a non-empty list of events (`maxBy`). */
  function MaxSeverity(events: seq<Catastrophe>): (r: Severity)
    requires |events| > 0
    ensures exists i :: 0 <= i < |events| && events[i].severity == r
    ensures forall i :: 0 <= i < |events| ==> SeverityLe(events[i].severity, r)
  {
    if |events| == 1 then events[0].severity
    else
      var rest := MaxSeverity(events[1..]);
      assert forall i :: 1 <= i < |events| ==> events[i] == events[1..][i - 1];
      if SeverityLe(rest, events[0].severity) then events[0].severity else rest
  }

  /** The words the group message joins with spaces: the city, the count and the
      name, then the severity range or the single severity. Defined for a group
      the message handles without a `TypeError`. */
  function GroupParts(g: CatastropheGroup): seq<string>
    requires CatastropheNames(g.kind).Some? && |g.instances| > 0
  {
    CityPart(g) + CountPart(g) + SeverityPart(g)
  }

  /** "<city>:" when the city is set. */
  function CityPart(g: CatastropheGroup): seq<string> {
    if g.city != "" then [g.city + ":"] else []
  }

  /** The count and the lower-cased plural name, or the singular name. */
  function CountPart(g: CatastropheGroup): seq<string>
    requires CatastropheNames(g.kind).Some?
  {
    var names := CatastropheNames(g.kind).value;
    if |g.instances| > 1 then [NatToString(|g.instances|), ToLower(names.1)] else [names.0]
  }

  /** The feminine severity range, or the one severity in the type's gender. */
  function SeverityPart(g: CatastropheGroup): seq<string>
    requires |g.instances| > 0
  {
    var best := MinSeverity(g.instances);
    var worst := MaxSeverity(g.instances);
    if best != worst then
      ["de sévérité", TranslatedSeverity(best, true, false), "à", TranslatedSeverity(worst, true, false)]
    else [TranslatedSeverity(best, IsCatastropheFeminine(g.kind), |g.instances| > 1)]
  }

  /** What `catastrophe_group` returns: '' for the Unknown type; `None` where the
      message throws, for a type without names or a group without instances
      (`minBy` of nothing is undefined). A group of a type of the enumeration
      with at least one event always has a message. */
  function GroupText(g: CatastropheGroup): (r: Option<string>)
    ensures g.kind.InEnum() && |g.instances| > 0 ==> r.Some?
  {
    if g.kind == CatastropheType.Unknown then Some("")
    else if CatastropheNames(g.kind).None? || |g.instances| == 0 then None
    else Some(Join(GroupParts(g), " "))
  }

  /** `catastrophe_group`, pushing parts onto a list and joining them. */
  method CatastropheGroupMessage(g: CatastropheGroup) returns (r: Option<string>)
    ensures r == GroupText(g)
  {
    if g.kind == CatastropheType.Unknown {
      return Some("");
    }
    var parts: seq<string> := [];
    if g.city != "" {
      parts := parts + [g.city + ":"];
    }
    var names := CatastropheNames(g.kind);
    if names.None? {
      return None;
    }
    var size := |g.instances|;
    if size > 1 {
      parts := parts + [NatToString(size), ToLower(names.value.1)];
    } else {
      parts := parts + [names.value.0];
    }
    if size == 0 {
      return None;
    }
    ghost var head := parts;
    assert head == CityPart(g) + CountPart(g);
    var best := MinSeverity(g.instances);
    var worst := MaxSeverity(g.instances);
    if best != worst {
      var low := TranslateSeverity(best, true, false);
      var high := TranslateSeverity(worst, true, false);
      parts := parts + ["de sévérité", low, "à", high];
    } else {
      var feminine := IsCatastropheFeminine(g.kind);
      var word := TranslateSeverity(best, feminine, size > 1);
      parts := parts + [word];
    }
    assert parts == head + SeverityPart(g);
    assert parts == GroupParts(g);
    r := Some(Join(parts, " "));
  }

  /** The layout of a group message: "<city>:" first exactly when the city is set;
      then "<count> <lower-cased plural name>" for several events or the singular
      name for one; then "de sévérité <min> à <max>" in the feminine when the
      severities differ, or else the one severity word, plural exactly when the
      group has several events. */
  lemma GroupPartsLayout(g: CatastropheGroup)
    requires CatastropheNames(g.kind).Some? && |g.instances| > 0
    ensures var p := GroupParts(g);
      var names := CatastropheNames(g.kind).value;
      var size := |g.instances|;
      var c := if g.city != "" then 1 else 0;
      var n := if size > 1 then 2 else 1;
      var best := MinSeverity(g.instances);
      var worst := MaxSeverity(g.instances);
      && (g.city != "" ==> p[0] == g.city + ":")
      && |p| == c + n + (if best != worst then 4 else 1)
      && (size > 1 ==> p[c] == NatToString(size) && DigitsValue(p[c]) == size && p[c + 1] == ToLower(names.1))
      && (size == 1 ==> p[c] == names.0)
      && (best != worst ==>
            p[c + n..] == ["de sévérité", TranslatedSeverity(best, true, false), "à", TranslatedSeverity(worst, true, false)]
            && SeverityLe(best, worst))
      && (best == worst ==>
            p[c + n] == TranslatedSeverity(best, IsCatastropheFeminine(g.kind), size > 1)
            && (EndsWith(p[c + n], "s") <==> size > 1)
            && forall i :: 0 <= i < size ==> g.instances[i].severity == best)
  {
    var p := GroupParts(g);
    var cityPart, countPart, severityPart := CityPart(g), CountPart(g), SeverityPart(g);
    var c := |cityPart|;
    var n := |countPart|;
    assert p[..c] == cityPart && p[c..c + n] == countPart && p[c + n..] == severityPart;
    CountPartLayout(g);
    SeverityPartLayout(g);
  }

  /** The count part: the decimal count, which reads back as the size, and the
      lower-cased plural for several events; the singular for one. */
  lemma CountPartLayout(g: CatastropheGroup)
    requires CatastropheNames(g.kind).Some? && |g.instances| > 0
    ensures var names := CatastropheNames(g.kind).value;
      var size := |g.instances|;
      var p := CountPart(g);
      && |p| == (if size > 1 then 2 else 1)
      && (size > 1 ==> p[0] == NatToString(size) && DigitsValue(p[0]) == size && p[1] == ToLower(names.1))
      && (size == 1 ==> p[0] == names.0)
  {
    if |g.instances| > 1 {
      NatToStringRoundTrip(|g.instances|);
    }
  }

  /** The severity part: the feminine range from the lowest to the highest
      severity when they differ; else the one severity, which every event has,
      in the plural exactly for several events. */
  lemma SeverityPartLayout(g: CatastropheGroup)
    requires |g.instances| > 0
    ensures var size := |g.instances|;
      var best := MinSeverity(g.instances);
      var worst := MaxSeverity(g.instances);
      var p := SeverityPart(g);
      && |p| == (if best != worst then 4 else 1)
      && (best != worst ==>
            p == ["de sévérité", TranslatedSeverity(best, true, false), "à", TranslatedSeverity(worst, true, false)]
            && SeverityLe(best, worst))
      && (best == worst ==>
            p[0] == TranslatedSeverity(best, IsCatastropheFeminine(g.kind), size > 1)
            && (EndsWith(p[0], "s") <==> size > 1)
            && forall i :: 0 <= i < size ==> g.instances[i].severity == best)
  {
    var best := MinSeverity(g.instances);
    if best == MaxSeverity(g.instances) {
      TranslatedSeverityAgreement(best, IsCatastropheFeminine(g.kind), |g.instances| > 1);
      forall i | 0 <= i < |g.instances| ensures g.instances[i].severity == best {
        SeverityOrder(g.instances[i].severity, best);
      }
    }
  }

}
