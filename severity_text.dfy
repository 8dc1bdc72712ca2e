/** The severity words of the civil-security event files, as both offline scripts
    read them (`parse_old_severity` and `parse_new_severity` of
    tools/generate_catastrophes.py and tools/update_catastrophes.py, which are
    the same). */
module SeverityText {
  import opened Text
  import opened Catastrophes
  import FrenchLocale

  /** `parse_old_severity`: an upper-case severity word; any other text is Unknown. */
  function ParseOldSeverity(description: string): (r: Severity)
    ensures r == Extreme <==> description == "EXTRAORDINAIRE" || description == "EXTRÊME"
    ensures r == Important <==> description == "IMPORTANTE"
    ensures r == Moderate <==> description == "POSSIBLE" || description == "MODÉRÉE"
    ensures r == Minor <==> description == "FAIBLE" || description == "MINEURE"
  {
    if description == "EXTRAORDINAIRE" || description == "EXTRÊME" then Extreme
    else if description == "IMPORTANTE" then Important
    else if description == "POSSIBLE" || description == "MODÉRÉE" then Moderate
    else if description == "FAIBLE" || description == "MINEURE" then Minor
    else Severity.Unknown
  }

  /** The upper-case word of a severity in the old files (the feminine form). */
  function OldSeverityWord(s: Severity): string {
    match s
    case Extreme => "EXTRÊME"
    case Important => "IMPORTANTE"
    case Moderate => "MODÉRÉE"
    case Minor => "MINEURE"
    case Unknown => "INCONNUE"
  }

  /** Each severity's word reads back as that severity. */
  lemma OldSeverityWordRoundTrip(s: Severity)
    ensures ParseOldSeverity(OldSeverityWord(s)) == s
  {
  }

  /** The feminine singular word of each severity. */
  lemma FeminineWord(s: Severity)
    ensures FrenchLocale.TranslatedSeverity(s, true, false) ==
      match s
      case Extreme => "extrême"
      case Important => "importante"
      case Moderate => "modérée"
      case Minor => "mineure"
      case Unknown => "inconnue"
  {
  }

  /** The feminine singular words, upper-cased, are the old files' words. */
  lemma UpperFeminineWord(s: Severity)
    ensures ToUpper(match s
      case Extreme => "extrême"
      case Important => "importante"
      case Moderate => "modérée"
      case Minor => "mineure"
      case Unknown => "inconnue") == OldSeverityWord(s)
  {
  }

  /** The words the old files use are read as the severities the web site writes
      with them: a severity's feminine French word, upper-cased, reads back as
      that severity ("inconnue" as Unknown). */
  lemma ParseOldSeverityReadsFrenchWords(s: Severity)
    ensures ToUpper(FrenchLocale.TranslatedSeverity(s, true, false)) == OldSeverityWord(s)
    ensures ParseOldSeverity(ToUpper(FrenchLocale.TranslatedSeverity(s, true, false))) == s
  {
    FeminineWord(s);
    UpperFeminineWord(s);
    OldSeverityWordRoundTrip(s);
  }

  /** The characters `\w` matches, over ASCII and Latin-1. */
  predicate IsWordChar(c: char) {
    IsDigit(c) || c == '_' || IsUpperLetter(c) || IsLowerLetter(c) || c == 'ß' || c == 'ÿ' ||
    c == 'ª' || c == 'µ' || c == 'º'
  }

  /** `menace (\w+)`, case-insensitively, matches at position `p`. */
  predicate MenaceAt(s: string, p: int) {
    0 <= p && p + 7 < |s| && ToLower(s[p..p + 7]) == "menace " && IsWordChar(s[p + 7])
  }

  /** The first position from `from` on where the pattern matches, or -1:
      `severity_pattern.search`. */
  function FindMenace(s: string, from: nat): (r: int)
    ensures r == -1 || (from <= r && MenaceAt(s, r))
    ensures forall p :: from <= p && (r == -1 || p < r) ==> !MenaceAt(s, p)
    decreases |s| - from
  {
    if from + 7 >= |s| then -1
    else if MenaceAt(s, from) then from
    else FindMenace(s, from + 1)
  }

  /** `parse_new_severity`: the upper-cased word after the first match, read as an
      old severity word; Unknown when nothing matches. */
  function ParseNewSeverity(description: string): (r: Severity)
    ensures (forall p :: !MenaceAt(description, p)) ==> r == Severity.Unknown
    ensures forall p :: MenaceAt(description, p) && (forall q :: 0 <= q < p ==> !MenaceAt(description, q)) ==>
      r == ParseOldSeverity(ToUpper(LeadingRun(description[p + 7..], IsWordChar)))
  {
    var p := FindMenace(description, 0);
    if p < 0 then Severity.Unknown
    else ParseOldSeverity(ToUpper(LeadingRun(description[p + 7..], IsWordChar)))
  }

  /** A match at the very start decides. */
  lemma MatchAtStart(s: string)
    requires MenaceAt(s, 0)
    ensures ParseNewSeverity(s) == ParseOldSeverity(ToUpper(LeadingRun(s[7..], IsWordChar)))
  {
  }

  /** A run of word characters is read whole. */
  lemma {:induction false} WordRead(s: string, w: string)
    requires StartsWith(s, w) && (|s| == |w| || !IsWordChar(s[|w|]))
    requires forall i :: 0 <= i < |w| ==> IsWordChar(w[i])
    ensures LeadingRun(s, IsWordChar) == w
  {
    if w != [] {
      assert s[0] == w[0];
      WordRead(s[1..], w[1..]);
    }
  }

  /** "menace " in any case, then a word: the word, upper-cased, is read as an
      old severity word, whatever follows it. */
  lemma ParseNewSeverityOfWord(m: string, w: string, rest: string)
    requires ToLower(m) == "menace "
    requires w != [] && forall i :: 0 <= i < |w| ==> IsWordChar(w[i])
    requires rest == [] || !IsWordChar(rest[0])
    ensures ParseNewSeverity(m + w + rest) == ParseOldSeverity(ToUpper(w))
  {
    var s := m + w + rest;
    assert s[..7] == m;
    assert s[7..] == w + rest;
    MatchAtStart(s);
    WordRead(w + rest, w);
  }

  /** The pattern needs a word character right after "menace ". */
  lemma ParseNewSeverityNeedsWord()
    ensures ParseNewSeverity("menace  faible") == Severity.Unknown
  {
    var b := "menace  faible";
    assert !MenaceAt(b, 0) by { assert b[7] == ' '; }
    assert !MenaceAt(b, 1) by { assert ToLower(b[1..8])[0] == LowerChar(b[1]); }
    assert !MenaceAt(b, 2) by { assert ToLower(b[2..9])[0] == LowerChar(b[2]); }
    assert !MenaceAt(b, 3) by { assert ToLower(b[3..10])[0] == LowerChar(b[3]); }
    assert !MenaceAt(b, 4) by { assert ToLower(b[4..11])[0] == LowerChar(b[4]); }
    assert !MenaceAt(b, 5) by { assert ToLower(b[5..12])[0] == LowerChar(b[5]); }
    assert !MenaceAt(b, 6) by { assert ToLower(b[6..13])[0] == LowerChar(b[6]); }
    assert FindMenace(b, 6) == -1;
    assert FindMenace(b, 4) == -1;
    assert FindMenace(b, 2) == -1;
    assert FindMenace(b, 0) == -1;
  }
}
