/** Highlights and the store that lists them by year
    (src/models/highlights.ts, src/stores/highlights.ts). */
module HighlightsStore {
  import opened Seqs

  /** A highlight: a text about one year, in one locale. */
  datatype Highlight = Highlight(year: int, locale: string, title: string, body: string)

  class HighlightStore {
    var highlights: seq<Highlight>

    constructor()
      ensures highlights == []
    {
      highlights := [];
    }

    /** `findHighlights(year, locale)`. The locale test compares the argument
        with itself, so it always holds. */
    function FindHighlights(year: int, locale: string): (r: seq<Highlight>)
      reads this
      ensures |r| <= |highlights|
    {
      Filter(highlights, (x: Highlight) => x.year == year && locale == locale)
    }

    /** `getYearsWithHighlights(locale)`: the years of the highlights written in
        that locale. */
    function GetYearsWithHighlights(locale: string): (r: set<int>)
      reads this
      ensures forall y :: y in r <==> exists i :: 0 <= i < |highlights| && highlights[i].locale == locale && highlights[i].year == y
    {
      set i | 0 <= i < |highlights| && highlights[i].locale == locale :: highlights[i].year
    }

    /** The highlights of a year are exactly those with that year, in order, in
        every locale: the locale argument has no effect. */
    lemma FindHighlightsMembers(year: int, locale: string, other: string)
      ensures IsSubsequence(FindHighlights(year, locale), highlights)
      ensures forall h :: h in FindHighlights(year, locale) ==> h in highlights && h.year == year
      ensures forall h :: h in highlights && h.year == year ==> h in FindHighlights(year, locale)
      ensures FindHighlights(year, locale) == FindHighlights(year, other)
    {
      var p := (x: Highlight) => x.year == year && locale == locale;
      FilterIsSubsequence(highlights, p);
      FilterMembers(highlights, p);
      FilterExtensional(highlights, p, (x: Highlight) => x.year == year && other == other);
    }

    /** Every year listed for a locale has highlights to show. */
    lemma ListedYearsHaveHighlights(locale: string, year: int)
      requires year in GetYearsWithHighlights(locale)
      ensures FindHighlights(year, locale) != []
    {
      var i :| 0 <= i < |highlights| && highlights[i].locale == locale && highlights[i].year == year;
      FindHighlightsMembers(year, locale, locale);
      assert highlights[i] in FindHighlights(year, locale);
    }

    /** `loadHighlights`: the loaded list replaces the whole list. */
    method LoadHighlights(loaded: seq<Highlight>)
      modifies this
      ensures highlights == loaded
    {
      highlights := loaded;
    }
  }
}
