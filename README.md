# vireauvert in Dafny

A model of the data logic of vireauvert, a climate dashboard for Quebec. The web site shows, year by year, the catastrophes (floods, forest fires, storms, heat waves…) that struck each electoral district. It also shows regional temperature and precipitation statistics and the candidates of each district, with French-Canadian descriptions. Python and Node scripts prepare its data files offline.

The model covers these parts:

- **Web site models** (`Catastrophes`, `FrenchLocale`, `YearlyData`, `Constants`, `MathHelpers`, `Timeline`):
  - catastrophe types and severities, the parsing of an event document and the French description builders;
  - the GeoJSON ring flattening of a region and the events it contains (RFC 7946 sections 3.1.6 and 3.1.8);
  - the timeline years and the year-to-index arithmetic of the interpolated timeline.
- **Stores** (`CatastrophesStore`, `StatisticsStore`, `CandidatesStore`, `HighlightsStore`): classes whose fields the load actions replace, with their getters as functions.
- **Offline scripts** (`ToolsUtils`, `SeverityText`, `GenerateCatastrophes`, `UpdateCatastrophes`, `UpdateCatastrophesMjs`, `FetchClimateData`, `GenerateCandidates`, `GenerateMeteoData`, `UpdateMeteoData`, `GenerateData`):
  - each script takes its files as already-read rows, lists and maps;
  - the loops that fill lists and dictionaries are methods, proved equal to a fold (`Common.Collect`) over the rows. `Common.Outcome` records for each row whether it is kept, skipped, or raises the exception that aborts the script;
  - lemmas state what the fold means.

Shared helper modules:

- `Common`: Option, Result and the row fold.
- `Text`: case mapping, strip, decimal text and the integer prefix readers.
- `Seqs`: order-preserving filter, stable sort and grouping.
- `PyDict`: an insertion-ordered dictionary.
- `Dates`: calendar dates and their ISO text.
- `Entries`: the entry-by-entry map update of the stores.

Foreign functions are parameters of the members that call them:

- the point-in-polygon and shapely containment tests;
- `strptime`, `new Date`, `toISOString`, `datetime(...)` and `toordinal`;
- `float`, `parseFloat` and the degrees-minutes-seconds reader;
- `findRegionByDistrict`;
- the French collation order.

## Model

| member | source | states |
|---|---|---|
| Catastrophes.TypeOfCode | src/models/catastrophes.ts:1-9 | `doc.type as CatastropheType` keeps the code: the type's code is the string read, and only a string that is no type's code gives `Other` |
| Catastrophes.TypeCodeRoundTrip | src/models/catastrophes.ts:1-9 | reading back a type's code gives the type |
| Catastrophes.SeverityOfValue | src/models/catastrophes.ts:24-30 | exactly the numbers 0 to 4 are severities, each numbered by its value |
| Catastrophes.SeverityOrder | src/models/catastrophes.ts:24-30 | severities are totally ordered by their number, and the number determines the severity |
| Catastrophes.ParseCatastrophe | src/models/catastrophes.ts:42-52 | id, city, type, severity and district are copied; lat is `location[0]` and lng `location[1]`, with no swap |
| Catastrophes.ParseCatastropheRoundTrip | src/models/catastrophes.ts:42-52 | parsing the document of an exact-location event gives the event back when the date parser inverts the printer |
| Catastrophes.TypeName | src/models/catastrophes.ts:54-67 | the plural name for `plural`, the singular otherwise, and '' exactly for a type without an entry |
| Catastrophes.TypeNamesDistinct | src/models/catastrophes.ts:54-62 | every member of the enumeration has distinct singular and plural names, and no two members share one |
| Catastrophes.SeverityDescription | src/models/catastrophes.ts:69-82 | the word is '' exactly for Unknown |
| Catastrophes.FormatDescription | src/models/catastrophes.ts:83-98 | '' exactly for Unknown severity; otherwise the singular name, a space and the word, then an 'e' exactly for a feminine type below Extreme, then an 's' exactly for storm winds |
| Catastrophes.IconUrl | src/models/catastrophes.ts:100-102 | the path is `/icons/`, the lower-cased code, then `_b.png` |
| Catastrophes.IconUrlInjective | src/models/catastrophes.ts:100-102 | types whose codes have no lower-case letter have distinct icon paths |
| FrenchLocale.IsCatastropheFeminine | src/locales/fr-CA.ts:4-10 | every type it calls feminine has a name in the locale's table; `FeminineAgrees` states which types they are |
| FrenchLocale.FeminineAgrees | src/locales/fr-CA.ts:4-10 | on the enumeration's types the feminine types are exactly those of `formatDescription`; the only others are HeatWave and Ticks |
| FrenchLocale.CatastropheNames | src/locales/fr-CA.ts:12-22 | the locale names exactly the enumeration's types plus HeatWave and Ticks |
| FrenchLocale.NamesAgree | src/locales/fr-CA.ts:12-19 | on the enumeration's types the locale's names are the model's `typeNames` |
| FrenchLocale.TranslateSeverity | src/locales/fr-CA.ts:24-47 | the step-by-step result equals the agreement rule `TranslatedSeverity`, which `TranslatedSeverityAgreement` states exactly: the word, an 'e' for the feminine unless the word ends in 'e', then an 's' for the plural |
| FrenchLocale.TranslatedSeverityAgreement | src/locales/fr-CA.ts:24-47 | the result is exactly the severity's word, then an 'e' when feminine and the word does not end in 'e', then an 's' when plural; so a plural ends in one 's', a feminine singular in one 'e', and "extrême" is unchanged |
| FrenchLocale.AgreedRules | src/locales/fr-CA.ts:40-45 | for any word not ending in 's' or "ee", the result is exactly the word, then an 'e' when feminine and the word does not end in 'e', then an 's' when plural; a plural ends in exactly one 's', a feminine singular in exactly one 'e', the masculine singular is the word itself |
| FrenchLocale.TranslatedMatchesDescription | src/locales/fr-CA.ts:25-39 | the masculine singular of a known severity is the word `getSeverityDescription` gives |
| FrenchLocale.CatastropheWithSeverity | src/locales/fr-CA.ts:75-91 | exactly the type text, a space and the severity in the type's gender, followed by " près de " (approximate location) or " à " and the city when the city is shown and not empty, and by nothing otherwise |
| FrenchLocale.WithSeverityMatchesDescription | src/locales/fr-CA.ts:75-91 | without the city the message equals `formatDescription` for a known severity of an enumeration type other than storm winds |
| FrenchLocale.MinSeverity | src/locales/fr-CA.ts:111 | `minBy(severity)` is the severity of some instance and at most every instance's |
| FrenchLocale.MaxSeverity | src/locales/fr-CA.ts:112 | `maxBy(severity)` is the severity of some instance and at least every instance's |
| FrenchLocale.GroupText | src/locales/fr-CA.ts:93-120 | a group of a type of the enumeration with at least one event always has a message |
| FrenchLocale.CatastropheGroupMessage | src/locales/fr-CA.ts:93-120 | the pushed parts joined by spaces, '' for the Unknown type, no message where the code throws |
| FrenchLocale.GroupPartsLayout | src/locales/fr-CA.ts:99-119 | "<city>:" first exactly when the city is set; the count and the lower-cased plural, or the singular; then "de sévérité <min> à <max>" when severities differ, else one word, plural exactly for several events |
| YearlyData.GetPolygons | src/models/yearly_data.ts:40-52 | the push loop computes the ring list `Rings`: a Polygon's rings, the concatenation over a collection's members, none otherwise |
| YearlyData.RingsOfSimpleGeometries | src/models/yearly_data.ts:41-51 | a Polygon yields its ring list unchanged, outer ring and holes alike (RFC 7946 section 3.1.6); every other non-collection geometry yields no ring |
| YearlyData.RingsOfAllConcat | src/models/yearly_data.ts:44-50 | the rings of a concatenation of members are the concatenation of their rings |
| YearlyData.RingsOfCollection | src/models/yearly_data.ts:44-50 | a collection's rings are its first member's followed by the rest's, in order (RFC 7946 section 3.1.8) |
| YearlyData.SomeRingContains | src/models/yearly_data.ts:59 | `polygons.some(...)` holds exactly when some ring contains the point |
| YearlyData.FilterByRegion | src/models/yearly_data.ts:54-63 | never more events than given; `FilterByRegionMembers`, `FilterByRegionEmpty` and `FilterByRegionIdempotent` state which events it keeps and when it gives none |
| YearlyData.FilterByRegionMembers | src/models/yearly_data.ts:54-63 | the result is a subsequence of the events, holding exactly those whose point `[lng, lat]` lies in some ring |
| YearlyData.FilterByRegionEmpty | src/models/yearly_data.ts:55-62 | no geometry, no events or no ring gives an empty result |
| YearlyData.FilterByRegionIdempotent | src/models/yearly_data.ts:57-60 | filtering the result again by the same region changes nothing |
| MathHelpers.Clamp | src/utils/math_helpers.ts:1-3 | the result lies in [lo, hi] when lo ≤ hi, is the value itself inside the bounds, and is hi whenever lo > hi, since `min` is applied last |
| MathHelpers.ClampIdempotent | src/utils/math_helpers.ts:1-3 | clamping twice is clamping once |
| MathHelpers.Lerp | src/utils/math_helpers.ts:5-7 | ratio 0 gives a, ratio 1 gives b |
| MathHelpers.LerpBetween | src/utils/math_helpers.ts:5-7 | for a ratio in [0, 1] the value lies between the end points |
| Timeline.RoundQuotient | src/utils/interpolated_years.ts:49 | `Math.round(a / d)` is the integer nearest to a/d, halves rounded up |
| Timeline.RoundExact | src/utils/interpolated_years.ts:49 | an exact quotient rounds to itself |
| Timeline.IndexOf | src/utils/interpolated_years.ts:58 | `indexOf` is the first position of the year, and -1 exactly when it is absent |
| Timeline.InterpolatedYears.constructor | src/utils/interpolated_years.ts:33-41 | the fields are the arguments and `totalYearsPadded` = continuous.length + (padding + 1) · modeled.length |
| Timeline.InterpolatedYears.IndexToYear | src/utils/interpolated_years.ts:43-52 | `continuous[i]` for a continuous index; past them always a modeled year, because the modeled index is clamped |
| Timeline.InterpolatedYears.YearToIndex | src/utils/interpolated_years.ts:54-61 | a year up to the last continuous one is counted from the first; a later one is placed after the padding of its modeled position |
| Timeline.InterpolatedYears.ContinuousRoundTrip | src/utils/interpolated_years.ts:43-57 | for consecutive continuous years, `yearToIndex(continuous[i])` = i and `indexToYear` maps it back |
| Timeline.InterpolatedYears.ModeledRoundTrip | src/utils/interpolated_years.ts:47-60 | for distinct modeled years after the continuous ones, the k-th sits at continuous.length + padding + k·(padding + 1) and maps back to itself |
| Timeline.InterpolatedYears.UnmodeledYear | src/utils/interpolated_years.ts:58-60 | a later year that is not modeled lands on index continuous.length − 1, since `indexOf` gives −1 |
| Timeline.PushPadding | src/utils/interpolated_years.ts:73-79 | the `forEach` pushes `padding` indices counting up from `index` and the interpolated values, and advances `index` by `padding` |
| Timeline.InterpolatedYears.Interpolate | src/utils/interpolated_years.ts:63-85 | the arrays are the continuous prefix followed by one block of padding points and the real point per later data point |
| Timeline.IndexBlocksAt | src/utils/interpolated_years.ts:70-80 | the j-th index pushed for the m-th later point is continuous.length + m·padding + j, so the real point repeats the next block's first index |
| Timeline.InterpolatedValueAt | src/utils/interpolated_years.ts:73-81 | the j-th pushed value of the m-th later point is lerp(previous, current, (j + 1)/(padding + 1)), or the point itself at the block's end |
| Timeline.IndicesSteps | src/utils/interpolated_years.ts:76-80 | consecutive indices grow by at most one and never decrease; they repeat across a block boundary |
| Timeline.IndexBlocksLength | src/utils/interpolated_years.ts:72-83 | k later points push k·(padding + 1) indices |
| Timeline.ValueBlocksLength | src/utils/interpolated_years.ts:72-83 | k later points push k·(padding + 1) values |
| Timeline.InterpolatedYears.InterpolatedLength | src/utils/interpolated_years.ts:66-83 | with one data point per year both arrays have `totalYearsPadded` entries (the count of lines 39-40) |
| Constants.YearRange | src/models/constants.ts:6 | `[...Array(count).keys()].map(x => first + x)` holds `first + i` at position i, `count` entries |
| Constants.SameLengthOrder | src/models/constants.ts:6 | for numbers with the same count of digits the default string order of `sort()` is numeric order |
| Constants.NatToStringInjective | src/models/constants.ts:6 | the decimal text `sort()` compares determines the number |
| Constants.TimelineYears | src/models/constants.ts:6 | 48 years, the 46 continuous ones and the two scenario years; `TimelineYearsUnchanged`, `TimelineYearsShape` and `TimelineYearsMembers` state what the string sort leaves |
| Constants.TimelineYearsUnchanged | src/models/constants.ts:1-6 | sorting as text leaves the timeline as 1990 to 2035 followed by 2050 and 2100 |
| Constants.TimelineYearsShape | src/models/constants.ts:1-6 | 48 entries, the first is REFERENCE_YEAR = MIN_CONTINUOUS_YEAR = 1990, and 2035 is followed only by the two scenario years |
| Constants.TimelineYearsIncreasing | src/models/constants.ts:6 | though sorted as strings, the timeline is strictly increasing as numbers |
| Constants.TimelineYearsMembers | src/models/constants.ts:1-6 | a year is in the timeline exactly when it is in 1990..2035 or is 2050 or 2100 |
| CatastrophesStore.FilterEventsMembers | src/stores/catastrophes.ts:13-20 | the result is a subsequence of the year's events holding exactly those of the district (any district for 0) whose type is in the filter; an empty filter keeps nothing |
| CatastrophesStore.FilterEventsIdempotent | src/stores/catastrophes.ts:14-19 | filtering the result again changes nothing |
| CatastrophesStore.CatastropheStore.constructor | src/stores/catastrophes.ts:7-11 | the store starts with no year loaded |
| CatastrophesStore.CatastropheStore.FindCatastrophes | src/stores/catastrophes.ts:13-20 | a year with nothing loaded gives no event; otherwise the filtered events of the year |
| CatastrophesStore.CatastropheStore.LoadCatastrophes | src/stores/catastrophes.ts:23-29 | the loop sets, entry by entry, the year `parseInt(year, 10)` to its parsed documents |
| CatastrophesStore.LoadedYear | src/stores/catastrophes.ts:25-28 | a year read from some entry holds the parsed documents of the last entry for it, in document order; every other year is untouched |
| StatisticsStore.Fallback | src/stores/statistics.ts:18-35 | the district's own entry first; otherwise the entry of the region `findRegionByDistrict` gives, if any; nothing exactly when neither exists |
| StatisticsStore.FallbackIgnoresRegion | src/stores/statistics.ts:18 | with a district entry the region lookup is never consulted |
| StatisticsStore.StatisticStore.constructor | src/stores/statistics.ts:8-13 | both maps start empty |
| StatisticsStore.StatisticStore.FindStatistics | src/stores/statistics.ts:15-28 | {} when nothing is loaded for the year or neither key is present; otherwise the district's entry, else the region's |
| StatisticsStore.StatisticStore.GetYearOverTarget | src/stores/statistics.ts:29-38 | the same fallback, `undefined` exactly when neither key is present |
| StatisticsStore.StatisticStore.LoadStatistics | src/stores/statistics.ts:41-52 | each year entry is set under its decimal key in turn; the over-target map is replaced wholesale by the entries read with `parseInt` |
| StatisticsStore.LoadedStatistics | src/stores/statistics.ts:47-51 | a loaded year holds the last entry's statistics and other years keep theirs; the over-target map holds exactly the regions read, with the last value |
| Entries.LastWithKey | src/stores/statistics.ts:47-51 | the last entry whose key reads as the given number, or -1 when none does |
| Entries.SetParsedAt | src/stores/catastrophes.ts:25-28 | after setting the entries in order a key holds the value of its last entry, and a key no entry reads keeps its old value |
| CandidatesStore.InDistrictMembers | src/stores/candidates.ts:13-15 | exactly the candidates of the district, in order, with no special case for 0; no match gives [] |
| CandidatesStore.CandidateStore.constructor | src/stores/candidates.ts:7-11 | the store starts with no candidate |
| CandidatesStore.CandidateStore.CandidatesByDistrict | src/stores/candidates.ts:13-15 | a subsequence of the candidates holding every candidate of the district and no other |
| CandidatesStore.CandidateStore.LoadCandidates | src/stores/candidates.ts:18-21 | the loaded list replaces the whole list |
| CandidatesStore.TestCandidatesByDistrict | test/stores/candidates.spec.ts:13-29 | with Lesage (708) and Lévesques (250), district 111 has nobody and district 250 only the second |
| HighlightsStore.HighlightStore.constructor | src/stores/highlights.ts:7-11 | the store starts with no highlight |
| HighlightsStore.HighlightStore.FindHighlights | src/stores/highlights.ts:13-15 | never more highlights than the store holds; `FindHighlightsMembers` states that it gives exactly the year's highlights, in order, in every locale |
| HighlightsStore.HighlightStore.FindHighlightsMembers | src/stores/highlights.ts:13-15 | exactly the highlights of the year, in order, whatever the locale, since it compares `locale === locale` |
| HighlightsStore.HighlightStore.GetYearsWithHighlights | src/stores/highlights.ts:16-18 | exactly the years of the highlights written in the locale |
| HighlightsStore.HighlightStore.ListedYearsHaveHighlights | src/stores/highlights.ts:13-18 | every year listed for a locale has highlights to show |
| HighlightsStore.HighlightStore.LoadHighlights | src/stores/highlights.ts:21-24 | the loaded list replaces the whole list |
| ToolsUtils.ContainsPoint | tools/utils.py:23-29 | the early-return search answers whether some member of a collection contains the point, recursively, and any other geometry by the primitive test |
| ToolsUtils.ContainsCollection | tools/utils.py:24-28 | an empty collection contains nothing; a non-empty one contains the point exactly when its first member or the rest does |
| ToolsUtils.LoadMap | tools/utils.py:16-21 | the loop sets `districts[id] = shape` for each feature in turn |
| ToolsUtils.LoadMapLastWins | tools/utils.py:16-21 | every feature's id is a key and no other; a repeated id holds the last feature's shape |
| SeverityText.ParseOldSeverity | tools/update_catastrophes.py:59-68 | each severity is read from exactly its upper-case words (EXTRAORDINAIRE or EXTRÊME, IMPORTANTE, POSSIBLE or MODÉRÉE, FAIBLE or MINEURE); every other text is Unknown |
| SeverityText.ParseOldSeverityReadsFrenchWords | tools/update_catastrophes.py:59-68 | the feminine French word the web site writes for a severity, upper-cased, is the old files' word for it and reads back as that severity |
| SeverityText.FindMenace | tools/update_catastrophes.py:57 | `severity_pattern.search`: the result is the first position at or after the start where `menace ` (any case) is followed by a word character, or -1 when there is none |
| SeverityText.ParseNewSeverity | tools/update_catastrophes.py:70-75 | no match gives Unknown; otherwise the word after the first match, upper-cased, is read as an old severity word |
| SeverityText.MatchAtStart | tools/update_catastrophes.py:70-75 | a match at position 0 decides the severity |
| SeverityText.ParseNewSeverityOfWord | tools/update_catastrophes.py:57-75 | `menace ` in any case, a word and a non-word character: the severity is the old reading of the upper-cased word, whatever follows |
| SeverityText.ParseNewSeverityNeedsWord | tools/update_catastrophes.py:57 | two spaces after `menace` give no match, so the severity is Unknown |
| UpdateCatastrophes.DirectionSign | tools/update_catastrophes.py:18 | the sign is -1 exactly for the stripped directions `O` and `S`, and +1 otherwise |
| UpdateCatastrophes.ConvertLatLon | tools/update_catastrophes.py:16-18 | a value exactly when the text splits into degrees, minutes, seconds and direction; its magnitude is the unsigned value, and it is non-positive exactly for west, south or zero |
| UpdateCatastrophes.CityEntry | tools/update_catastrophes.py:21-26 | a municipality is skipped exactly when its code, latitude or longitude is missing or empty; a kept one maps its code to `[latitude, longitude]` converted |
| UpdateCatastrophes.LoadCities | tools/update_catastrophes.py:13-27 | the table is the kept entries put in order, and a conversion error aborts |
| UpdateCatastrophes.CitiesTable | tools/update_catastrophes.py:20-27 | a code is a key exactly when some municipality is listed with it, and it holds the position of the last such municipality |
| UpdateCatastrophes.EventTypes | tools/update_catastrophes.py:47-55 | every label it knows stands for a type of the web site's enumeration; `EventTypesRange` adds which types and thresholds |
| UpdateCatastrophes.EventTypesRange | tools/update_catastrophes.py:47-55 | every label stands for a type the web site knows, read back from its own code, other than heat wave, ticks and Unknown, with a threshold of at least Minor |
| UpdateCatastrophes.Known | tools/update_catastrophes.py:79-83 | a label is known exactly when, lower-cased, it is in `event_types` and the severity reaches its threshold |
| UpdateCatastrophes.NewLine | tools/update_catastrophes.py:77-92 | a row of other than 14 cells raises; a row is skipped exactly when its type is unknown or too mild; a kept row has the type's code, the severity read from the alert, the date of `date_debut` or else `date_signalement` at midnight and the location `[coord_y, coord_x]` |
| UpdateCatastrophes.OldLine | tools/update_catastrophes.py:94-112 | a row of other than 11 cells raises; an unknown or too mild type is skipped; a known row with a date is kept exactly when its year is after 2000 and its municipality has a non-empty position, which becomes the location |
| UpdateCatastrophes.ParseFile | tools/update_catastrophes.py:114-121 | the loop appends, in file order, the record of every row after the header that gives one, and a raising row aborts |
| UpdateCatastrophes.UpdateAll | tools/update_catastrophes.py:125-126 | a failure carries the error of a row of the old or of the new file that raised; `UpdateAllSpec` states when it succeeds and what the events file then holds |
| UpdateCatastrophes.UpdateAllSpec | tools/update_catastrophes.py:123-126 | the script succeeds exactly when no row of either file raises, and then the file holds the kept old records followed by the kept new records |
| UpdateCatastrophesMjs.EventCodeNamesInverse | tools/update_catastrophes.mjs:11-30 | the code table is one to one: a code has a name exactly when that name has the code |
| UpdateCatastrophesMjs.TranslateEventCode | tools/update_catastrophes.mjs:11-29 | a type it gives is a name of the code table, and the table's inverse reads that name back to a code of the same type; `QuotedCodeTranslates` and `LetterCodeUntranslated` state what quoted and letter cells give |
| UpdateCatastrophesMjs.EventCodesKnown | tools/update_catastrophes.mjs:12-29 | exactly the codes 133, 138, 139, 166, 171, 39 and 8 have a type |
| UpdateCatastrophesMjs.QuotedCodeTranslates | tools/update_catastrophes.mjs:12 | a quoted cell of digits translates like its bare digits, as the type of their decimal value |
| UpdateCatastrophesMjs.LetterCodeUntranslated | tools/update_catastrophes.mjs:12-28 | a cell starting with a letter once its first quote is removed (the header) has no type |
| UpdateCatastrophesMjs.Cell | tools/update_catastrophes.mjs:39 | destructuring gives the cell at an index, and `undefined` exactly past the end of the line |
| UpdateCatastrophesMjs.LineEvent | tools/update_catastrophes.mjs:39-53 | a line is skipped exactly when its first cell has no type; a kept line has that type, the location `[coord_y, coord_x]`, the description `alea` and the date of `date_debut`, or of `date_signalement` when that is missing or empty |
| UpdateCatastrophesMjs.ConvertLines | tools/update_catastrophes.mjs:38-54 | the loop gives the events of the typed lines, in input order, and an invalid date aborts |
| UpdateCatastrophesMjs.ConvertLinesSpec | tools/update_catastrophes.mjs:38-54 | the output is the kept events in input order, each with one of the seven type names of the table |
| FetchClimateData.FirstCity | tools/fetch_climate_data.py:61 | the index of the first municipality whose normalised name starts the station name, -1 when none does, and no earlier one does |
| FetchClimateData.CityName | tools/fetch_climate_data.py:61 | a non-empty name is the name of a municipality whose normalised name starts the lower-cased station name, and '' is given when none does |
| FetchClimateData.StationEntry | tools/fetch_climate_data.py:55-67 | a row of other than 16 cells raises; a station outside Quebec, without both daily years or ending before the first year kept is skipped; a kept one is keyed by its climate id, named after its first matching municipality, located at `[lng, lat]`, starts at the later of its first daily year and the first year kept and ends at its last daily year |
| FetchClimateData.LoadStations | tools/fetch_climate_data.py:49-67 | the table is the kept stations of the rows after the header put in order, so a repeated id keeps the last row, and a raising row aborts |
| FetchClimateData.ReadingEntry | tools/fetch_climate_data.py:82-88 | a row of other than 31 cells raises; a row is dropped exactly when its maximum temperature is empty; a kept reading has the date of its year, month and day and the temperature read |
| FetchClimateData.DetectHeatWaves | tools/fetch_climate_data.py:92-110 | the scan with its running start and length writes exactly the waves of the reference definition, in order |
| FetchClimateData.RunShape | tools/fetch_climate_data.py:94-106 | a run from a reading covers counting readings only and is closed by the end of the series or by a reading that does not count |
| FetchClimateData.WavesAtStarts | tools/fetch_climate_data.py:94-110 | each wave found is the run of a distinct run start of at least three readings, at increasing positions |
| FetchClimateData.HeatWavesMembers | tools/fetch_climate_data.py:94-110 | a wave is written exactly for a maximal run of at least three readings of 30 degrees or more, each at most a day after the one before, starting after the first reading; its start is the run's first date and its length the run's |
| FetchClimateData.HeatWavesDisjoint | tools/fetch_climate_data.py:98-106 | two waves never share a reading: a reading that does not count lies between them; on readings sorted by date they come in date order |
| FetchClimateData.StationWaves | tools/fetch_climate_data.py:78-110 | a station's waves are computed exactly when none of its rows raises |
| FetchClimateData.StationWavesSpec | tools/fetch_climate_data.py:78-110 | the waves of a station's file, read and sorted by date, each last at least three days and come in date order |
| GenerateCatastrophes.EventTypes | tools/generate_catastrophes.py:37-47 | every label it knows stands for one of the script's types; `EventTypesRange` adds that the heat wave is not one of them and the thresholds |
| GenerateCatastrophes.EventTypesRange | tools/generate_catastrophes.py:37-47 | every label stands for a type of the script other than the heat wave, read back from its own code, with a threshold of at least Minor |
| GenerateCatastrophes.StormWindsWrittenAsList | tools/generate_catastrophes.py:27-35 | the trailing comma makes the storm winds' value a one-element list, while every other type is written as its code (the value line 197 writes) |
| GenerateCatastrophes.TypeValueOf | tools/generate_catastrophes.py:27-35 | the intended value of a type, its code string, which line 197 would write if the storm winds' member had no trailing comma |
| GenerateCatastrophes.TypeValueRoundTrip | tools/generate_catastrophes.py:27-35 | with the intended values written by line 197, the web site reads every type of the script back from the value written |
| GenerateCatastrophes.Known | tools/generate_catastrophes.py:117-121 | a label it accepts stands for one of the script's types, and the severity reaches that type's threshold |
| GenerateCatastrophes.OldRecord | tools/generate_catastrophes.py:91-109 | a feature raises exactly when its date does not parse; it is kept exactly when its year is the first year kept or later and its type is known at its severity; a kept record has that type and severity, the feature's coordinates and name, and is approximate exactly when its imprecision is `localisation` |
| GenerateCatastrophes.NewRecord | tools/generate_catastrophes.py:115-132 | a row of other than 14 cells raises and an unknown or too mild type is skipped; a kept record has the severity read from the alert, the id `code_alea + code_municipalite + date`, the date of `date_debut` or else `date_signalement`, the city, the location `[coord_x, coord_y]`, and is approximate exactly for `imprécise` |
| GenerateCatastrophes.FireSeverity | tools/generate_catastrophes.py:139-148 | a fire always gets a known severity, since the four area ranges cover every area; `FireSeverityOrder` states the order and the 1000-hectare threshold |
| GenerateCatastrophes.FireSeverityOrder | tools/generate_catastrophes.py:139-148 | a fire's severity never decreases with its area, is never Unknown, and reaches Important exactly from 1000 hectares |
| GenerateCatastrophes.Fire | tools/generate_catastrophes.py:137-159 | a fire never raises; it is kept exactly when its year is the first year kept or later and it burnt at least 1000 hectares; a kept record has the key, `[longitude, latitude]`, the start date and is not approximate |
| GenerateCatastrophes.HeatWaveSeverity | tools/generate_catastrophes.py:168 | a duration has a severity exactly from 2 days, and its number is the duration minus 2, at most 4 |
| GenerateCatastrophes.HeatWaveKept | tools/generate_catastrophes.py:168-169 | a heat wave reaches Important exactly when it lasted at least 5 days |
| GenerateCatastrophes.HeatWaveRecord | tools/generate_catastrophes.py:165-180 | a row of other than 6 cells or a duration under 2 raises; a duration of 2 to 4 days is skipped; a kept heat wave has the id `station_id + "_" + date`, the location `[lng, lat]`, is approximate and has a city exactly when the name is not empty |
| GenerateCatastrophes.AppendRecords | tools/generate_catastrophes.py:109 | the loop appends, in order, every record its parser keeps, and a raising record aborts (the same loop appends at lines 132, 159 and 180) |
| GenerateCatastrophes.AllRecordsSpec | tools/generate_catastrophes.py:182-188 | `AllRecords`, the four parsers in a row, succeeds exactly when no row of any source raises, and then holds the kept records of the pre-2020 file, the post-2020 file, the fires and the heat waves, in that order; a failure carries the error of a row that raised |
| GenerateCatastrophes.FirstDistrict | tools/generate_catastrophes.py:206-210 | the district is 0 or a key, a non-zero district contains the point, and 0 is given when no district contains it |
| GenerateCatastrophes.FirstDistrictIsFirst | tools/generate_catastrophes.py:206-210 | a non-zero district is a key with no containing key before it, and the first key, in the dictionary's order, whose shape contains the point is the district found |
| GenerateCatastrophes.FindDistrict | tools/generate_catastrophes.py:206-210 | the loop with its `break` gives `FirstDistrict`, which `FirstDistrictIsFirst` shows is the first district, in the dictionary's order, whose shape contains the point |
| GenerateCatastrophes.OutputOf | tools/generate_catastrophes.py:194-204 | the output object carries a code string as its type, a severity number of at most 4 and the district it is given |
| GenerateCatastrophes.Tagged | tools/generate_catastrophes.py:194-210 | the district of the output is 0 or a key of the districts, and a non-zero one contains the event's location |
| GenerateCatastrophes.GroupByYear | tools/generate_catastrophes.py:190-212 | the records, sorted by date, are tagged with their district and appended to the list of their year's text |
| GenerateCatastrophes.YearTextMeansYear | tools/generate_catastrophes.py:212 | two records share a key exactly when they share a year |
| GenerateCatastrophes.OfYearSpec | tools/generate_catastrophes.py:190-212 | the records of a year, taken from the sorted list, are in date order and are exactly the input's records of that year |
| GenerateCatastrophes.SortByMembers | tools/generate_catastrophes.py:190 | sorting by date keeps exactly the records it was given |
| GenerateCatastrophes.GroupByYearKeys | tools/generate_catastrophes.py:212 | a year is a key of the output exactly when some record has that year |
| GenerateCatastrophes.GroupByYearLists | tools/generate_catastrophes.py:193-212 | a year's list is the output objects of that year's records, in sorted order |
| GenerateCandidates.DistrictEntry | tools/generate_candidates.py:14-15 | a row of other than two cells, or whose id is not an integer, raises; any other row maps its lower-cased name to its id |
| GenerateCandidates.LoadDistricts | tools/generate_candidates.py:9-15 | the table is the entries of the rows after the header put in order, and a raising row aborts |
| GenerateCandidates.DistrictsTable | tools/generate_candidates.py:9-15 | a lower-cased name is a key exactly when some district row lists it, and it holds the id of the last such row |
| GenerateCandidates.GetParty | tools/generate_candidates.py:17-31 | a party it gives is the one whose name is the lower-cased text; `GetPartyNames` adds both directions and the texts that give none |
| GenerateCandidates.GetPartyNames | tools/generate_candidates.py:17-33 | a text gives a party exactly when, lower-cased, it is that party's name (the Conservative party's spelt `pati conservateur`), and no party when it is none of them |
| GenerateCandidates.CandidateRow | tools/generate_candidates.py:41-66 | a row of other than nine cells raises; it is kept exactly when its name is not empty, its stripped, lower-cased district is known and its stripped party is known; a kept candidate has the stripped name, the district id, the party, and each contact field stripped exactly when it is not empty |
| GenerateCandidates.Optional | tools/generate_candidates.py:56-65 | a field is present exactly when its raw text is not empty, and then holds it stripped |
| GenerateCandidates.CollectCandidates | tools/generate_candidates.py:35-66 | the loop gives the kept candidates of the rows after the header, in file order, and a raising row aborts |
| GenerateCandidates.CandidatesFile | tools/generate_candidates.py:66-68 | the sorted list is a permutation of the kept candidates, and a candidate is in it exactly when some row after the header gives it |
| GenerateCandidates.SortByName | tools/generate_candidates.py:68 | the sorted list is a permutation of the candidates |
| GenerateMeteoData.ReadValues | tools/generate_meteo_data.py:19 | the values of a row's cells are read exactly when every non-empty cell reads as a number; each empty cell is `None` and each other cell its number, in order |
| GenerateMeteoData.StatisticsRow | tools/generate_meteo_data.py:16-19 | an empty row raises; a row is skipped exactly when its first cell does not start with a digit; it raises when a value does not read; a kept row maps its leading number to the values of its other cells |
| GenerateMeteoData.CollectStatistics | tools/generate_meteo_data.py:10-20 | the table is the kept rows after the header put in order, and a raising row aborts |
| GenerateMeteoData.StatisticsTable | tools/generate_meteo_data.py:15-19 | a number is a key exactly when some row after the header starts with it, and it holds the values of the last such row |
| GenerateMeteoData.RowNumberRead | tools/generate_meteo_data.py:17 | a first cell made of a number's decimal text followed by a non-digit is keyed by that number |
| UpdateMeteoData.ReadGrid | tools/update_meteo_data.py:14-20 | the loop appends, in file order, the values of every row after the header, and a value that does not read aborts |
| UpdateMeteoData.ReadGridSpec | tools/update_meteo_data.py:18-20 | the grid is read exactly when every row's values read; it then has one row per file row after the header, holding that row's values |
| UpdateMeteoData.Transpose | tools/update_meteo_data.py:22-24 | the loops succeed exactly when every row has at least 17 values, with `IndexError` otherwise, and give 17 regions, each holding its column of the grid |
| UpdateMeteoData.TransposeColumns | tools/update_meteo_data.py:22-24 | what the loops give is the transposition of the grid's first 17 columns |
| UpdateMeteoData.TransposedInvolution | tools/update_meteo_data.py:22-24 | transposing a grid of rows of equal length twice gives the grid back |
| GenerateData.Years | tools/generate_data.py:23 | the output years are exactly the catastrophe years together with the years of every statistic |
| GenerateData.YearEntry | tools/generate_data.py:26-31 | every region id some statistic lists for the year has a record, with one key per statistic; `YearEntrySpec` and `YearEntryKeys` state which regions are listed and what each key holds |
| GenerateData.YearEntrySpec | tools/generate_data.py:27-31 | a year's record holds its catastrophes or none; a region id is listed exactly when some statistic has a value for it that year, with one key per statistic, holding the value or `None` |
| GenerateData.RegionIdsMembers | tools/generate_data.py:27-28 | a region id is listed for a year exactly when some statistic has a value for it that year |
| GenerateData.YearEntryKeys | tools/generate_data.py:28-31 | every key of a year's statistics is the decimal text of such a region id |
| GenerateData.MergeYears | tools/generate_data.py:25-32 | the loop gives one record per output year, under the year's decimal text, and no other key |
| GenerateData.MergeAsWrittenRaises | tools/generate_data.py:27-28 | on the statistics as `collect_statistics` returns them, a year with a row in any file is an output year whose merge raises `AttributeError`, and a year that does not raise gets no region |

## Left out

- Network and file I/O: downloads, axios loads, file opens, CSV/JSON/XML/shapefile decoding and `json.dump`. Already-decoded rows, lists and maps are inputs instead, and the output files are the values returned.
- Concurrency: the `multiprocessing.Pool` download and `Promise.all` are not modelled.
- tools/fetch_climate_data.py: the loop over stations that opens each station's file and writes the heat-wave lines is left out. The model gives the waves of one station's rows; the line formatting is not modelled.
- The DMS arithmetic of `convert_lat_lon` (degrees + minutes/60 + seconds/3600) is left to the `dms` parameter, which gives the unsigned value and the direction; only the sign rule is modelled.
- Floating point: temperatures, areas and coordinates are reals, and NaN is `None` where the source can produce it.
- `Text` maps case and recognises `\w` over ASCII and Latin-1 only. `unicodedata` normalisation of municipality names is not modelled: the names are inputs that are already normalised.
- `locale.strxfrm` (tools/generate_candidates.py:68) and `Intl.Collator` are left out: the collation is the parameter `before`, and only a permutation of the kept candidates is proved, not the collated order.
- vue-i18n `plural`, `linked` and `named` are left out: their results are given strings. `toLocaleLowerCase` is modelled by `Text.ToLower`, which maps ASCII and Latin-1 letters only.
- GenerateCatastrophes.GroupByYear: the output objects carry the intended type value `TypeValueOf`, a code string. As written, line 197 writes `TypeValueAsWritten`, which is a one-element list for the storm winds (see Findings).
- `findRegionByDistrict`, `CatastropheGroup`, `CatastropheFilter`, `MapObject` and `collect_all_catastrophes` are referenced but not defined in the source. They are parameters or plain input datatypes here.
- `parseYearlyStatistics` is not part of this model; the statistics store takes its year documents already parsed.
- `AdminRegion`: the interface in src/models/regions.ts:1-4 has no `id` field, yet src/stores/statistics.ts:22 and :34 read `region.id`. The model gives `AdminRegion` an `id` field so that the fallback to the region's statistics can be stated.
- Temperature deltas and the first year over the target are not computed by the source (src/stores/statistics.ts:51 loads them ready-made), so they are not modelled.
- Dates: the facts proved about a date's stamp and ISO text cover four-digit years (1000 to 9999) only.
- CandidatesStore.TestCandidatesByDistrict: the test file calls the getter `findCandidates`, which src/stores/candidates.ts does not define. The model tests `candidatesByDistrict`.
- Timeline.InterpolatedYears.Interpolate: it requires a non-empty continuous range whenever there is data after it. The source also runs with no continuous year. Then `previous` starts as `data[-1]`, which is `undefined`. With no padding it is never read: the indices count up from 0 and the values are the data. With padding p > 0, only the first p interpolated values are NaN; every later block interpolates from a real previous point, and nothing is thrown. The model does not cover this case.
- Timeline.InterpolatedYears: the padding is a natural number. The source's `paddingYears` is any number; a negative one makes `Range(0, p)` count down, and a fractional one is not an integer count. Neither is modelled.
- Entries.SetParsed: a key that `parseInt` reads as NaN is left out of the map. Immutable's `Map.set` and `Map(entries)` would keep it under the key NaN (src/stores/catastrophes.ts:27, src/stores/statistics.ts:49 and :51). The stores' getters look years up by integer, so they never see such an entry.
- UpdateMeteoData.Transpose: the regions are built from empty lists rather than from the `[None] * 17` that every index overwrites. A grid row with fewer than 17 values fails the whole transposition with `IndexError`, as the first such index does in the source.
- GenerateData: the merge is modelled on statistics indexed statistic, then year, then region id, which is the shape its code indexes. `collect_statistics` gives lists instead (see Findings). The conversion from its rows to maps by region id is not part of this model.
- GenerateData.MergeYears: the years are taken in an arbitrary order, as a Python set yields them. The resulting dictionary does not depend on that order, but the key order of the output file is not modelled.
- tools/update_catastrophes.py reads municipalities from XML. A `City` holds the three texts `findtext` gives, with `None` for a missing child.

## Findings

| source | as written | input that shows it | evidently intended | confidence | as-written member | corrected member |
|---|---|---|---|---|---|---|
| tools/generate_catastrophes.py:34 | `StormWinds = "STORM_WINDS",` has a trailing comma, so the member's value is the tuple `("STORM_WINDS",)`, and line 197 writes it to the events file as the list `["STORM_WINDS"]` | any record of type StormWinds, such as a row labelled `vent de tempête` at severity Important | the value `"STORM_WINDS"`, the code the web site reads as storm winds | not executed | GenerateCatastrophes.StormWindsWrittenAsList | GenerateCatastrophes.TypeValueRoundTrip |
| tools/generate_data.py:27-28 | `v.get(year, {})` returns the row list that `collect_statistics` (tools/generate_meteo_data.py:19) stores for the year, and `x.keys()` on a list raises `AttributeError`. Every row number is an output year, so the script fails on any non-empty statistics file | a statistics file with the one row `2000,1.5` after its header | each year's statistics indexed by region id, so that the region ids of a year are the ids some statistic has a value for | not executed | GenerateData.MergeAsWrittenRaises | GenerateData.YearEntrySpec |
