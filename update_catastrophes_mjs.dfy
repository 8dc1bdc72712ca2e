/** The Node script that converts the civil-security export line by line
    (tools/update_catastrophes.mjs): each comma-separated line whose event code is
    one of seven known codes becomes an event; every other line is skipped. */
module UpdateCatastrophesMjs {
  import opened Common
  import opened Text

  /** The `switch` of `translateEventCode`: the type name of a numeric code. */
  function EventCodeName(code: int): Option<string> {
    if code == 133 then Some("HURRICANE")
    else if code == 138 then Some("STORM")
    else if code == 139 then Some("TORNADO")
    else if code == 166 then Some("HEAT_WAVE")
    else if code == 171 then Some("SEVERE_WINDS")
    else if code == 39 then Some("FOREST_FIRE")
    else if code == 8 then Some("FLOOD")
    else None
  }

  /** The code of a type name, the table read backwards. */
  function EventNameCode(name: string): Option<int> {
    if name == "HURRICANE" then Some(133)
    else if name == "STORM" then Some(138)
    else if name == "TORNADO" then Some(139)
    else if name == "HEAT_WAVE" then Some(166)
    else if name == "SEVERE_WINDS" then Some(171)
    else if name == "FOREST_FIRE" then Some(39)
    else if name == "FLOOD" then Some(8)
    else None
  }

  /** The table is one to one: a code has a name exactly when that name has the
      code, so no two codes share a name. */
  lemma EventCodeNamesInverse(code: int, name: string)
    ensures EventCodeName(code) == Some(name) <==> EventNameCode(name) == Some(code)
  {
  }

  /** Exactly the seven codes 133, 138, 139, 166, 171, 39 and 8 have a name. */
  lemma EventCodesKnown(code: int)
    ensures EventCodeName(code).Some? <==> code in {133, 138, 139, 166, 171, 39, 8}
  {
  }

  /** `translateEventCode`: the first `"` is removed and the rest is read with
      `parseInt`; a cell that reads as NaN, like any other code, has no type. */
  function TranslateEventCode(code: string): (r: Option<string>)
    ensures r.Some? ==> EventNameCode(r.value).Some? && EventCodeName(EventNameCode(r.value).value) == r
  {
    match ParseInt(ReplaceFirst(code, '"'), Unspecified)
    case None => None
    case Some(n) =>
      var name := EventCodeName(n);
      if name.Some? then EventCodeNamesInverse(n, name.value); name else name
  }

  /** A quoted cell `"ds"` of digits translates like the bare digits: only the
      opening quote is removed, and `parseInt` stops at the closing one. */
  lemma QuotedCodeTranslates(ds: string)
    requires ds != [] && forall i :: 0 <= i < |ds| ==> IsDigit(ds[i])
    ensures TranslateEventCode(['"'] + ds + ['"']) == TranslateEventCode(ds)
    ensures TranslateEventCode(ds) == EventCodeName(DigitsValue(ds))
  {
    QuoteRemoved(ds);
    ParseIntOfDigits(ds, ['"']);
    BareCodeTranslates(ds);
  }

  /** Removing the first quote of `"ds"` leaves `ds"`. */
  lemma QuoteRemoved(ds: string)
    ensures ReplaceFirst(['"'] + ds + ['"'], '"') == ds + ['"']
  {
    assert (['"'] + ds + ['"'])[1..] == ds + ['"'];
  }

  /** Bare digits have no quote to remove and read as their value. */
  lemma BareCodeTranslates(ds: string)
    requires ds != [] && forall i :: 0 <= i < |ds| ==> IsDigit(ds[i])
    ensures TranslateEventCode(ds) == EventCodeName(DigitsValue(ds))
  {
    assert '"' !in ds;
    ParseIntOfDigits(ds, []);
    assert ds + [] == ds;
  }

  /** A cell that, once its first quote is removed, starts with a letter (a header
      cell such as `code_alea`) has no type. */
  lemma LetterCodeUntranslated(code: string)
    requires var t := ReplaceFirst(code, '"'); t != [] && (IsLowerLetter(t[0]) || IsUpperLetter(t[0]))
    ensures TranslateEventCode(code) == None
  {
    ParseIntOfLetter(ReplaceFirst(code, '"'));
  }

  /** An event of the output file; `undefined` and NaN cells are `None`. */
  datatype Event = Event(location: seq<Option<real>>, description: Option<string>, kind: string, date: string)

  /** The foreign readers: `parseFloat` (`None` for NaN) and
      `new Date(text).toISOString()` (`None` for the `RangeError` of an invalid
      date); `None` as argument stands for `undefined`. */
  datatype Readers = Readers(
    parseFloat: string -> Option<real>,
    isoString: Option<string> -> Option<string>)

  /** The cell at index `i` of the split line, `undefined` past its end. */
  function Cell(cells: seq<string>, i: nat): (r: Option<string>)
    ensures r.Some? <==> i < |cells|
    ensures r.Some? ==> r.value == cells[i]
  {
    if i < |cells| then Some(cells[i]) else None
  }

  /** `parseFloat` of a cell, NaN for `undefined`. */
  function FloatCell(cells: seq<string>, i: nat, readers: Readers): Option<real> {
    if i < |cells| then readers.parseFloat(cells[i]) else None
  }

  /** The body of the loop on one line: a line whose first cell has no type is
      skipped; otherwise the event has the location `[coord_y, coord_x]` and the
      date of `date_debut`, or of `date_signalement` when `date_debut` is empty
      or missing. */
  function LineEvent(line: string, readers: Readers): (r: Outcome<Event>)
    ensures var cells := Split(line, ',');
      && (r.Skipped? <==> TranslateEventCode(cells[0]).None?)
      && (r.Kept? ==>
          && Some(r.value.kind) == TranslateEventCode(cells[0])
          && r.value.location == [FloatCell(cells, 13, readers), FloatCell(cells, 12, readers)]
          && r.value.description == Cell(cells, 1)
          && var start := Cell(cells, 8);
             Some(r.value.date) == readers.isoString(if start.Some? && start.value != "" then start else Cell(cells, 7)))
  {
    var cells := Split(line, ',');
    match TranslateEventCode(cells[0])
    case None => Skipped
    case Some(kind) =>
      var start := Cell(cells, 8);
      match readers.isoString(if start.Some? && start.value != "" then start else Cell(cells, 7))
      case None => Raised("RangeError")
      case Some(date) =>
        Kept(Event([FloatCell(cells, 13, readers), FloatCell(cells, 12, readers)], Cell(cells, 1), kind, date))
  }

  /** The `for await` loop over the lines: the events of the lines with a type, in
      input order; an invalid date aborts the script. */
  method ConvertLines(lines: seq<string>, readers: Readers) returns (result: Result<seq<Event>>)
    ensures result == Collect([], lines, l => LineEvent(l, readers))
  {
    var event := l => LineEvent(l, readers);
    var catastrophes: seq<Event> := [];
    var i := 0;
    while i < |lines|
      invariant 0 <= i <= |lines|
      invariant Collect([], lines, event) == Collect(catastrophes, lines[i..], event)
    {
      CollectStep(catastrophes, lines, event, i);
      match event(lines[i]) {
        case Raised(e) => return Failed(e);
        case Kept(catastrophe) => catastrophes := catastrophes + [catastrophe];
        case Skipped =>
      }
      i := i + 1;
    }
    return Ok(catastrophes);
  }

  /** The output holds one event per line with a known type, in input order, each
      with one of the seven type names. */
  lemma ConvertLinesSpec(lines: seq<string>, readers: Readers)
    ensures var event := l => LineEvent(l, readers);
      var r := Collect([], lines, event);
      && (r.Ok? ==> r.value == KeptValues(lines, event))
      && (r.Ok? ==> forall e :: e in r.value ==> EventNameCode(e.kind).Some?)
  {
    var event := l => LineEvent(l, readers);
    CollectSpec([], lines, event);
    var r := Collect([], lines, event);
    if r.Ok? {
      forall e | e in r.value ensures EventNameCode(e.kind).Some? {
        KeptValuesMembers(lines, event, e);
        var i :| 0 <= i < |lines| && event(lines[i]) == Kept(e);
        KeptEventKind(lines[i], readers, e);
      }
    }
  }

  /** A kept line's event carries one of the seven type names. */
  lemma KeptEventKind(line: string, readers: Readers, e: Event)
    requires LineEvent(line, readers) == Kept(e)
    ensures EventNameCode(e.kind).Some?
  {
    var code := Split(line, ',')[0];
    assert TranslateEventCode(code) == Some(e.kind);
    var n := ParseInt(ReplaceFirst(code, '"'), Unspecified).value;
    EventCodeNamesInverse(n, e.kind);
  }
}
