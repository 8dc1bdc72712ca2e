/** The script that builds the candidates file (tools/generate_candidates.py):
    the district table by lower-cased name, then one candidate per row whose name,
    district and party are known, sorted by name in the French collation. */
module GenerateCandidates {
  import opened Common
  import opened Text
  import opened Seqs
  import opened PyDict
  import opened CandidatesStore

  /** One row of the district list, `[id, name]`: the lower-cased name and the id. */
  function DistrictEntry(row: seq<string>): (r: Outcome<(string, int)>)
    ensures |row| != 2 ==> r.Raised?
    ensures |row| == 2 ==> (r.Raised? <==> PyInt(row[0]).None?)
    ensures r.Kept? ==> |row| == 2 && r.value == (ToLower(row[1]), PyInt(row[0]).value)
    ensures !r.Skipped?
  {
    if |row| != 2 then Raised("ValueError")
    else
      match PyInt(row[0])
      case None => Raised("ValueError")
      case Some(id) => Kept((ToLower(row[1]), id))
  }

  /** The district table of rows after the header; a later row with the same
      lower-cased name overwrites an earlier one. */
  method LoadDistricts(rows: seq<seq<string>>) returns (result: Result<Dict<string, int>>)
    ensures Collect([], Body(rows), DistrictEntry).Failed? ==> result.Failed?
    ensures Collect([], Body(rows), DistrictEntry).Ok? ==>
      result == Ok(PutAll(Empty(), Collect([], Body(rows), DistrictEntry).value))
  {
    result := FillDict(Body(rows), DistrictEntry);
  }

  /** A district row that lists the lower-cased name `name`. */
  predicate Names(row: seq<string>, name: string) {
    |row| == 2 && ToLower(row[1]) == name
  }

  /** A lower-cased name is in the table exactly when some district row lists it,
      and it holds the id of the last such row. */
  lemma DistrictsTable(rows: seq<seq<string>>, name: string)
    requires Collect([], Body(rows), DistrictEntry).Ok?
    ensures var items := Collect([], Body(rows), DistrictEntry).value;
      var table := PutAll(Empty(), items);
      && (name in table.entries <==> exists i :: 0 <= i < |Body(rows)| && Names(Body(rows)[i], name))
      && (name in table.entries ==> 0 <= LastIndex(items, name) && table.entries[name] == items[LastIndex(items, name)].1)
  {
    PutAllKeys(Collect([], Body(rows), DistrictEntry).value, name);
    CollectedKeys(Body(rows), DistrictEntry, name);
    CollectSpec([], Body(rows), DistrictEntry);
    if exists i :: 0 <= i < |Body(rows)| && Names(Body(rows)[i], name) {
      var i :| 0 <= i < |Body(rows)| && Names(Body(rows)[i], name);
      assert !DistrictEntry(Body(rows)[i]).Raised?;
    }
  }

  /** The lower-case party name the script reads for each party; the
      Conservative party's is spelt `pati conservateur`. */
  function PartyName(p: Party): string {
    match p
    case CAQ => "caq"
    case PLQ => "parti libéral"
    case PQ => "parti québécois"
    case QS => "québec solidaire"
    case CQ => "climat québec"
    case PCQ => "pati conservateur"
    case PV => "parti vert"
  }

  /** `get_party`: the party whose name the lower-cased text is. */
  function GetParty(name: string): (r: Option<Party>)
    ensures r.Some? ==> PartyName(r.value) == ToLower(name)
  {
    var n := ToLower(name);
    if n == "caq" then Some(CAQ)
    else if n == "parti libéral" then Some(PLQ)
    else if n == "parti québécois" then Some(PQ)
    else if n == "québec solidaire" then Some(QS)
    else if n == "climat québec" then Some(CQ)
    else if n == "pati conservateur" then Some(PCQ)
    else if n == "parti vert" then Some(PV)
    else None
  }

  /** A text names a party exactly when, lower-cased, it is that party's name; any
      other text names none. */
  lemma GetPartyNames(name: string, p: Party)
    ensures GetParty(name) == Some(p) <==> ToLower(name) == PartyName(p)
    ensures GetParty(name).None? <==> forall q: Party :: ToLower(name) != PartyName(q)
  {
    if GetParty(name).Some? {
      assert ToLower(name) == PartyName(GetParty(name).value);
    }
  }

  /** A candidate row: nine cells; the row is kept when the name is not empty, the
      stripped, lower-cased district is in the table and the stripped party is
      known. The name and every contact field are stored stripped, and a contact
      field only when its raw text is not empty. */
  function CandidateRow(line: seq<string>, districts: Dict<string, int>): (r: Outcome<Candidate>)
    ensures |line| != 9 ==> r.Raised?
    ensures !(r.Raised? && |line| == 9)
    ensures |line| == 9 ==>
      (r.Kept? <==> line[3] != "" && ToLower(Strip(line[1])) in districts.entries && GetParty(Strip(line[2])).Some?)
    ensures r.Kept? ==>
      && r.value.name == Strip(line[3])
      && r.value.district == districts.entries[ToLower(Strip(line[1]))]
      && Some(r.value.party) == GetParty(Strip(line[2]))
      && r.value.email == Optional(line[4]) && r.value.facebook == Optional(line[5])
      && r.value.phone == Optional(line[6]) && r.value.twitter == Optional(line[7])
      && r.value.address == Optional(line[8])
  {
    if |line| != 9 then Raised("ValueError")
    else if line[3] == "" then Skipped
    else
      var key := ToLower(Strip(line[1]));
      if key !in districts.entries then Skipped
      else
        match GetParty(Strip(line[2]))
        case None => Skipped
        case Some(party) =>
          Kept(Candidate(Strip(line[3]), party, districts.entries[key],
                         Optional(line[4]), Optional(line[6]), Optional(line[8]), Optional(line[5]), Optional(line[7])))
  }

  /** An optional field: present, stripped, exactly when its raw text is not empty. */
  function Optional(raw: string): (r: Option<string>)
    ensures r.Some? <==> raw != ""
    ensures r.Some? ==> r.value == Strip(raw)
  {
    if raw != "" then Some(Strip(raw)) else None
  }

  /** The loop over the candidate rows after the header: the kept candidates, in
      file order. */
  method CollectCandidates(rows: seq<seq<string>>, districts: Dict<string, int>)
    returns (result: Result<seq<Candidate>>)
    ensures result == Collect([], Body(rows), l => CandidateRow(l, districts))
  {
    var row := l => CandidateRow(l, districts);
    var candidates: seq<Candidate> := [];
    if rows == [] {
      return Ok(candidates);
    }
    assert rows[1..][0..] == rows[1..];
    var i := 1;
    while i < |rows|
      invariant 1 <= i <= |rows|
      invariant Collect([], Body(rows), row) == Collect(candidates, rows[i..], row)
    {
      CollectStep(candidates, rows, row, i);
      match row(rows[i]) {
        case Raised(e) => return Failed(e);
        case Kept(c) => candidates := candidates + [c];
        case Skipped =>
      }
      i := i + 1;
    }
    return Ok(candidates);
  }

  /** `candidates.sort(key=strxfrm(name))`, given the collation order of two
      names, `before`. */
  function SortByName(candidates: seq<Candidate>, before: (string, string) -> bool): (r: seq<Candidate>)
    ensures multiset(r) == multiset(candidates)
  {
    Sort(candidates, (a: Candidate, b: Candidate) => before(a.name, b.name))
  }

  /** The file holds exactly the kept rows, each as often as it was kept: a
      permutation of the candidates of the rows with a name, a known district and
      a known party. */
  lemma CandidatesFile(rows: seq<seq<string>>, districts: Dict<string, int>, before: (string, string) -> bool)
    requires Collect([], Body(rows), l => CandidateRow(l, districts)).Ok?
    ensures var kept := Collect([], Body(rows), l => CandidateRow(l, districts)).value;
      && multiset(SortByName(kept, before)) == multiset(kept)
      && (forall c :: c in SortByName(kept, before) <==>
            exists i :: 0 <= i < |Body(rows)| && CandidateRow(Body(rows)[i], districts) == Kept(c))
  {
    var row := l => CandidateRow(l, districts);
    var kept := Collect([], Body(rows), row).value;
    CollectSpec([], Body(rows), row);
    var sorted := SortByName(kept, before);
    forall c ensures c in sorted <==> exists i :: 0 <= i < |Body(rows)| && CandidateRow(Body(rows)[i], districts) == Kept(c) {
      assert c in sorted <==> c in multiset(sorted);
      assert c in kept <==> c in multiset(kept);
      KeptValuesMembers(Body(rows), row, c);
    }
  }
}
