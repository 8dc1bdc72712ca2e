/** Candidates and the store that lists them by district
    (src/models/candidates.ts, src/stores/candidates.ts). */
module CandidatesStore {
  import opened Common
  import opened Seqs

  /** The parties a candidate may run for. */
  datatype Party = CAQ | PLQ | PQ | QS | PCQ | PV | CQ

  /** A candidate; the contact fields are optional. */
  datatype Candidate = Candidate(
    name: string,
    party: Party,
    district: int,
    email: Option<string>,
    phone: Option<string>,
    address: Option<string>,
    facebook: Option<string>,
    twitter: Option<string>)

  /** The candidates of one district, in their order. */
  function InDistrict(candidates: seq<Candidate>, id: int): seq<Candidate> {
    Filter(candidates, (x: Candidate) => x.district == id)
  }

  /** Exactly the candidates whose district is `id`, in their order; district 0
      is an ordinary id. */
  lemma InDistrictMembers(candidates: seq<Candidate>, id: int)
    ensures IsSubsequence(InDistrict(candidates, id), candidates)
    ensures forall c :: c in InDistrict(candidates, id) ==> c in candidates && c.district == id
    ensures forall c :: c in candidates && c.district == id ==> c in InDistrict(candidates, id)
    ensures (forall i :: 0 <= i < |candidates| ==> candidates[i].district != id) ==> InDistrict(candidates, id) == []
  {
    var p := (x: Candidate) => x.district == id;
    FilterIsSubsequence(candidates, p);
    FilterMembers(candidates, p);
    if forall i :: 0 <= i < |candidates| ==> candidates[i].district != id {
      FilterNone(candidates, p);
    }
  }

  class CandidateStore {
    var candidates: seq<Candidate>

    constructor()
      ensures candidates == []
    {
      candidates := [];
    }

    /** `candidatesByDistrict(id)`: the district's candidates, every one of them,
        in the order of the list. */
    function CandidatesByDistrict(id: int): (r: seq<Candidate>)
      reads this
      ensures |r| <= |candidates|
      ensures IsSubsequence(r, candidates)
      ensures forall i :: 0 <= i < |r| ==> r[i].district == id
      ensures forall c :: c in candidates && c.district == id ==> c in r
    {
      InDistrictMembers(candidates, id);
      InDistrict(candidates, id)
    }

    /** `loadCandidates`: the loaded list replaces the whole list. */
    method LoadCandidates(loaded: seq<Candidate>)
      modifies this
      ensures candidates == loaded
    {
      candidates := loaded;
    }
  }

  /** The two candidates of the store's test: Jean Lesage (PLQ, 708) and René
      Lévesques (PQ, 250). */
  function TestCandidates(): seq<Candidate> {
    [Candidate("Jean Lesage", PLQ, 708, None, None, None, None, None),
     Candidate("René Lévesques", PQ, 250, None, None, None, None, None)]
  }

  /** District 111 has nobody; district 250 has only the second candidate. */
  lemma TestCandidatesByDistrict()
    ensures InDistrict(TestCandidates(), 111) == []
    ensures InDistrict(TestCandidates(), 250) == TestCandidates()[1..]
  {
    var cs := TestCandidates();
    assert cs[1..][1..] == [];
    assert InDistrict(cs[1..][1..], 250) == [];
    assert InDistrict(cs[1..], 250) == [cs[1]];
  }
}
