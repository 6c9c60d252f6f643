/**
 * The patient queries of Infrastructure/Data/Repositories/PatientRepository.cs as filters over
 * the table, `rows`, in the order the database enumerates it. `ToLower` is ASCII lowercasing and
 * `Contains` the ordinal substring test.
 */
module PatientRepository {
  import opened Wrappers
  import opened Model
  import opened Seqs
  import opened Text
  import Words

  /** `GetByEmailAsync`: the first patient whose email equals `email` exactly. */
  function GetByEmail(rows: seq<Patient>, email: string): (r: Option<Patient>)
    ensures r.None? <==> forall i :: 0 <= i < |rows| ==> rows[i].email != email
    ensures r.Some? ==> r.value in rows && r.value.email == email
  {
    FirstMatch(rows, (p: Patient) => p.email == email)
  }

  /**
   * The search condition for an already lowercased term: names and email lowercased, the phone
   * number as stored, all compared with that same lowercased term.
   */
  predicate Matches(p: Patient, search: string)
  {
    || Contains(Lower(p.firstName), search)
    || Contains(Lower(p.lastName), search)
    || Contains(Lower(p.email), search)
    || Contains(p.phoneNumber, search)
  }

  /** `SearchAsync`: the matching patients, active or not, in table order. */
  function Search(rows: seq<Patient>, searchTerm: string): (r: seq<Patient>)
    ensures forall p :: p in r <==> p in rows && Matches(p, Lower(searchTerm))
    ensures IsSubsequence(r, rows)
  {
    var search := Lower(searchTerm);
    Filter(rows, (p: Patient) => Matches(p, search))
  }

  /** Letter case in the term never matters: a term and its lowercase find the same patients. */
  lemma SearchIgnoresTermCase(rows: seq<Patient>, searchTerm: string)
    ensures Search(rows, searchTerm) == Search(rows, Lower(searchTerm))
  {
    LowerIdempotent(searchTerm);
  }

  /**
   * The phone number is compared with the lowercased term: a phone number holding an upper-case
   * letter is never found through it, even by its exact spelling.
   */
  lemma PhoneComparedWithLoweredTerm(p: Patient)
    requires p.firstName == "" && p.lastName == "" && p.email == ""
    requires p.phoneNumber == "EXT"
    ensures Search([p], "EXT") == []
  {
    var search := Lower("EXT");
    Words.LowerExt();
    assert !Contains(p.phoneNumber, search) by {
      NotContainsFromByChar(p.phoneNumber, search, 0, 0);
    }
    assert !Matches(p, search);
  }

  /** `GetActiveAsync`: exactly the active patients, in table order. */
  function GetActive(rows: seq<Patient>): (r: seq<Patient>)
    ensures forall p :: p in r <==> p in rows && p.isActive
    ensures IsSubsequence(r, rows)
    ensures forall p: Patient :: p.isActive ==> multiset(r)[p] == multiset(rows)[p]
  {
    FilterMultiset(rows, (p: Patient) => p.isActive);
    Filter(rows, (p: Patient) => p.isActive)
  }
}
