/**
 * The doctor queries of Infrastructure/Data/Repositories/DoctorRepository.cs as filters over the
 * table, `rows`, in the order the database enumerates it.
 */
module DoctorRepository {
  import opened Wrappers
  import opened Model
  import opened Seqs
  import opened Text

  /** `GetByEmailAsync`: the first doctor whose email equals `email` exactly. */
  function GetByEmail(rows: seq<Doctor>, email: string): (r: Option<Doctor>)
    ensures r.None? <==> forall i :: 0 <= i < |rows| ==> rows[i].email != email
    ensures r.Some? ==> r.value in rows && r.value.email == email
  {
    FirstMatch(rows, (d: Doctor) => d.email == email)
  }

  /** `GetByLicenseNumberAsync`: the first doctor holding that licence number. */
  function GetByLicenseNumber(rows: seq<Doctor>, licenseNumber: string): (r: Option<Doctor>)
    ensures r.None? <==> forall i :: 0 <= i < |rows| ==> rows[i].licenseNumber != licenseNumber
    ensures r.Some? ==> r.value in rows && r.value.licenseNumber == licenseNumber
  {
    FirstMatch(rows, (d: Doctor) => d.licenseNumber == licenseNumber)
  }

  /** `GetBySpecializationAsync`: the active doctors of that specialization, in any letter case. */
  function GetBySpecialization(rows: seq<Doctor>, specialization: string): (r: seq<Doctor>)
    ensures forall d :: d in r <==> d in rows && d.isActive && Lower(d.specialization) == Lower(specialization)
    ensures IsSubsequence(r, rows)
  {
    var wanted := Lower(specialization);
    Filter(rows, (d: Doctor) => Lower(d.specialization) == wanted && d.isActive)
  }

  /** Asking in capitals or in lower case finds the same doctors. */
  lemma SpecializationIgnoresCase(rows: seq<Doctor>, specialization: string)
    ensures GetBySpecialization(rows, specialization) == GetBySpecialization(rows, Lower(specialization))
  {
    LowerIdempotent(specialization);
  }

  /** The search condition for an already lowercased term. */
  predicate Matches(d: Doctor, search: string)
  {
    || Contains(Lower(d.firstName), search)
    || Contains(Lower(d.lastName), search)
    || Contains(Lower(d.specialization), search)
    || Contains(Lower(d.email), search)
  }

  /** `SearchAsync`: the matching doctors, active or not, in table order. */
  function Search(rows: seq<Doctor>, searchTerm: string): (r: seq<Doctor>)
    ensures forall d :: d in r <==> d in rows && Matches(d, Lower(searchTerm))
    ensures IsSubsequence(r, rows)
  {
    var search := Lower(searchTerm);
    Filter(rows, (d: Doctor) => Matches(d, search))
  }

  /** Every doctor whose specialization query finds them is found by searching for that specialization. */
  lemma SpecializationDoctorsAreSearchable(rows: seq<Doctor>, specialization: string)
    ensures forall d :: d in GetBySpecialization(rows, specialization) ==> d in Search(rows, specialization)
  {
    forall d | d in GetBySpecialization(rows, specialization)
      ensures d in Search(rows, specialization)
    {
      var s := Lower(d.specialization);
      assert OccursAt(s, s, 0);
      ContainsIff(s, s);
    }
  }

  /** `GetActiveAsync`: exactly the active doctors, in table order. */
  function GetActive(rows: seq<Doctor>): (r: seq<Doctor>)
    ensures forall d :: d in r <==> d in rows && d.isActive
    ensures IsSubsequence(r, rows)
  {
    Filter(rows, (d: Doctor) => d.isActive)
  }
}
