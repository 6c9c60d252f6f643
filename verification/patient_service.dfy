/**
 * The business layer's patient workflows (Business/Application/Services/PatientService.cs) over
 * an abstract store keyed by id. The database-assigned id of a new patient and the current time
 * are parameters.
 */
module PatientService {
  import opened Wrappers
  import opened Model
  import opened Calendar
  import opened Text
  import PDS = PatientDomainService

  /** `GetByEmailAsync` finds somebody: some stored patient has exactly this email. */
  predicate EmailTaken(store: map<int, Patient>, email: string)
  {
    exists k :: k in store && store[k].email == email
  }

  /** No two stored patients share an email. */
  predicate UniqueEmails(store: map<int, Patient>)
  {
    forall j, k :: j in store && k in store && j != k ==> store[j].email != store[k].email
  }

  /**
   * `CreatePatientAsync`: refused when the email is already held, otherwise the patient is
   * stored under the new id with the given details, active.
   */
  function CreatePatient(store: map<int, Patient>, n: NewPatient, newId: int, now: int): (r: Result<Patient, Error>)
    requires newId !in store
    ensures r.Failure? <==> EmailTaken(store, n.email)
    ensures r.Failure? ==> r.error == Error(InvalidOperation, DuplicateEmail)
    ensures r.Success? ==> Details(r.value) == n && r.value.id == newId && r.value.isActive && r.value.updatedAt == now
  {
    if EmailTaken(store, n.email) then Failure(Error(InvalidOperation, DuplicateEmail))
    else Success(Register(n, newId, now))
  }

  /** Creating keeps emails unique. */
  lemma CreatePreservesUniqueEmails(store: map<int, Patient>, n: NewPatient, newId: int, now: int)
    requires newId !in store && UniqueEmails(store)
    requires CreatePatient(store, n, newId, now).Success?
    ensures UniqueEmails(store[newId := CreatePatient(store, n, newId, now).value])
  {
  }

  /** `UpdatePatientDto`: every field optional. */
  datatype PatientChanges = PatientChanges(
    firstName: Option<string>,
    lastName: Option<string>,
    email: Option<string>,
    phoneNumber: Option<string>,
    dateOfBirth: Option<CivilDate>,
    gender: Option<string>,
    address: Option<string>,
    bloodType: Option<string>,
    medicalHistory: Option<string>,
    allergies: Option<string>,
    emergencyContact: Option<string>,
    emergencyContactPhone: Option<string>)

  /** A required text field: replaced only by a non-empty value. */
  function KeepUnlessGiven(current: string, given: Option<string>): (r: string)
    ensures !IsNullOrEmpty(given) ==> r == given.value
    ensures IsNullOrEmpty(given) ==> r == current
  {
    if IsNullOrEmpty(given) then current else given.value
  }

  /** An optional text field: replaced by any supplied value, the empty string included. */
  function KeepUnlessSupplied(current: Option<string>, given: Option<string>): (r: Option<string>)
    ensures given.Some? ==> r == given
    ensures given.None? ==> r == current
  {
    if given.Some? then given else current
  }

  /** The changed email would collide with another patient's. */
  predicate EmailClash(store: map<int, Patient>, id: int, c: PatientChanges)
    requires id in store
  {
    !IsNullOrEmpty(c.email) && c.email.value != store[id].email && EmailTaken(store, c.email.value)
  }

  /**
   * `UpdatePatientAsync`: `None` for an unknown id; refused when a new, different email is held
   * by someone; otherwise the supplied fields are written, and `isActive` is never touched.
   */
  function UpdatePatient(store: map<int, Patient>, id: int, c: PatientChanges, now: int): (r: Result<Option<Patient>, Error>)
    ensures id !in store ==> r == Success(None)
    ensures r.Failure? <==> id in store && EmailClash(store, id, c)
    ensures r.Failure? ==> r.error == Error(InvalidOperation, DuplicateEmail)
    ensures id in store && r.Success? ==> r.value.Some? && var q := r.value.value; var p := store[id];
            && q.id == p.id && q.isActive == p.isActive && q.updatedAt == now
            && q.firstName == (if IsNullOrEmpty(c.firstName) then p.firstName else c.firstName.value)
            && q.lastName == (if IsNullOrEmpty(c.lastName) then p.lastName else c.lastName.value)
            && q.email == (if IsNullOrEmpty(c.email) then p.email else c.email.value)
            && q.phoneNumber == (if IsNullOrEmpty(c.phoneNumber) then p.phoneNumber else c.phoneNumber.value)
            && q.gender == (if IsNullOrEmpty(c.gender) then p.gender else c.gender.value)
            && q.dateOfBirth == c.dateOfBirth.GetOr(p.dateOfBirth)
            && q.address == (if c.address.Some? then c.address else p.address)
            && q.bloodType == (if c.bloodType.Some? then c.bloodType else p.bloodType)
            && q.medicalHistory == (if c.medicalHistory.Some? then c.medicalHistory else p.medicalHistory)
            && q.allergies == (if c.allergies.Some? then c.allergies else p.allergies)
            && q.emergencyContact == (if c.emergencyContact.Some? then c.emergencyContact else p.emergencyContact)
            && q.emergencyContactPhone == (if c.emergencyContactPhone.Some? then c.emergencyContactPhone else p.emergencyContactPhone)
  {
    if id !in store then Success(None)
    else if EmailClash(store, id, c) then Failure(Error(InvalidOperation, DuplicateEmail))
    else
      var p := store[id];
      Success(Some(p.(firstName := KeepUnlessGiven(p.firstName, c.firstName),
                      lastName := KeepUnlessGiven(p.lastName, c.lastName),
                      email := KeepUnlessGiven(p.email, c.email),
                      phoneNumber := KeepUnlessGiven(p.phoneNumber, c.phoneNumber),
                      dateOfBirth := c.dateOfBirth.GetOr(p.dateOfBirth),
                      gender := KeepUnlessGiven(p.gender, c.gender),
                      address := KeepUnlessSupplied(p.address, c.address),
                      bloodType := KeepUnlessSupplied(p.bloodType, c.bloodType),
                      medicalHistory := KeepUnlessSupplied(p.medicalHistory, c.medicalHistory),
                      allergies := KeepUnlessSupplied(p.allergies, c.allergies),
                      emergencyContact := KeepUnlessSupplied(p.emergencyContact, c.emergencyContact),
                      emergencyContactPhone := KeepUnlessSupplied(p.emergencyContactPhone, c.emergencyContactPhone),
                      updatedAt := now)))
  }

  /** The store after a successful update. */
  function AfterUpdate(store: map<int, Patient>, id: int, c: PatientChanges, now: int): map<int, Patient>
  {
    match UpdatePatient(store, id, c, now)
    case Success(Some(q)) => store[id := q]
    case _ => store
  }

  /** Updating keeps emails unique: a changed email was free, an unchanged one stays the patient's own. */
  lemma UpdatePreservesUniqueEmails(store: map<int, Patient>, id: int, c: PatientChanges, now: int)
    requires UniqueEmails(store)
    ensures UniqueEmails(AfterUpdate(store, id, c, now))
  {
    var r := UpdatePatient(store, id, c, now);
    if id in store && r.Success? {
      var q := r.value.value;
      var s' := store[id := q];
      forall j, k | j in s' && k in s' && j != k
        ensures s'[j].email != s'[k].email
      {
        if j == id || k == id {
          var other := if j == id then k else j;
          if q.email != store[id].email {
            assert !EmailTaken(store, q.email);
            assert store[other].email != q.email;
          }
        }
      }
    }
  }

  /** Resubmitting a patient's own email, or any other held by nobody, is never refused. */
  lemma OwnEmailNeverRefused(store: map<int, Patient>, id: int, c: PatientChanges, now: int)
    requires id in store
    requires c.email == Some(store[id].email) || c.email.None?
    ensures UpdatePatient(store, id, c, now).Success?
  {
  }

  /** An empty string clears an optional field but cannot clear a required one. */
  lemma EmptyStringClearsOptionalOnly(store: map<int, Patient>, id: int, now: int)
    requires id in store
    ensures var c := PatientChanges(Some(""), None, None, None, None, None, Some(""), None, None, None, None, None);
            var q := UpdatePatient(store, id, c, now).value.value;
            q.firstName == store[id].firstName && q.address == Some("")
  {
  }

  /** Applying the same changes twice gives the same patient as applying them once, apart from the time. */
  lemma UpdateIdempotent(store: map<int, Patient>, id: int, c: PatientChanges, now: int, later: int)
    requires id in store && UpdatePatient(store, id, c, now).Success?
    ensures var q := UpdatePatient(store, id, c, now).value.value;
            var r := UpdatePatient(store[id := q], id, c, later);
            r.Success? && r.value.value == q.(updatedAt := later)
  {
    var q := UpdatePatient(store, id, c, now).value.value;
    var s' := store[id := q];
    assert IsNullOrEmpty(c.email) || c.email.value == s'[id].email;
  }

  /** `DeactivatePatientAsync`: whether the id was stored, and the store with that patient inactive. */
  function DeactivatePatient(store: map<int, Patient>, id: int, now: int): (r: (bool, map<int, Patient>))
    ensures r.0 <==> id in store
    ensures r.1.Keys == store.Keys
    ensures forall k :: k in store && k != id ==> r.1[k] == store[k]
    ensures id in store ==> !r.1[id].isActive && r.1[id].updatedAt == now
                            && r.1[id].(isActive := store[id].isActive, updatedAt := store[id].updatedAt) == store[id]
  {
    if id !in store then (false, store)
    else (true, store[id := store[id].(isActive := false, updatedAt := now)])
  }

  /** A second deactivation also succeeds and changes nothing but the time. */
  lemma DeactivateIdempotent(store: map<int, Patient>, id: int, now: int, later: int)
    requires id in store
    ensures var s1 := DeactivatePatient(store, id, now).1;
            var r := DeactivatePatient(s1, id, later);
            r.0 && r.1 == s1[id := s1[id].(updatedAt := later)]
  {
  }

  /** Deactivating never introduces a shared email. */
  lemma DeactivatePreservesUniqueEmails(store: map<int, Patient>, id: int, now: int)
    requires UniqueEmails(store)
    ensures UniqueEmails(DeactivatePatient(store, id, now).1)
  {
  }

  /** `DeletePatientAsync`: whether the id was stored, and the store without it. */
  function DeletePatient(store: map<int, Patient>, id: int): (r: (bool, map<int, Patient>))
    ensures r.0 <==> id in store
    ensures id !in r.1 && r.1.Keys == store.Keys - {id}
    ensures forall k :: k in r.1 ==> r.1[k] == store[k]
  {
    (id in store, store - {id})
  }

  /** After a delete the email is free again, so the same details can be registered anew. */
  lemma DeleteFreesEmail(store: map<int, Patient>, id: int, newId: int, now: int)
    requires UniqueEmails(store) && id in store && newId !in store
    ensures CreatePatient(DeletePatient(store, id).1, Details(store[id]), newId, now).Success?
  {
    var s' := DeletePatient(store, id).1;
    assert forall k :: k in s' ==> k != id && k in store && s'[k].email != store[id].email;
  }

  /** `GetPatientRiskLevelAsync`: the domain rating, or an invalid-operation error for an unknown id. */
  function GetPatientRiskLevel(store: map<int, Patient>, id: int, today: CivilDate): (r: Result<PDS.RiskLevel, Error>)
    ensures r.Failure? <==> id !in store
    ensures r.Failure? ==> r.error == Error(InvalidOperation, PatientNotFound)
    ensures r.Success? ==> r.value == PDS.CalculateRiskLevel(store[id], today)
  {
    if id !in store then Failure(Error(InvalidOperation, PatientNotFound))
    else Success(PDS.CalculateRiskLevel(store[id], today))
  }

  /** `GetPatientAccommodationsAsync`: the domain list, or an invalid-operation error for an unknown id. */
  function GetPatientAccommodations(store: map<int, Patient>, id: int, today: CivilDate): (r: Result<seq<PDS.Accommodation>, Error>)
    ensures r.Failure? <==> id !in store
    ensures r.Failure? ==> r.error == Error(InvalidOperation, PatientNotFound)
    ensures r.Success? ==> r.value == PDS.Accommodations(store[id], today)
  {
    if id !in store then Failure(Error(InvalidOperation, PatientNotFound))
    else Success(PDS.Accommodations(store[id], today))
  }

  /** `IsPatientEligibleForAppointmentAsync`: `false`, not an error, for an unknown id. */
  function IsPatientEligibleForAppointment(store: map<int, Patient>, id: int, today: CivilDate, appointmentType: string): (r: bool)
    ensures r <==> id in store && PDS.IsEligibleForAppointmentType(store[id], today, appointmentType)
  {
    id in store && PDS.IsEligibleForAppointmentType(store[id], today, appointmentType)
  }

  /**
   * The lookup `GetRecommendedFollowUpIntervalAsync` makes before its computation: the stored
   * patient, or an invalid-operation error for an unknown id.
   */
  function FollowUpSubject(store: map<int, Patient>, id: int): (r: Result<Patient, Error>)
    ensures r.Failure? <==> id !in store
    ensures r.Failure? ==> r.error == Error(InvalidOperation, PatientNotFound)
    ensures r.Success? ==> r.value == store[id]
  {
    if id !in store then Failure(Error(InvalidOperation, PatientNotFound))
    else Success(store[id])
  }

  /**
   * For an unknown patient three wrappers throw but the eligibility wrapper answers `false`, even
   * for an emergency, which every known patient is eligible for.
   */
  lemma UnknownPatientWrappers(store: map<int, Patient>, id: int, today: CivilDate)
    requires id !in store
    ensures GetPatientRiskLevel(store, id, today).Failure?
    ensures GetPatientAccommodations(store, id, today).Failure?
    ensures FollowUpSubject(store, id).Failure?
    ensures !IsPatientEligibleForAppointment(store, id, today, "Emergency")
    ensures forall p: Patient :: IsPatientEligibleForAppointment(map[id := p], id, today, "Emergency")
  {
    forall p: Patient
      ensures IsPatientEligibleForAppointment(map[id := p], id, today, "Emergency")
    {
      PDS.EmergencyInAnyCase(p, today);
    }
  }
}
