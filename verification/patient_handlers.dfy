/**
 * The command and query handlers for patients (the files under Application/Handlers/Patients),
 * the second implementation of the patient workflows. The repository search the search handler
 * calls is not part of this model, so it is a function parameter.
 */
module PatientHandlers {
  import opened Wrappers
  import opened Model
  import opened Calendar
  import opened Text
  import Service = PatientService
  import PatientRepository

  /**
   * `CreatePatientCommandHandler.Handle`: refused when any stored patient has an ordinally equal
   * email; otherwise the patient is stored active under the new id.
   */
  function CreatePatient(store: map<int, Patient>, n: NewPatient, newId: int, now: int): (r: Result<Patient, Error>)
    requires newId !in store
    ensures r.Failure? <==> exists k :: k in store && store[k].email == n.email
    ensures r.Failure? ==> r.error == Error(InvalidOperation, DuplicateEmail)
    ensures r.Success? ==> Details(r.value) == n && r.value.id == newId && r.value.isActive && r.value.updatedAt == now
  {
    if exists k :: k in store && store[k].email == n.email then Failure(Error(InvalidOperation, DuplicateEmail))
    else Success(Register(n, newId, now).(isActive := true))
  }

  /** Both create workflows accept and refuse the same registrations and store the same patient. */
  lemma CreateWorkflowsAgree(store: map<int, Patient>, n: NewPatient, newId: int, now: int)
    requires newId !in store
    ensures CreatePatient(store, n, newId, now) == Service.CreatePatient(store, n, newId, now)
  {
  }

  /** Emails that differ only in letter case do not collide. */
  lemma EmailComparisonIsCaseSensitive(p: Patient, n: NewPatient, now: int)
    requires p.email == "A@x.com" && n.email == "a@x.com"
    ensures CreatePatient(map[1 := p], n, 2, now).Success?
  {
    assert p.email[0] != n.email[0];
  }

  /** `UpdatePatientCommand`: every field optional, `isActive` included. */
  datatype UpdatePatientCommand = UpdatePatientCommand(
    firstName: Option<string>,
    lastName: Option<string>,
    email: Option<string>,
    phoneNumber: Option<string>,
    dateOfBirth: Option<CivilDate>,
    gender: Option<string>,
    address: Option<string>,
    bloodType: Option<string>,
    medicalHistory: Option<string>,
    allergies: Option<string>,
    emergencyContact: Option<string>,
    emergencyContactPhone: Option<string>,
    isActive: Option<bool>)

  /** An optional text field the handler writes: only a non-empty value replaces it. */
  function KeepUnlessNonEmpty(current: Option<string>, given: Option<string>): (r: Option<string>)
    ensures !IsNullOrEmpty(given) ==> r == given
    ensures IsNullOrEmpty(given) ==> r == current
  {
    if IsNullOrEmpty(given) then current else given
  }

  /**
   * `UpdatePatientCommandHandler.Handle`: `None` for an unknown id; otherwise every text field
   * changes only when non-empty, date of birth and active flag when supplied. No email check.
   */
  function UpdatePatient(store: map<int, Patient>, id: int, c: UpdatePatientCommand, now: int): (r: Option<Patient>)
    ensures r.None? <==> id !in store
    ensures r.Some? ==> var q := r.value; var p := store[id];
            && q.id == p.id && q.updatedAt == now
            && q.isActive == c.isActive.GetOr(p.isActive)
            && q.dateOfBirth == c.dateOfBirth.GetOr(p.dateOfBirth)
            && q.firstName == (if IsNullOrEmpty(c.firstName) then p.firstName else c.firstName.value)
            && q.lastName == (if IsNullOrEmpty(c.lastName) then p.lastName else c.lastName.value)
            && q.email == (if IsNullOrEmpty(c.email) then p.email else c.email.value)
            && q.phoneNumber == (if IsNullOrEmpty(c.phoneNumber) then p.phoneNumber else c.phoneNumber.value)
            && q.gender == (if IsNullOrEmpty(c.gender) then p.gender else c.gender.value)
            && q.address == (if IsNullOrEmpty(c.address) then p.address else c.address)
            && q.bloodType == (if IsNullOrEmpty(c.bloodType) then p.bloodType else c.bloodType)
            && q.medicalHistory == (if IsNullOrEmpty(c.medicalHistory) then p.medicalHistory else c.medicalHistory)
            && q.allergies == (if IsNullOrEmpty(c.allergies) then p.allergies else c.allergies)
            && q.emergencyContact == (if IsNullOrEmpty(c.emergencyContact) then p.emergencyContact else c.emergencyContact)
            && q.emergencyContactPhone == (if IsNullOrEmpty(c.emergencyContactPhone) then p.emergencyContactPhone else c.emergencyContactPhone)
  {
    if id !in store then None
    else
      var p := store[id];
      Some(p.(firstName := Service.KeepUnlessGiven(p.firstName, c.firstName),
              lastName := Service.KeepUnlessGiven(p.lastName, c.lastName),
              email := Service.KeepUnlessGiven(p.email, c.email),
              phoneNumber := Service.KeepUnlessGiven(p.phoneNumber, c.phoneNumber),
              dateOfBirth := c.dateOfBirth.GetOr(p.dateOfBirth),
              gender := Service.KeepUnlessGiven(p.gender, c.gender),
              address := KeepUnlessNonEmpty(p.address, c.address),
              bloodType := KeepUnlessNonEmpty(p.bloodType, c.bloodType),
              medicalHistory := KeepUnlessNonEmpty(p.medicalHistory, c.medicalHistory),
              allergies := KeepUnlessNonEmpty(p.allergies, c.allergies),
              emergencyContact := KeepUnlessNonEmpty(p.emergencyContact, c.emergencyContact),
              emergencyContactPhone := KeepUnlessNonEmpty(p.emergencyContactPhone, c.emergencyContactPhone),
              isActive := c.isActive.GetOr(p.isActive),
              updatedAt := now))
  }

  /** A command with every field null or empty changes nothing but the time. */
  lemma EmptyCommandTouchesOnlyTimestamp(store: map<int, Patient>, id: int, now: int)
    requires id in store
    ensures var c := UpdatePatientCommand(Some(""), Some(""), Some(""), Some(""), None, Some(""), Some(""), Some(""),
                                          Some(""), Some(""), Some(""), Some(""), None);
            UpdatePatient(store, id, c, now) == Some(store[id].(updatedAt := now))
  {
  }

  /** The handler reactivates a deactivated patient, which the business update never does. */
  lemma HandlerUpdateCanReactivate(store: map<int, Patient>, id: int, now: int, later: int)
    requires id in store
    ensures var s1 := Service.DeactivatePatient(store, id, now).1;
            var c := UpdatePatientCommand(None, None, None, None, None, None, None, None, None, None, None, None, Some(true));
            && UpdatePatient(s1, id, c, later).value.isActive
            && !Service.UpdatePatient(s1, id, Service.PatientChanges(None, None, None, None, None, None, None, None, None, None, None, None), later).value.value.isActive
  {
  }

  /** Unlike the business update, the handler cannot clear an optional field with an empty string. */
  lemma HandlerCannotClearOptional(store: map<int, Patient>, id: int, now: int)
    requires id in store && store[id].allergies == Some("peanuts")
    ensures UpdatePatient(store, id, UpdatePatientCommand(None, None, None, None, None, None, None, None, None, Some(""), None, None, None), now).value.allergies == Some("peanuts")
    ensures Service.UpdatePatient(store, id, Service.PatientChanges(None, None, None, None, None, None, None, None, None, Some(""), None, None), now).value.value.allergies == Some("")
  {
  }

  /** The handler gives a patient an email another patient holds, which the business update refuses. */
  lemma HandlerUpdateCanDuplicateEmail(p: Patient, q: Patient, now: int)
    requires p.email == "a@x.com" && q.email == "b@x.com"
    ensures Service.UniqueEmails(map[1 := p, 2 := q])
    ensures var c := UpdatePatientCommand(None, None, Some("b@x.com"), None, None, None, None, None, None, None, None, None, None);
            var p' := UpdatePatient(map[1 := p, 2 := q], 1, c, now).value;
            !Service.UniqueEmails(map[1 := p', 2 := q])
    ensures Service.UpdatePatient(map[1 := p, 2 := q], 1,
              Service.PatientChanges(None, None, Some("b@x.com"), None, None, None, None, None, None, None, None, None), now).Failure?
  {
    assert p.email[0] != q.email[0];
    var c := UpdatePatientCommand(None, None, Some("b@x.com"), None, None, None, None, None, None, None, None, None, None);
    var p' := UpdatePatient(map[1 := p, 2 := q], 1, c, now).value;
    var s' := map[1 := p', 2 := q];
    assert s'[1].email == s'[2].email;
    var s := map[1 := p, 2 := q];
    assert s[2].email == "b@x.com" && "b@x.com" != p.email;
    assert Service.EmailTaken(s, "b@x.com");
  }

  /** `DeactivatePatientCommandHandler.Handle`: whether the id was stored, and the store with that patient inactive. */
  function DeactivatePatient(store: map<int, Patient>, id: int, now: int): (r: (bool, map<int, Patient>))
    ensures r.0 <==> id in store
    ensures r.1.Keys == store.Keys
    ensures forall k :: k in store && k != id ==> r.1[k] == store[k]
    ensures id in store ==> !r.1[id].isActive && r.1[id].updatedAt == now
                            && r.1[id].(isActive := store[id].isActive, updatedAt := store[id].updatedAt) == store[id]
  {
    if id !in store then (false, store)
    else (true, store[id := store[id].(isActive := false, updatedAt := now)])
  }

  /** The handler deactivates exactly as the business service does. */
  lemma DeactivateWorkflowsAgree(store: map<int, Patient>, id: int, now: int)
    ensures DeactivatePatient(store, id, now) == Service.DeactivatePatient(store, id, now)
  {
  }

  /**
   * `DeletePatientCommandHandler.Handle`: whether the id was stored, and the store without it;
   * active and inactive patients alike.
   */
  function DeletePatient(store: map<int, Patient>, id: int): (r: (bool, map<int, Patient>))
    ensures r.0 <==> id in store
    ensures r.1 == if id in store then Service.DeletePatient(store, id).1 else store
  {
    if id !in store then (false, store)
    else (true, store - {id})
  }

  /** Deleting a patient removes it whatever its active flag, and leaves the others as they were. */
  lemma DeleteIgnoresActiveFlag(store: map<int, Patient>, id: int, active: bool)
    requires id in store
    ensures var r := DeletePatient(store[id := store[id].(isActive := active)], id);
            r.0 && r.1 == store - {id}
  {
  }

  /**
   * `SearchPatientsQueryHandler.Handle`: a null, empty or white-space term is an argument error
   * and the search is not made; otherwise the search's result for exactly that term.
   */
  function SearchPatients(term: Option<string>, search: string -> seq<Patient>): (r: Result<seq<Patient>, Error>)
    ensures r.Failure? <==> IsNullOrWhiteSpace(term)
    ensures r.Failure? ==> r.error == Error(Argument, BlankSearchTerm)
    ensures r.Success? ==> r.value == search(term.value)
  {
    if IsNullOrWhiteSpace(term) then Failure(Error(Argument, BlankSearchTerm))
    else Success(search(term.value))
  }

  /** A blank term is refused whatever the search would do, so the search is never consulted. */
  lemma BlankTermIgnoresSearch(term: Option<string>, s1: string -> seq<Patient>, s2: string -> seq<Patient>)
    requires IsNullOrWhiteSpace(term)
    ensures SearchPatients(term, s1) == SearchPatients(term, s2)
  {
  }

  /** A term with surrounding spaces is passed on untrimmed. */
  lemma TermNotTrimmed(search: string -> seq<Patient>)
    ensures SearchPatients(Some(" ab "), search) == Success(search(" ab "))
  {
    assert !IsWhiteSpaceChar(" ab "[1]);
  }

  /**
   * The handler calls `SearchPatientsAsync`, whose implementation is not part of this model; this
   * lemma puts the Infrastructure repository's `SearchAsync` predicate in its place. With that
   * search, a term nobody matches gives an empty list, not an error.
   */
  lemma NoMatchIsEmpty(rows: seq<Patient>, term: string)
    requires !IsBlank(term)
    requires forall i :: 0 <= i < |rows| ==> !PatientRepository.Matches(rows[i], Lower(term))
    ensures SearchPatients(Some(term), t => PatientRepository.Search(rows, t)) == Success([])
  {
  }
}
