/**
 * The access decisions written out in the controllers' actions (the appointment controllers of
 * the Infrastructure and Web layers and the Infrastructure patients controller). A caller is its
 * set of role claims and its optional `patientId` and `doctorId` claims; an action's outcome is
 * the HTTP result it returns, without the body. Authorization attributes on the actions are
 * enforced by the framework before the action runs and are not part of this model.
 */
module Access {
  import opened Wrappers
  import opened Model
  import opened Text
  import opened Roles
  import opened Clock
  import AppointmentService
  import AppointmentRepository
  import AppointmentHandlers
  import PatientService
  import PatientHandlers

  /** An authenticated caller. A claim that is absent is `None`; a present claim is its integer value. */
  datatype Caller = Caller(roles: set<Role>, patientClaim: Option<int>, doctorClaim: Option<int>)

  /** The result an action returns; `Unhandled` is an exception the action does not catch. */
  datatype Outcome = Ok | Created | NoContent | Forbidden | NotFound | BadRequest | Unhandled

  /** A caller in the Patient role whose claim does not name `patientId` (absent or different). */
  predicate PatientBarred(c: Caller, patientId: int)
  {
    Role.Patient in c.roles && c.patientClaim != Some(patientId)
  }

  /** A caller in the Doctor role whose claim does not name `doctorId`. */
  predicate DoctorBarred(c: Caller, doctorId: int)
  {
    Role.Doctor in c.roles && c.doctorClaim != Some(doctorId)
  }

  /** Receptionist, Manager or Admin. */
  predicate IsStaff(c: Caller)
  {
    Receptionist in c.roles || Manager in c.roles || Admin in c.roles
  }

  /** Doctor or Nurse. */
  predicate IsMedicalStaff(c: Caller)
  {
    Role.Doctor in c.roles || Nurse in c.roles
  }

  // ---------------------------------------------------------------- appointments

  /**
   * `GetAppointment`: an unknown id is not found whoever asks; a Patient-role caller must own the
   * appointment as its patient and a Doctor-role caller as its doctor, both when it holds both
   * roles. The Web controller's action is the same code.
   */
  function GetAppointment(store: map<int, Appointment>, id: int, c: Caller): (r: Outcome)
    ensures r == NotFound <==> id !in store
    ensures r == Ok <==> && id in store
                         && (Role.Patient in c.roles ==> c.patientClaim == Some(store[id].patientId))
                         && (Role.Doctor in c.roles ==> c.doctorClaim == Some(store[id].doctorId))
    ensures r == NotFound || r == Ok || r == Forbidden
  {
    if id !in store then NotFound
    else if PatientBarred(c, store[id].patientId) then Forbidden
    else if DoctorBarred(c, store[id].doctorId) then Forbidden
    else Ok
  }

  /** A caller holding both roles is forbidden unless both claims match; each alone is not enough. */
  lemma BothRolesMustMatchBoth(a: Appointment, c: Caller)
    requires c.roles == {Role.Patient, Role.Doctor}
    requires c.patientClaim == Some(a.patientId) && c.doctorClaim != Some(a.doctorId)
    ensures GetAppointment(map[a.id := a], a.id, c) == Forbidden
    ensures GetAppointment(map[a.id := a], a.id, c.(doctorClaim := Some(a.doctorId))) == Ok
  {
  }

  /** `GetAppointmentsByPatient`: only a Patient-role caller is restricted, to its own id. */
  function ListByPatient(patientId: int, c: Caller): (r: Outcome)
    ensures r == Forbidden <==> Role.Patient in c.roles && c.patientClaim != Some(patientId)
    ensures r == Ok || r == Forbidden
  {
    if PatientBarred(c, patientId) then Forbidden else Ok
  }

  /** `GetAppointmentsByDoctor`: staff, or a Doctor-role caller asking for its own id. */
  function ListByDoctor(doctorId: int, c: Caller): (r: Outcome)
    ensures r == Ok <==> IsStaff(c) || (Role.Doctor in c.roles && c.doctorClaim == Some(doctorId))
    ensures r == Ok || r == Forbidden
  {
    var staff := IsStaff(c);
    var ownDoctor := Role.Doctor in c.roles && c.doctorClaim.Some? && c.doctorClaim.value == doctorId;
    if !staff && !ownDoctor then Forbidden else Ok
  }

  /**
   * The two listings are not symmetric: a Nurse, a Patient or a caller with no role may list any
   * patient's appointments, but nobody outside staff and the owning doctor may list a doctor's.
   */
  lemma ListingsAsymmetric(c: Caller, id: int)
    requires c.roles == {Nurse} || c.roles == {}
    ensures ListByPatient(id, c) == Ok
    ensures ListByDoctor(id, c) == Forbidden
  {
  }

  /** A Patient-role caller never lists a doctor's appointments unless it is also staff or that doctor. */
  lemma PatientCannotListDoctor(c: Caller, id: int)
    requires c.roles == {Role.Patient}
    ensures ListByDoctor(id, c) == Forbidden
  {
  }

  /** `GetAppointmentsByDateRange`'s guard: refused when the start is after the end. */
  function DateRange(start: int, end: int): (r: Outcome)
    ensures r == BadRequest <==> start > end
    ensures r == Ok <==> start <= end
  {
    if start > end then BadRequest else Ok
  }

  /**
   * `GetAppointmentWithDetails`: not found first; then any Doctor or Nurse, any staff member, the
   * owning patient or the owning doctor. A Doctor need not own the appointment here.
   */
  function Details(store: map<int, Appointment>, id: int, c: Caller): (r: Outcome)
    ensures r == NotFound <==> id !in store
    ensures r == Ok <==> id in store && (IsMedicalStaff(c) || IsStaff(c) || (Role.Patient in c.roles && c.patientClaim == Some(store[id].patientId)))
    ensures r == NotFound || r == Ok || r == Forbidden
  {
    if id !in store then NotFound
    else
      var a := store[id];
      var isPatient := Role.Patient in c.roles && c.patientClaim.Some? && c.patientClaim.value == a.patientId;
      var isDoctor := Role.Doctor in c.roles && c.doctorClaim.Some? && c.doctorClaim.value == a.doctorId;
      if !IsMedicalStaff(c) && !IsStaff(c) && !isPatient && !isDoctor then Forbidden else Ok
  }

  /**
   * Any caller holding at least one role who may read an appointment may read its details, but a
   * doctor may read the details of another doctor's appointment and not the appointment itself.
   */
  lemma DetailsLooserThanGet(store: map<int, Appointment>, id: int, c: Caller)
    requires c.roles != {}
    ensures GetAppointment(store, id, c) == Ok ==> Details(store, id, c) == Ok
    ensures id in store && c.roles == {Role.Doctor} && c.doctorClaim != Some(store[id].doctorId)
            ==> GetAppointment(store, id, c) == Forbidden && Details(store, id, c) == Ok
  {
    if GetAppointment(store, id, c) == Ok {
      var r :| r in c.roles;
      assert r.Patient? || IsMedicalStaff(c) || IsStaff(c);
    }
  }

  /** A caller with no role claim reads every appointment but none of their details. */
  lemma RolelessCaller(store: map<int, Appointment>, id: int, c: Caller)
    requires id in store && c.roles == {}
    ensures GetAppointment(store, id, c) == Ok && Details(store, id, c) == Forbidden
  {
  }

  /**
   * The Infrastructure controller's `CreateAppointment`: a Patient-role caller may book only for
   * itself; the service's refusals are bad requests.
   */
  function CreateAppointment(store: map<int, Appointment>, patients: map<int, Patient>, doctors: map<int, Doctor>,
                             now: int, req: AppointmentService.NewAppointment, newId: int, c: Caller): (r: Outcome)
    requires newId !in store
    ensures r == Forbidden <==> PatientBarred(c, req.patientId)
    ensures r == Created <==> !PatientBarred(c, req.patientId)
                              && AppointmentService.CreateAppointment(store, patients, doctors, now, req, newId).Success?
    ensures r == Forbidden || r == Created || r == BadRequest
  {
    if PatientBarred(c, req.patientId) then Forbidden
    else
      match AppointmentService.CreateAppointment(store, patients, doctors, now, req, newId)
      case Success(_) => Created
      case Failure(e) => if e.kind == InvalidOperation then BadRequest else Unhandled
  }

  /**
   * The Web controller's `CreateAppointment`: no check on the caller; a refused slot is a bad
   * request, while the handler's missing-patient and missing-doctor argument errors escape.
   */
  function WebCreateAppointment(store: map<int, Appointment>, patients: map<int, Patient>, doctors: map<int, Doctor>,
                                gate: (int, int, int) -> bool, fee: (Doctor, int, string) -> real,
                                now: int, req: AppointmentService.NewAppointment, newId: int, c: Caller): (r: Outcome)
    requires newId !in store
    ensures r == Created <==> AppointmentHandlers.CreateAppointment(store, patients, doctors, gate, fee, now, req, newId).Success?
    ensures r == Unhandled <==> req.patientId !in patients || req.doctorId !in doctors
    ensures r == Created || r == BadRequest || r == Unhandled
  {
    match AppointmentHandlers.CreateAppointment(store, patients, doctors, gate, fee, now, req, newId)
    case Success(_) => Created
    case Failure(e) => if e.kind == InvalidOperation then BadRequest else Unhandled
  }

  /**
   * A patient booking for somebody else is forbidden by the Infrastructure controller and not by
   * the Web one, which decides the same whoever calls.
   */
  lemma WebCreateHasNoSelfRule(store: map<int, Appointment>, patients: map<int, Patient>, doctors: map<int, Doctor>,
                               gate: (int, int, int) -> bool, fee: (Doctor, int, string) -> real,
                               now: int, req: AppointmentService.NewAppointment, newId: int, c: Caller, c': Caller)
    requires newId !in store
    requires c.roles == {Role.Patient} && c.patientClaim == Some(req.patientId + 1)
    ensures CreateAppointment(store, patients, doctors, now, req, newId, c) == Forbidden
    ensures WebCreateAppointment(store, patients, doctors, gate, fee, now, req, newId, c)
            == WebCreateAppointment(store, patients, doctors, gate, fee, now, req, newId, c')
  {
  }

  /**
   * The Infrastructure controller's `UpdateAppointment`: no check on the caller; an unknown id is
   * not found and the service's refusal of a taken slot a bad request.
   */
  function UpdateAppointment(store: map<int, Appointment>, id: int, changes: AppointmentService.AppointmentChanges, now: int): (r: Outcome)
    ensures r == NotFound <==> id !in store
    ensures r == BadRequest <==> AppointmentService.UpdateAppointment(store, id, changes, now).Failure?
    ensures r == Ok <==> id in store && AppointmentService.UpdateAppointment(store, id, changes, now).Success?
  {
    match AppointmentService.UpdateAppointment(store, id, changes, now)
    case Failure(e) => if e.kind == InvalidOperation then BadRequest else Unhandled
    case Success(None) => NotFound
    case Success(Some(_)) => Ok
  }

  /** Moving a live appointment onto a slot another live appointment of its doctor holds is a bad request. */
  lemma UpdateOntoTakenSlot(a: Appointment, b: Appointment)
    requires a.id == 1 && b.id == 2 && a.doctorId == b.doctorId
    requires a.status == Scheduled && b.status == Scheduled && a.duration == b.duration == Minutes(30)
    ensures UpdateAppointment(map[1 := a, 2 := b], 1, AppointmentService.AppointmentChanges(Some(b.date), None, None, None, None, None, None), 0) == BadRequest
  {
    var s := map[1 := a, 2 := b];
    assert !AppointmentRepository.Excluded(s[2], Some(1)) && AppointmentRepository.Blocks(s[2], a.doctorId, b.date, a.duration);
  }

  /** `UpdateAppointmentCommand` as posted: an id field next to the fields to change. */
  datatype UpdateRequest = UpdateRequest(id: int, changes: AppointmentHandlers.UpdateCommand)

  /**
   * The Web controller's `UpdateAppointment`: the command is sent with the route's id in place of
   * the body's, and an unknown id is not found.
   */
  function WebUpdateAppointment(store: map<int, Appointment>, routeId: int, body: UpdateRequest, now: int): (r: (Outcome, Option<Appointment>))
    ensures r.0 == NotFound <==> routeId !in store
    ensures r.0 == Ok <==> routeId in store
    ensures r.1 == AppointmentHandlers.UpdateAppointment(store, routeId, body.changes, now)
  {
    var command := body.(id := routeId);
    var result := AppointmentHandlers.UpdateAppointment(store, command.id, command.changes, now);
    if result.None? then (NotFound, None) else (Ok, result)
  }

  /** The id in the body never matters: only the route's id picks the appointment. */
  lemma RouteIdOverridesBody(store: map<int, Appointment>, routeId: int, bodyId: int, bodyId': int,
                             changes: AppointmentHandlers.UpdateCommand, now: int)
    ensures WebUpdateAppointment(store, routeId, UpdateRequest(bodyId, changes), now)
            == WebUpdateAppointment(store, routeId, UpdateRequest(bodyId', changes), now)
    ensures bodyId in store && routeId !in store ==> WebUpdateAppointment(store, routeId, UpdateRequest(bodyId, changes), now).0 == NotFound
  {
  }

  /** The Web controller's `CancelAppointment`: the handler's refusal is reported as not found. */
  function WebCancelAppointment(store: map<int, Appointment>, id: int, reason: string, now: int): (r: Outcome)
    ensures r == NotFound <==> id !in store || store[id].status == Cancelled
    ensures r == NoContent <==> id in store && store[id].status != Cancelled
  {
    if AppointmentHandlers.CancelAppointment(store, id, reason, now).None? then NotFound else NoContent
  }

  /** An existing but already cancelled appointment is reported exactly like a missing one. */
  lemma CancelledLooksMissing(store: map<int, Appointment>, id: int, missing: int, reason: string, now: int)
    requires id in store && store[id].status == Cancelled && missing !in store
    ensures WebCancelAppointment(store, id, reason, now) == WebCancelAppointment(store, missing, reason, now) == NotFound
  {
  }

  /**
   * The Infrastructure controller's `CancelAppointment`: an unknown id is not found; the service's
   * refusal for want of notice is not caught.
   */
  function CancelAppointment(store: map<int, Appointment>, id: int, reason: string, now: int): (r: Outcome)
    ensures r == NotFound <==> id !in store
    ensures r == Unhandled <==> AppointmentService.CancelAppointment(store, id, reason, now).Failure?
    ensures r == NoContent <==> AppointmentService.CancelAppointment(store, id, reason, now).Success? && id in store
  {
    match AppointmentService.CancelAppointment(store, id, reason, now)
    case Failure(_) => Unhandled
    case Success(None) => NotFound
    case Success(Some(_)) => NoContent
  }

  /** `DeleteAppointment` in both controllers: not found for an unknown id, otherwise no content. */
  function DeleteAppointment(store: map<int, Appointment>, id: int): (r: Outcome)
    ensures r == NotFound <==> id !in store
    ensures r == NoContent <==> id in store
  {
    if AppointmentService.DeleteAppointment(store, id).0 then NoContent else NotFound
  }

  // ---------------------------------------------------------------- patients

  /**
   * `GetPatient` and `GetPatientWithAppointments`: a Patient-role caller may ask only for its own
   * id, and that check comes before the lookup.
   */
  function GetPatient(store: map<int, Patient>, id: int, c: Caller): (r: Outcome)
    ensures r == Forbidden <==> PatientBarred(c, id)
    ensures r == NotFound <==> !PatientBarred(c, id) && id !in store
    ensures r == Ok <==> !PatientBarred(c, id) && id in store
  {
    if PatientBarred(c, id) then Forbidden
    else if id !in store then NotFound
    else Ok
  }

  /** A patient asking for another id learns nothing about whether it exists. */
  lemma ForbiddenBeforeLookup(store: map<int, Patient>, id: int, c: Caller, p: Patient)
    requires PatientBarred(c, id)
    ensures GetPatient(store, id, c) == GetPatient(store - {id}, id, c) == GetPatient(store[id := p], id, c) == Forbidden
  {
  }

  /** `SearchPatients`' guard: a null, empty or white-space term is a bad request. */
  function SearchGuard(term: Option<string>): (r: Outcome)
    ensures r == BadRequest <==> IsNullOrWhiteSpace(term)
    ensures r == Ok <==> !IsNullOrWhiteSpace(term)
  {
    if IsNullOrWhiteSpace(term) then BadRequest else Ok
  }

  /** The controller refuses exactly the terms the search handler refuses. */
  lemma SearchGuardMatchesHandler(term: Option<string>, search: string -> seq<Patient>)
    ensures SearchGuard(term) == BadRequest <==> PatientHandlers.SearchPatients(term, search).Failure?
  {
  }

  /**
   * `GetPatientWithMedicalRecords`: a Doctor or Nurse, or a Patient-role caller asking for its own
   * id; the check comes before the lookup.
   */
  function MedicalRecords(store: map<int, Patient>, id: int, c: Caller): (r: Outcome)
    ensures r == Forbidden <==> !IsMedicalStaff(c) && !(Role.Patient in c.roles && c.patientClaim == Some(id))
    ensures r == NotFound <==> r != Forbidden && id !in store
    ensures r == Ok || r == Forbidden || r == NotFound
  {
    var ownRecord := Role.Patient in c.roles && c.patientClaim.Some? && c.patientClaim.value == id;
    if !IsMedicalStaff(c) && !ownRecord then Forbidden
    else if id !in store then NotFound
    else Ok
  }

  /** Administrators, managers and receptionists read patients but not their medical records. */
  lemma OfficeStaffBarredFromRecords(store: map<int, Patient>, id: int, c: Caller)
    requires id in store && c.roles <= {Admin, Manager, Receptionist} && c.roles != {}
    ensures GetPatient(store, id, c) == Ok
    ensures MedicalRecords(store, id, c) == Forbidden
  {
  }

  /** `CreatePatient`: created, or a bad request when the email is already held. */
  function CreatePatient(store: map<int, Patient>, n: NewPatient, newId: int, now: int): (r: Outcome)
    requires newId !in store
    ensures r == BadRequest <==> PatientService.EmailTaken(store, n.email)
    ensures r == Created <==> !PatientService.EmailTaken(store, n.email)
  {
    match PatientService.CreatePatient(store, n, newId, now)
    case Success(_) => Created
    case Failure(e) => if e.kind == InvalidOperation then BadRequest else Unhandled
  }

  /**
   * `UpdatePatient`: the same self rule as reading; then an unknown id is not found and a taken
   * email a bad request.
   */
  function UpdatePatient(store: map<int, Patient>, id: int, changes: PatientService.PatientChanges, now: int, c: Caller): (r: Outcome)
    ensures r == Forbidden <==> PatientBarred(c, id)
    ensures r == NotFound <==> !PatientBarred(c, id) && id !in store
    ensures r == BadRequest <==> !PatientBarred(c, id) && id in store && PatientService.EmailClash(store, id, changes)
    ensures r == Ok <==> !PatientBarred(c, id) && id in store && !PatientService.EmailClash(store, id, changes)
  {
    if PatientBarred(c, id) then Forbidden
    else
      match PatientService.UpdatePatient(store, id, changes, now)
      case Failure(e) => if e.kind == InvalidOperation then BadRequest else Unhandled
      case Success(None) => NotFound
      case Success(Some(_)) => Ok
  }

  /** Whoever may read a patient record may also attempt to update it, and the other way round. */
  lemma UpdateGuardedLikeRead(store: map<int, Patient>, id: int, changes: PatientService.PatientChanges, now: int, c: Caller)
    ensures (UpdatePatient(store, id, changes, now, c) == Forbidden) <==> (GetPatient(store, id, c) == Forbidden)
    ensures (UpdatePatient(store, id, changes, now, c) == NotFound) <==> (GetPatient(store, id, c) == NotFound)
  {
  }
}
