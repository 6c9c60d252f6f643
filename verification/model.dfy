/**
 * The clinic's records: appointments, doctors with their weekly schedules, and patients.
 * Instants and durations are ticks (module Clock); dates of birth are calendar dates.
 */
module Model {
  import opened Wrappers
  import opened Clock
  import Calendar

  /**
   * An appointment's status. The domain entity stores an enum, the business model stores the
   * status name as a string; `Other` holds any string that names none of the five states.
   */
  datatype Status = Scheduled | Confirmed | InProgress | Completed | Cancelled | Other(name: string)

  function StatusName(st: Status): string
  {
    match st
    case Scheduled => "Scheduled"
    case Confirmed => "Confirmed"
    case InProgress => "InProgress"
    case Completed => "Completed"
    case Cancelled => "Cancelled"
    case Other(n) => n
  }

  /** A status value as a string would be stored: `Other` never spells a known state. */
  predicate Canonical(st: Status)
  {
    st.Other? ==> st.name !in {"Scheduled", "Confirmed", "InProgress", "Completed", "Cancelled"}
  }

  /** The status a stored string denotes. */
  function ParseStatus(s: string): (st: Status)
    ensures Canonical(st)
    ensures StatusName(st) == s
  {
    match s
    case "Scheduled" => Scheduled
    case "Confirmed" => Confirmed
    case "InProgress" => InProgress
    case "Completed" => Completed
    case "Cancelled" => Cancelled
    case _ => Other(s)
  }

  /** Naming a canonical status and parsing the name gives the status back. */
  lemma ParseStatusName(st: Status)
    requires Canonical(st)
    ensures ParseStatus(StatusName(st)) == st
  {
  }

  /** Comparing stored strings is comparing canonical statuses. */
  lemma StatusNameInjective(a: Status, b: Status)
    requires Canonical(a) && Canonical(b)
    ensures StatusName(a) == StatusName(b) <==> a == b
  {
    ParseStatusName(a);
    ParseStatusName(b);
  }

  datatype Appointment = Appointment(
    id: int,
    patientId: int,
    doctorId: int,
    date: int,          // instant, ticks
    duration: int,      // ticks
    status: Status,
    reasonForVisit: Option<string>,
    notes: Option<string>,
    cancellationReason: Option<string>,
    consultationFee: Option<real>,
    updatedAt: int)

  /** A weekly working window; the times are ticks since midnight. */
  datatype Schedule = Schedule(
    day: Weekday,
    startTime: int,
    endTime: int,
    breakStart: Option<int>,
    breakEnd: Option<int>,
    isAvailable: bool)

  datatype Doctor = Doctor(
    id: int,
    firstName: string,
    lastName: string,
    email: string,
    phoneNumber: string,
    specialization: string,
    licenseNumber: string,
    consultationFee: real,
    isActive: bool,
    schedules: seq<Schedule>)

  datatype Patient = Patient(
    id: int,
    firstName: string,
    lastName: string,
    email: string,
    phoneNumber: string,
    dateOfBirth: Calendar.CivilDate,
    gender: string,
    address: Option<string>,
    bloodType: Option<string>,
    medicalHistory: Option<string>,
    allergies: Option<string>,
    emergencyContact: Option<string>,
    emergencyContactPhone: Option<string>,
    isActive: bool,
    updatedAt: int)

  /** The details a new patient is registered with (`CreatePatientDto`, `CreatePatientCommand`). */
  datatype NewPatient = NewPatient(
    firstName: string,
    lastName: string,
    email: string,
    phoneNumber: string,
    dateOfBirth: Calendar.CivilDate,
    gender: string,
    address: Option<string>,
    bloodType: Option<string>,
    medicalHistory: Option<string>,
    allergies: Option<string>,
    emergencyContact: Option<string>,
    emergencyContactPhone: Option<string>)

  /** The stored patient a registration creates: the details field for field, under `id`. */
  function Register(n: NewPatient, id: int, now: int): Patient
  {
    Patient(id, n.firstName, n.lastName, n.email, n.phoneNumber, n.dateOfBirth, n.gender, n.address, n.bloodType,
            n.medicalHistory, n.allergies, n.emergencyContact, n.emergencyContactPhone, true, now)
  }

  /** The registration details a stored patient carries. */
  function Details(p: Patient): NewPatient
  {
    NewPatient(p.firstName, p.lastName, p.email, p.phoneNumber, p.dateOfBirth, p.gender, p.address, p.bloodType,
               p.medicalHistory, p.allergies, p.emergencyContact, p.emergencyContactPhone)
  }

  /** A registered patient carries exactly the details it was registered with, and starts active. */
  lemma RegisterKeepsDetails(n: NewPatient, id: int, now: int)
    ensures Details(Register(n, id, now)) == n
    ensures Register(n, id, now).id == id && Register(n, id, now).isActive
  {
  }

  /** Every record is filed under its own id. */
  predicate KeyedById<T>(store: map<int, T>, id: T -> int)
  {
    forall k :: k in store ==> id(store[k]) == k
  }

  function AppointmentId(a: Appointment): int { a.id }

  function PatientId(p: Patient): int { p.id }
}
