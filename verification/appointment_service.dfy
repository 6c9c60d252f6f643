/**
 * The application service for appointments (Business/Application/Services/AppointmentService.cs):
 * booking, updating, cancelling and deleting, on top of the domain service's rules. The
 * appointment table is a store keyed by id, the patient and doctor tables are maps from id, and
 * the clock is the parameter `now`. A thrown exception is a `Failure`; a `null` answer is `None`.
 */
module AppointmentService {
  import opened Wrappers
  import opened Clock
  import opened Model
  import opened Text
  import AppointmentEntity
  import Repo = AppointmentRepository
  import ADS = AppointmentDomainService

  /** What a caller supplies to book an appointment. */
  datatype NewAppointment = NewAppointment(
    patientId: int,
    doctorId: int,
    date: int,
    duration: int,
    reasonForVisit: Option<string>,
    notes: Option<string>)

  /** The fields a caller may change on an appointment; `None` leaves a field as it is. */
  datatype AppointmentChanges = AppointmentChanges(
    date: Option<int>,
    duration: Option<int>,
    status: Option<string>,
    reasonForVisit: Option<string>,
    notes: Option<string>,
    cancellationReason: Option<string>,
    consultationFee: Option<real>)

  /**
   * `CreateAppointmentAsync`: the patient and the doctor must exist and the domain service must
   * accept the slot; the new appointment is scheduled and priced by the domain service, treating a
   * missing reason for visit as a regular visit. `newId` is the key the database hands out.
   */
  function CreateAppointment(store: map<int, Appointment>, patients: map<int, Patient>, doctors: map<int, Doctor>, now: int, req: NewAppointment, newId: int): (r: Result<Appointment, Error>)
    requires newId !in store
    ensures req.patientId !in patients ==> r == Failure(Error(InvalidOperation, PatientNotFound))
    ensures req.patientId in patients && req.doctorId !in doctors ==> r == Failure(Error(InvalidOperation, DoctorNotFound))
    ensures req.patientId in patients && req.doctorId in doctors
            && !ADS.CanSchedule(store, doctors, now, req.doctorId, req.date, req.duration)
            ==> r == Failure(Error(InvalidOperation, CannotSchedule))
    ensures r.Success? <==> req.patientId in patients && ADS.CanSchedule(store, doctors, now, req.doctorId, req.date, req.duration)
    ensures r.Success? ==> r.value.date > now && !Repo.HasConflict(store, req.doctorId, req.date, req.duration, None)
    ensures r.Success? ==> && r.value.id == newId
                           && r.value.patientId == req.patientId && r.value.doctorId == req.doctorId
                           && r.value.date == req.date && r.value.duration == req.duration
                           && r.value.reasonForVisit == req.reasonForVisit && r.value.notes == req.notes
                           && r.value.status == Scheduled && r.value.cancellationReason.None?
    ensures r.Success? ==> r.value.consultationFee
                           == Some(ADS.CalculateConsultationFee(doctors[req.doctorId], req.duration, req.reasonForVisit.GetOr("Regular")))
  {
    if req.patientId !in patients then Failure(Error(InvalidOperation, PatientNotFound))
    else if req.doctorId !in doctors then Failure(Error(InvalidOperation, DoctorNotFound))
    else if !ADS.CanSchedule(store, doctors, now, req.doctorId, req.date, req.duration) then
      Failure(Error(InvalidOperation, CannotSchedule))
    else
      var fee := ADS.CalculateConsultationFee(doctors[req.doctorId], req.duration, req.reasonForVisit.GetOr("Regular"));
      Success(Appointment(newId, req.patientId, req.doctorId, req.date, req.duration, Scheduled,
                          req.reasonForVisit, req.notes, None, Some(fee), now))
  }

  /** Booking keeps the store free of double bookings. */
  lemma CreatePreservesNoDoubleBooking(store: map<int, Appointment>, patients: map<int, Patient>, doctors: map<int, Doctor>, now: int, req: NewAppointment, newId: int)
    requires newId !in store && Repo.NoDoubleBooking(store)
    requires CreateAppointment(store, patients, doctors, now, req, newId).Success?
    ensures Repo.NoDoubleBooking(store[newId := CreateAppointment(store, patients, doctors, now, req, newId).value])
  {
    var a := CreateAppointment(store, patients, doctors, now, req, newId).value;
    Repo.PutPreservesNoDoubleBooking(store, newId, a);
  }

  /** Booking an appointment in the past, or at this very instant, is always refused. */
  lemma CreateRejectsPast(store: map<int, Appointment>, patients: map<int, Patient>, doctors: map<int, Doctor>, now: int, req: NewAppointment, newId: int)
    requires newId !in store && req.date <= now
    ensures CreateAppointment(store, patients, doctors, now, req, newId).Failure?
  {
  }

  /**
   * `CheckAvailabilityAsync`: the domain service's verdict, which is exactly a future slot that
   * no live appointment of the doctor overlaps and that one of the doctor's schedules admits.
   */
  function CheckAvailability(store: map<int, Appointment>, doctors: map<int, Doctor>, now: int, doctorId: int, date: int, duration: int): (r: bool)
    ensures r <==> && date > now
                   && !Repo.HasConflict(store, doctorId, date, duration, None)
                   && doctorId in doctors
                   && ADS.WithinWorkingHours(doctors[doctorId], date, duration)
  {
    ADS.CanSchedule(store, doctors, now, doctorId, date, duration)
  }

  /** A slot reported available can be booked by any existing patient, and one reported taken cannot. */
  lemma AvailableMeansBookable(store: map<int, Appointment>, patients: map<int, Patient>, doctors: map<int, Doctor>, now: int, req: NewAppointment, newId: int)
    requires newId !in store && req.patientId in patients
    ensures CreateAppointment(store, patients, doctors, now, req, newId).Success?
            <==> CheckAvailability(store, doctors, now, req.doctorId, req.date, req.duration)
  {
  }

  /** The changes applied to an appointment: only the fields supplied, a status only when non-empty. */
  function ApplyChanges(a: Appointment, c: AppointmentChanges, now: int): Appointment
  {
    a.(date := c.date.GetOr(a.date),
       duration := c.duration.GetOr(a.duration),
       status := if IsNullOrEmpty(c.status) then a.status else ParseStatus(c.status.value),
       reasonForVisit := if c.reasonForVisit.Some? then c.reasonForVisit else a.reasonForVisit,
       notes := if c.notes.Some? then c.notes else a.notes,
       cancellationReason := if c.cancellationReason.Some? then c.cancellationReason else a.cancellationReason,
       consultationFee := if c.consultationFee.Some? then c.consultationFee else a.consultationFee,
       updatedAt := now)
  }

  /** The changes move the appointment in time. */
  predicate Reschedules(c: AppointmentChanges)
  {
    c.date.Some? || c.duration.Some?
  }

  /**
   * `UpdateAppointmentAsync`: `None` when the id is unknown; when the date or duration changes,
   * the new slot must be free of the doctor's other appointments; then the supplied fields are
   * written. The appointment keeps its id, patient and doctor.
   */
  function UpdateAppointment(store: map<int, Appointment>, id: int, c: AppointmentChanges, now: int): (r: Result<Option<Appointment>, Error>)
    ensures id !in store ==> r == Success(None)
    ensures id in store ==> (r.Failure? <==> && Reschedules(c)
                                             && Repo.HasConflict(store, store[id].doctorId, c.date.GetOr(store[id].date),
                                                                 c.duration.GetOr(store[id].duration), Some(id)))
    ensures r.Failure? ==> r.error == Error(InvalidOperation, SlotTaken)
    ensures r.Success? && r.value.Some? ==> id in store && r.value.value == ApplyChanges(store[id], c, now)
    ensures r.Success? && r.value.Some? ==> && r.value.value.id == store[id].id
                                            && r.value.value.patientId == store[id].patientId
                                            && r.value.value.doctorId == store[id].doctorId
                                            && r.value.value.updatedAt == now
  {
    if id !in store then Success(None)
    else
      var a := store[id];
      if Reschedules(c) && Repo.HasConflict(store, a.doctorId, c.date.GetOr(a.date), c.duration.GetOr(a.duration), Some(id)) then
        Failure(Error(InvalidOperation, SlotTaken))
      else
        Success(Some(ApplyChanges(a, c, now)))
  }

  /** Applying the same changes twice is applying them once. */
  lemma ChangesIdempotent(a: Appointment, c: AppointmentChanges, t1: int, t2: int)
    ensures ApplyChanges(ApplyChanges(a, c, t1), c, t2) == ApplyChanges(a, c, t2)
  {
  }

  /** Supplying nothing, or an empty status, changes only the update time. */
  lemma EmptyChangesTouchOnlyTimestamp(a: Appointment, now: int)
    ensures ApplyChanges(a, AppointmentChanges(None, None, None, None, None, None, None), now) == a.(updatedAt := now)
    ensures ApplyChanges(a, AppointmentChanges(None, None, Some(""), None, None, None, None), now) == a.(updatedAt := now)
  {
  }

  /** A cancelled appointment brought back to a live status by the changes. */
  predicate Reinstates(a: Appointment, c: AppointmentChanges)
  {
    a.status == Cancelled && !IsNullOrEmpty(c.status) && ParseStatus(c.status.value) != Cancelled
  }

  /**
   * An update keeps the store free of double bookings, unless it reinstates a cancelled
   * appointment: that path changes no date or duration, so no conflict check runs.
   */
  lemma UpdatePreservesNoDoubleBooking(store: map<int, Appointment>, id: int, c: AppointmentChanges, now: int)
    requires KeyedById(store, AppointmentId) && Repo.NoDoubleBooking(store)
    requires UpdateAppointment(store, id, c, now).Success? && UpdateAppointment(store, id, c, now).value.Some?
    requires !Reinstates(store[id], c)
    ensures Repo.NoDoubleBooking(store[id := UpdateAppointment(store, id, c, now).value.value])
  {
    var a := store[id];
    var x := UpdateAppointment(store, id, c, now).value.value;
    if x.status != Cancelled {
      if Reschedules(c) {
        Repo.FreeSlotBlocksNothing(store, id, x.doctorId, x.date, x.duration, Some(id));
      } else {
        assert a.status != Cancelled;
        forall j | j in store && j != id
          ensures !Repo.Blocks(store[j], x.doctorId, x.date, x.duration)
        {
          assert !Repo.Clash(store[j], a);
          Repo.ClashIsBlocking(store[j], a);
        }
      }
    }
    Repo.PutPreservesNoDoubleBooking(store, id, x);
  }

  /** Reinstating a cancelled appointment by its status alone can double-book its doctor. */
  lemma ReinstatementCanDoubleBook(a: Appointment, b: Appointment)
    requires a.id == 1 && b.id == 2 && a.doctorId == b.doctorId
    requires a.date == b.date && a.duration == b.duration == Minutes(30)
    requires a.status == Cancelled && b.status == Scheduled
    ensures Repo.NoDoubleBooking(map[1 := a, 2 := b])
    ensures var c := AppointmentChanges(None, None, Some("Scheduled"), None, None, None, None);
            var r := UpdateAppointment(map[1 := a, 2 := b], 1, c, 0);
            r.Success? && r.value.Some? && !Repo.NoDoubleBooking(map[1 := r.value.value, 2 := b])
  {
    var c := AppointmentChanges(None, None, Some("Scheduled"), None, None, None, None);
    var x := UpdateAppointment(map[1 := a, 2 := b], 1, c, 0).value.value;
    assert x.status == Scheduled;
    assert Repo.Clash(map[1 := x, 2 := b][1], map[1 := x, 2 := b][2]);
  }

  /**
   * `CancelAppointmentAsync`: `None` (the service's `false`) when the id is unknown; refused when
   * the domain service's notice rule fails; otherwise the appointment becomes cancelled with the
   * reason. Unlike the entity's `Cancel`, the current status is not consulted.
   */
  function CancelAppointment(store: map<int, Appointment>, id: int, reason: string, now: int): (r: Result<Option<Appointment>, Error>)
    ensures id !in store ==> r == Success(None)
    ensures id in store ==> (r.Failure? <==> store[id].date - now < ADS.NoticeRequired(store[id]))
    ensures r.Failure? ==> r.error == Error(InvalidOperation, CancellationRefused)
    ensures r.Success? && r.value.Some? ==> && id in store
                                            && r.value.value.status == Cancelled
                                            && r.value.value.cancellationReason == Some(reason)
                                            && r.value.value.updatedAt == now
                                            && r.value.value.(status := store[id].status,
                                                              cancellationReason := store[id].cancellationReason,
                                                              updatedAt := store[id].updatedAt) == store[id]
  {
    if id !in store then Success(None)
    else if !ADS.CanCancel(store[id], now) then Failure(Error(InvalidOperation, CancellationRefused))
    else Success(Some(store[id].(status := Cancelled, cancellationReason := Some(reason), updatedAt := now)))
  }

  /** After a cancellation the slot it held is free again for the same doctor. */
  lemma CancelFreesSlot(store: map<int, Appointment>, id: int, reason: string, now: int)
    requires Repo.NoDoubleBooking(store)
    requires id in store && store[id].status != Cancelled
    requires CancelAppointment(store, id, reason, now).Success?
    ensures var a := store[id];
            var s' := store[id := CancelAppointment(store, id, reason, now).value.value];
            !Repo.HasConflict(s', a.doctorId, a.date, a.duration, None) && Repo.NoDoubleBooking(s')
  {
    var a := store[id];
    var x := CancelAppointment(store, id, reason, now).value.value;
    Repo.PutPreservesNoDoubleBooking(store, id, x);
  }

  /** The service cancels a completed appointment given the notice, where the entity refuses. */
  lemma CancelIgnoresStatus(store: map<int, Appointment>, id: int, reason: string, now: int)
    requires id in store && store[id].status == Completed
    requires store[id].date - now >= Hours(24)
    ensures CancelAppointment(store, id, reason, now).Success?
    ensures CancelAppointment(store, id, reason, now).value.Some?
    ensures AppointmentEntity.Cancel(store[id], reason, now).Failure?
  {
  }

  /** `DeleteAppointmentAsync`: whether the id was stored, and the store without it. */
  function DeleteAppointment(store: map<int, Appointment>, id: int): (r: (bool, map<int, Appointment>))
    ensures r.0 <==> id in store
    ensures id !in r.1 && r.1.Keys == store.Keys - {id}
    ensures forall k :: k in r.1 ==> r.1[k] == store[k]
  {
    (id in store, store - {id})
  }

  /** Deleting keeps the store free of double bookings and leaves the deleted slot free. */
  lemma DeletePreservesNoDoubleBooking(store: map<int, Appointment>, id: int)
    requires KeyedById(store, AppointmentId) && Repo.NoDoubleBooking(store)
    requires id in store && store[id].status != Cancelled
    ensures Repo.NoDoubleBooking(DeleteAppointment(store, id).1)
    ensures !Repo.HasConflict(DeleteAppointment(store, id).1, store[id].doctorId, store[id].date, store[id].duration, None)
  {
    var a := store[id];
    var s' := DeleteAppointment(store, id).1;
    if Repo.HasConflict(s', a.doctorId, a.date, a.duration, None) {
      var j :| j in s' && !Repo.Excluded(s'[j], None) && Repo.Blocks(s'[j], a.doctorId, a.date, a.duration);
      Repo.ClashIsBlocking(store[j], a);
      assert false;
    }
  }
}
