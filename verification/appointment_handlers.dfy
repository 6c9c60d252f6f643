/**
 * The command and query handlers for appointments (the files under Application/Handlers/Appointments), the
 * second implementation of the appointment workflows. Their scheduling gate and fee come from a
 * domain-service interface whose implementation is not part of this model, so both are function
 * parameters: `gate(doctorId, date, duration)` and `fee(doctor, duration, type)`.
 */
module AppointmentHandlers {
  import opened Wrappers
  import opened Clock
  import opened Model
  import opened Text
  import AppointmentEntity
  import Repo = AppointmentRepository
  import ADS = AppointmentDomainService
  import Service = AppointmentService

  /**
   * `CreateAppointmentCommandHandler.Handle`: missing patient or doctor is an argument error, a
   * refused gate an invalid operation; otherwise a scheduled appointment priced as a regular visit,
   * whatever the reason for visit says.
   */
  function CreateAppointment(store: map<int, Appointment>, patients: map<int, Patient>, doctors: map<int, Doctor>,
                             gate: (int, int, int) -> bool, fee: (Doctor, int, string) -> real,
                             now: int, req: Service.NewAppointment, newId: int): (r: Result<Appointment, Error>)
    requires newId !in store
    ensures req.patientId !in patients ==> r == Failure(Error(Argument, PatientNotFound))
    ensures req.patientId in patients && req.doctorId !in doctors ==> r == Failure(Error(Argument, DoctorNotFound))
    ensures req.patientId in patients && req.doctorId in doctors && !gate(req.doctorId, req.date, req.duration)
            ==> r == Failure(Error(InvalidOperation, CannotSchedule))
    ensures r.Success? <==> req.patientId in patients && req.doctorId in doctors && gate(req.doctorId, req.date, req.duration)
    ensures r.Success? ==> && r.value.id == newId
                           && r.value.patientId == req.patientId && r.value.doctorId == req.doctorId
                           && r.value.date == req.date && r.value.duration == req.duration
                           && r.value.reasonForVisit == req.reasonForVisit && r.value.notes == req.notes
                           && r.value.status == Scheduled && r.value.cancellationReason.None?
                           && r.value.consultationFee == Some(fee(doctors[req.doctorId], req.duration, "Regular"))
  {
    if req.patientId !in patients then Failure(Error(Argument, PatientNotFound))
    else if req.doctorId !in doctors then Failure(Error(Argument, DoctorNotFound))
    else if !gate(req.doctorId, req.date, req.duration) then Failure(Error(InvalidOperation, CannotSchedule))
    else
      Success(Appointment(newId, req.patientId, req.doctorId, req.date, req.duration, Scheduled,
                          req.reasonForVisit, req.notes, None, Some(fee(doctors[req.doctorId], req.duration, "Regular")), now))
  }

  /** The reason for visit never changes the handler's fee, unlike the business service's. */
  lemma HandlerFeeIgnoresReason(store: map<int, Appointment>, patients: map<int, Patient>, doctors: map<int, Doctor>,
                                gate: (int, int, int) -> bool, fee: (Doctor, int, string) -> real,
                                now: int, req: Service.NewAppointment, reason: Option<string>, newId: int)
    requires newId !in store
    requires CreateAppointment(store, patients, doctors, gate, fee, now, req, newId).Success?
    ensures var r' := CreateAppointment(store, patients, doctors, gate, fee, now, req.(reasonForVisit := reason), newId);
            r'.Success? && r'.value.consultationFee == CreateAppointment(store, patients, doctors, gate, fee, now, req, newId).value.consultationFee
  {
  }

  /**
   * With the business rules as the gate and the business fee, the two create workflows book the
   * same appointment when no reason is given, and refuse the same requests; only the exception
   * class for a missing patient or doctor differs.
   */
  lemma CreateWorkflowsAgree(store: map<int, Appointment>, patients: map<int, Patient>, doctors: map<int, Doctor>,
                             gate: (int, int, int) -> bool, now: int, req: Service.NewAppointment, newId: int)
    requires newId !in store && req.reasonForVisit.None?
    requires gate(req.doctorId, req.date, req.duration) == ADS.CanSchedule(store, doctors, now, req.doctorId, req.date, req.duration)
    ensures var h := CreateAppointment(store, patients, doctors, gate, ADS.CalculateConsultationFee, now, req, newId);
            var s := Service.CreateAppointment(store, patients, doctors, now, req, newId);
            && h.Success? == s.Success?
            && (h.Success? ==> h.value == s.value)
            && (h.Failure? ==> h.error.cause == s.error.cause)
  {
  }

  /** The handler's update command: its status, cancellation reason and fee are carried but never applied. */
  datatype UpdateCommand = UpdateCommand(
    date: Option<int>,
    duration: Option<int>,
    status: Option<Status>,
    reasonForVisit: Option<string>,
    notes: Option<string>,
    cancellationReason: Option<string>,
    consultationFee: Option<real>)

  /**
   * `UpdateAppointmentCommandHandler.Handle`: `None` when the id is unknown; otherwise date and
   * duration when supplied, reason and notes when non-empty, and nothing else but the update
   * time. No conflict or working-hours check is made.
   */
  function UpdateAppointment(store: map<int, Appointment>, id: int, c: UpdateCommand, now: int): (r: Option<Appointment>)
    ensures r.None? <==> id !in store
    ensures r.Some? ==> && r.value.date == c.date.GetOr(store[id].date)
                        && r.value.duration == c.duration.GetOr(store[id].duration)
                        && r.value.updatedAt == now
    ensures r.Some? ==> r.value.reasonForVisit == (if IsNullOrEmpty(c.reasonForVisit) then store[id].reasonForVisit else c.reasonForVisit)
    ensures r.Some? ==> r.value.notes == (if IsNullOrEmpty(c.notes) then store[id].notes else c.notes)
    ensures r.Some? ==> r.value.(date := store[id].date, duration := store[id].duration, reasonForVisit := store[id].reasonForVisit,
                                 notes := store[id].notes, updatedAt := store[id].updatedAt) == store[id]
  {
    if id !in store then None
    else
      var a := store[id];
      Some(a.(date := c.date.GetOr(a.date),
              duration := c.duration.GetOr(a.duration),
              reasonForVisit := if IsNullOrEmpty(c.reasonForVisit) then a.reasonForVisit else c.reasonForVisit,
              notes := if IsNullOrEmpty(c.notes) then a.notes else c.notes,
              updatedAt := now))
  }

  /**
   * The handler moves an appointment onto a slot another live appointment of the same doctor
   * holds, which the business service refuses.
   */
  lemma HandlerUpdateCanDoubleBook(a: Appointment, b: Appointment)
    requires a.id == 1 && b.id == 2 && a.doctorId == b.doctorId
    requires a.status == Scheduled && b.status == Scheduled
    requires a.duration == b.duration == Minutes(30) && b.date == a.date + Hours(1)
    ensures Repo.NoDoubleBooking(map[1 := a, 2 := b])
    ensures var c := UpdateCommand(Some(b.date), None, None, None, None, None, None);
            var r := UpdateAppointment(map[1 := a, 2 := b], 1, c, 0);
            r.Some? && !Repo.NoDoubleBooking(map[1 := r.value, 2 := b])
    ensures Service.UpdateAppointment(map[1 := a, 2 := b], 1, Service.AppointmentChanges(Some(b.date), None, None, None, None, None, None), 0).Failure?
  {
    var s := map[1 := a, 2 := b];
    var x := UpdateAppointment(s, 1, UpdateCommand(Some(b.date), None, None, None, None, None, None), 0).value;
    assert Repo.Clash(map[1 := x, 2 := b][1], map[1 := x, 2 := b][2]);
    assert !Repo.Excluded(s[2], Some(1)) && Repo.Blocks(s[2], a.doctorId, b.date, a.duration);
  }

  /** An empty reason or note cannot clear the stored one, where the business service writes it. */
  lemma EmptyTextKeepsOld(store: map<int, Appointment>, id: int, now: int)
    requires id in store
    ensures var c := UpdateCommand(None, None, None, Some(""), Some(""), None, None);
            UpdateAppointment(store, id, c, now).value == store[id].(updatedAt := now)
    ensures var c := Service.AppointmentChanges(None, None, None, Some(""), Some(""), None, None);
            Service.UpdateAppointment(store, id, c, now).value.value.reasonForVisit == Some("")
  {
  }

  /**
   * `CancelAppointmentCommandHandler.Handle`: `None` (the handler's `false`) for an unknown or
   * already cancelled appointment; otherwise it becomes cancelled with the reason, with no notice
   * period and whatever its other status.
   */
  function CancelAppointment(store: map<int, Appointment>, id: int, reason: string, now: int): (r: Option<Appointment>)
    ensures r.None? <==> id !in store || store[id].status == Cancelled
    ensures r.Some? ==> && r.value.status == Cancelled
                        && r.value.cancellationReason == Some(reason)
                        && r.value.updatedAt == now
                        && r.value.(status := store[id].status, cancellationReason := store[id].cancellationReason,
                                    updatedAt := store[id].updatedAt) == store[id]
  {
    if id !in store || store[id].status == Cancelled then None
    else Some(store[id].(status := Cancelled, cancellationReason := Some(reason), updatedAt := now))
  }

  /** A second cancel is refused and, since nothing is written, the first reason stays. */
  lemma CancelTwiceIsNoop(store: map<int, Appointment>, id: int, reason: string, reason': string, now: int, later: int)
    requires CancelAppointment(store, id, reason, now).Some?
    ensures var s' := store[id := CancelAppointment(store, id, reason, now).value];
            CancelAppointment(s', id, reason', later).None? && s'[id].cancellationReason == Some(reason)
  {
  }

  /**
   * The handler cancels an appointment that has already started, and a completed one; the
   * business service refuses the first for want of notice and the entity refuses the second.
   */
  lemma HandlerCancelHasNoNotice(store: map<int, Appointment>, id: int, reason: string, now: int)
    requires id in store && store[id].date <= now
    requires store[id].status == Completed
    ensures CancelAppointment(store, id, reason, now).Some?
    ensures Service.CancelAppointment(store, id, reason, now).Failure?
    ensures AppointmentEntity.Cancel(store[id], reason, now).Failure?
  {
  }

  /**
   * `CheckAvailabilityQueryHandler.Handle`: available means no conflict for that many minutes. The
   * handler asks the Domain `IAppointmentRepository`, whose implementation is not part of this model;
   * the conflict test used here is the Infrastructure repository's `HasConflictAsync`.
   */
  function CheckAvailability(store: map<int, Appointment>, doctorId: int, date: int, durationMinutes: int): (r: bool)
    ensures r <==> forall k :: k in store ==> !Repo.Blocks(store[k], doctorId, date, Minutes(durationMinutes))
  {
    !Repo.HasConflict(store, doctorId, date, Minutes(durationMinutes), None)
  }

  /** A slot available for some minutes is available for fewer. */
  lemma AvailableForFewerMinutes(store: map<int, Appointment>, doctorId: int, date: int, m: int, fewer: int)
    requires fewer <= m && CheckAvailability(store, doctorId, date, m)
    ensures CheckAvailability(store, doctorId, date, fewer)
  {
    Repo.FreeForShorter(store, doctorId, date, Minutes(m), None);
  }

  /** Adding a cancelled appointment never makes a slot unavailable. */
  lemma CancelledNeverBlocks(store: map<int, Appointment>, k: int, a: Appointment, doctorId: int, date: int, m: int)
    requires k !in store && a.status == Cancelled
    ensures CheckAvailability(store[k := a], doctorId, date, m) == CheckAvailability(store, doctorId, date, m)
  {
    Repo.NonBlockingIrrelevant(store, k, a, doctorId, date, Minutes(m), None);
  }

  /** A slot in the past, or outside every schedule, is reported available when nothing overlaps it. */
  lemma PastSlotReportedAvailable(doctors: map<int, Doctor>, doctorId: int, date: int, now: int, m: int)
    requires date <= now
    ensures CheckAvailability(map[], doctorId, date, m)
    ensures !Service.CheckAvailability(map[], doctors, now, doctorId, date, Minutes(m))
  {
  }

  /**
   * `DeleteAppointmentCommandHandler.Handle`: the same removal as the business service, with no
   * status restriction: a live or a completed appointment is removed alike.
   */
  lemma DeleteHasNoStatusGuard(store: map<int, Appointment>, id: int, st: Status)
    requires id in store
    ensures var r := Service.DeleteAppointment(store[id := store[id].(status := st)], id);
            r.0 && r.1 == store - {id}
  {
  }
}
