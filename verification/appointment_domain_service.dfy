/**
 * The scheduling, pricing and cancellation rules of
 * Business/Domain/Services/AppointmentDomainService.cs. The clock is the parameter `now`; the
 * appointment table is the store keyed by id and the doctor table a map from id to doctor.
 */
module AppointmentDomainService {
  import opened Wrappers
  import opened Clock
  import opened Model
  import opened Text
  import Words
  import AppointmentRepository
  import DoctorScheduleEntity

  /**
   * The working-hours test of `CanScheduleAppointmentAsync` for one schedule: the right weekday,
   * available, inside the window, and clear of the break. With no break end the appointment must
   * finish by the break start, since comparing with a missing break end is false.
   */
  predicate FitsSchedule(s: Schedule, day: Weekday, timeOfDay: int, duration: int)
  {
    && s.day == day
    && s.isAvailable
    && timeOfDay >= s.startTime
    && timeOfDay + duration <= s.endTime
    && (|| s.breakStart.None?
        || (s.breakEnd.Some? && timeOfDay >= s.breakEnd.value)
        || timeOfDay + duration <= s.breakStart.value)
  }

  /** Some schedule of the doctor admits the appointment at that instant. */
  predicate WithinWorkingHours(d: Doctor, date: int, duration: int)
  {
    exists i :: 0 <= i < |d.schedules| && FitsSchedule(d.schedules[i], DayOfWeek(date), TimeOfDay(date), duration)
  }

  /**
   * `CanScheduleAppointmentAsync`: the slot is in the future, no live appointment of the doctor
   * overlaps it, the doctor exists and has schedules, and one of them admits it.
   */
  function CanSchedule(store: map<int, Appointment>, doctors: map<int, Doctor>, now: int, doctorId: int, date: int, duration: int): (r: bool)
    ensures r ==> date > now
    ensures r ==> !AppointmentRepository.HasConflict(store, doctorId, date, duration, None)
    ensures r ==> doctorId in doctors && WithinWorkingHours(doctors[doctorId], date, duration)
    ensures (&& date > now
             && !AppointmentRepository.HasConflict(store, doctorId, date, duration, None)
             && doctorId in doctors
             && WithinWorkingHours(doctors[doctorId], date, duration)) ==> r
  {
    if date <= now then false
    else if AppointmentRepository.HasConflict(store, doctorId, date, duration, None) then false
    else if doctorId !in doctors || |doctors[doctorId].schedules| == 0 then false
    else WithinWorkingHours(doctors[doctorId], date, duration)
  }

  /**
   * For a schedule whose break has both bounds, or none, the service's working-hours test and the
   * schedule entity's `CanScheduleAppointment` agree.
   */
  lemma FitsScheduleAgreesWithEntity(s: Schedule, timeOfDay: int, duration: int)
    requires s.breakStart.Some? == s.breakEnd.Some?
    ensures FitsSchedule(s, s.day, timeOfDay, duration) <==> DoctorScheduleEntity.CanScheduleAppointment(s, timeOfDay, duration)
  {
  }

  /** With only a break start, the service is the stricter of the two: the entity ignores such a break. */
  lemma FitsScheduleStricterOnHalfBreak(s: Schedule, timeOfDay: int, duration: int)
    requires s.breakStart.Some? && s.breakEnd.None?
    ensures FitsSchedule(s, s.day, timeOfDay, duration) ==> DoctorScheduleEntity.CanScheduleAppointment(s, timeOfDay, duration)
    ensures timeOfDay + duration > s.breakStart.value ==> !FitsSchedule(s, s.day, timeOfDay, duration)
  {
  }

  /** A schedulable slot keeps being schedulable when a cancelled appointment is added or removed. */
  lemma CanScheduleIgnoresCancelled(store: map<int, Appointment>, doctors: map<int, Doctor>, now: int, doctorId: int, date: int, duration: int, k: int, a: Appointment)
    requires k !in store && a.status == Cancelled
    ensures CanSchedule(store[k := a], doctors, now, doctorId, date, duration) == CanSchedule(store, doctors, now, doctorId, date, duration)
  {
    AppointmentRepository.NonBlockingIrrelevant(store, k, a, doctorId, date, duration, None);
  }

  /** The cent count nearest to `100 * x`, ties going to the even count (`Math.Round(x, 2)`). */
  function RoundCents(x: real): (n: int)
    ensures (n as real) - 0.5 <= 100.0 * x <= (n as real) + 0.5
    ensures (100.0 * x == (n as real) - 0.5 || 100.0 * x == (n as real) + 0.5) ==> n % 2 == 0
  {
    var y := 100.0 * x;
    var f := y.Floor;
    var frac := y - f as real;
    if frac < 0.5 then f
    else if frac > 0.5 then f + 1
    else if f % 2 == 0 then f
    else f + 1
  }

  /** The rounding rule has only one answer: any cent count meeting it is `RoundCents`. */
  lemma RoundCentsUnique(x: real, n: int)
    requires (n as real) - 0.5 <= 100.0 * x <= (n as real) + 0.5
    requires (100.0 * x == (n as real) - 0.5 || 100.0 * x == (n as real) + 0.5) ==> n % 2 == 0
    ensures n == RoundCents(x)
  {
  }

  /** Rounding never reverses an order. */
  lemma RoundCentsMonotone(x: real, y: real)
    requires x <= y
    ensures RoundCents(x) <= RoundCents(y)
  {
  }

  /** `Math.Round(x, 2)` with midpoint rounding to even. */
  function Round2(x: real): (r: real)
    ensures r * 100.0 == RoundCents(x) as real
    ensures -0.005 <= r - x <= 0.005
  {
    RoundCents(x) as real / 100.0
  }

  /** Fee multiplier by the specialization, already lower-cased; any other specialization pays 1.2. */
  function SpecializationMultiplier(specialization: string): (m: real)
    ensures 1.0 <= m <= 1.5
    ensures m == 1.5 <==> specialization == "cardiology"
    ensures m == 1.4 <==> specialization == "neurology"
    ensures m == 1.3 <==> specialization == "orthopedics"
    ensures m == 1.1 <==> specialization == "pediatrics"
    ensures m == 1.0 <==> specialization == "general"
    ensures m == 1.2 <==> specialization !in {"cardiology", "neurology", "orthopedics", "pediatrics", "general"}
  {
    match specialization
    case "cardiology" => 1.5
    case "neurology" => 1.4
    case "orthopedics" => 1.3
    case "pediatrics" => 1.1
    case "general" => 1.0
    case _ => 1.2
  }

  /**
   * Fee multiplier by duration: up to 15, 30, 60 and 90 minutes, then beyond. Each bucket
   * includes its upper bound, so one tick past 15 minutes already pays 1.0.
   */
  function DurationMultiplier(duration: int): (m: real)
    ensures 0.5 <= m <= 2.5
    ensures m == 0.5 <==> duration <= Minutes(15)
    ensures m == 1.0 <==> Minutes(15) < duration <= Minutes(30)
    ensures m == 1.5 <==> Minutes(30) < duration <= Minutes(60)
    ensures m == 2.0 <==> Minutes(60) < duration <= Minutes(90)
    ensures m == 2.5 <==> Minutes(90) < duration
  {
    if duration <= Minutes(15) then 0.5
    else if duration <= Minutes(30) then 1.0
    else if duration <= Minutes(60) then 1.5
    else if duration <= Minutes(90) then 2.0
    else 2.5
  }

  /** The bucket edges: 15 minutes pays 0.5 and one tick more pays 1.0; 90 minutes pays 2.0 and one tick more 2.5. */
  lemma DurationBucketEdges()
    ensures DurationMultiplier(Minutes(15)) == 0.5 && DurationMultiplier(Minutes(15) + 1) == 1.0
    ensures DurationMultiplier(Minutes(30)) == 1.0 && DurationMultiplier(Minutes(30) + 1) == 1.5
    ensures DurationMultiplier(Minutes(60)) == 1.5 && DurationMultiplier(Minutes(60) + 1) == 2.0
    ensures DurationMultiplier(Minutes(90)) == 2.0 && DurationMultiplier(Minutes(90) + 1) == 2.5
  {
  }

  /** Longer appointments never get a smaller duration multiplier. */
  lemma DurationMultiplierMonotone(d1: int, d2: int)
    requires d1 <= d2
    ensures DurationMultiplier(d1) <= DurationMultiplier(d2)
  {
  }

  /** Fee multiplier by the appointment type, already lower-cased; unknown types pay the regular rate. */
  function TypeMultiplier(appointmentType: string): (m: real)
    ensures 0.8 <= m <= 2.0
    ensures m == 2.0 <==> appointmentType == "emergency"
    ensures m == 0.8 <==> appointmentType == "follow-up"
    ensures m == 1.2 <==> appointmentType == "consultation"
    ensures m == 1.0 <==> appointmentType !in {"emergency", "follow-up", "consultation"}
  {
    match appointmentType
    case "emergency" => 2.0
    case "follow-up" => 0.8
    case "consultation" => 1.2
    case "regular" => 1.0
    case _ => 1.0
  }

  /** The unrounded product of the doctor's base fee and the three multipliers. */
  function ExactFee(d: Doctor, duration: int, appointmentType: string): real
  {
    FeeProduct(d.consultationFee, SpecializationMultiplier(Lower(d.specialization)), DurationMultiplier(duration), TypeMultiplier(Lower(appointmentType)))
  }

  function FeeProduct(base: real, specialization: real, duration: real, appointmentType: real): real
  {
    base * specialization * duration * appointmentType
  }

  /** With non-negative factors, a larger duration multiplier never gives a smaller product. */
  lemma FeeProductMonotone(b: real, s: real, x: real, y: real, t: real)
    requires b >= 0.0 && s >= 0.0 && t >= 0.0 && x <= y
    ensures FeeProduct(b, s, x, t) <= FeeProduct(b, s, y, t)
  {
    var bs := b * s;
    assert bs >= 0.0;
    assert bs * x <= bs * y;
  }

  /** `CalculateConsultationFee`: the exact fee rounded to whole cents, ties to even. */
  function CalculateConsultationFee(d: Doctor, duration: int, appointmentType: string): (fee: real)
    ensures fee * 100.0 == RoundCents(ExactFee(d, duration, appointmentType)) as real
    ensures -0.005 <= fee - ExactFee(d, duration, appointmentType) <= 0.005
  {
    Round2(ExactFee(d, duration, appointmentType))
  }

  /** With a non-negative base fee, a longer appointment never costs less. */
  lemma FeeMonotoneInDuration(d: Doctor, d1: int, d2: int, appointmentType: string)
    requires d.consultationFee >= 0.0
    requires d1 <= d2
    ensures CalculateConsultationFee(d, d1, appointmentType) <= CalculateConsultationFee(d, d2, appointmentType)
  {
    DurationMultiplierMonotone(d1, d2);
    FeeProductMonotone(d.consultationFee, SpecializationMultiplier(Lower(d.specialization)),
      DurationMultiplier(d1), DurationMultiplier(d2), TypeMultiplier(Lower(appointmentType)));
    RoundCentsMonotone(ExactFee(d, d1, appointmentType), ExactFee(d, d2, appointmentType));
  }

  /** Specialization and type are matched without regard to letter case. */
  lemma FeeIgnoresCase(d: Doctor, duration: int, appointmentType: string)
    ensures CalculateConsultationFee(d.(specialization := Lower(d.specialization)), duration, Lower(appointmentType))
         == CalculateConsultationFee(d, duration, appointmentType)
  {
    LowerIdempotent(d.specialization);
    LowerIdempotent(appointmentType);
    assert ExactFee(d.(specialization := Lower(d.specialization)), duration, Lower(appointmentType)) == ExactFee(d, duration, appointmentType);
  }

  /** Rounding `x` gives `v` when `n` cents meet the rounding rule for `x` and `v` is `n` cents. */
  lemma RoundingExample(x: real, n: int, v: real)
    requires (n as real) - 0.5 <= 100.0 * x <= (n as real) + 0.5
    requires (100.0 * x == (n as real) - 0.5 || 100.0 * x == (n as real) + 0.5) ==> n % 2 == 0
    requires v * 100.0 == n as real
    ensures Round2(x) == v
  {
    RoundCentsUnique(x, n);
  }

  lemma CardiologyRate() ensures SpecializationMultiplier(Lower("Cardiology")) == 1.5 { Words.LowerCardiology(); }
  lemma GeneralRate() ensures SpecializationMultiplier(Lower("General")) == 1.0 { Words.LowerGeneral(); }
  lemma RegularRate() ensures TypeMultiplier(Lower("Regular")) == 1.0 { Words.LowerRegular(); }
  lemma EmergencyRate() ensures TypeMultiplier(Lower("Emergency")) == 2.0 { Words.LowerEmergency(); }

  /** A half-hour regular cardiology visit at base fee 100 costs 150. */
  lemma CardiologyFeeExample(d: Doctor)
    requires d.consultationFee == 100.0 && d.specialization == "Cardiology"
    ensures CalculateConsultationFee(d, Minutes(30), "Regular") == 150.0
  {
    CardiologyRate();
    RegularRate();
    assert ExactFee(d, Minutes(30), "Regular") == FeeProduct(100.0, 1.5, 1.0, 1.0) == 150.0;
    RoundingExample(150.0, 15000, 150.0);
  }

  /** The emergency rate doubles the fee of the same visit. */
  lemma EmergencyFeeExample(d: Doctor)
    requires d.consultationFee == 100.0 && d.specialization == "Cardiology"
    ensures CalculateConsultationFee(d, Minutes(30), "Emergency") == 300.0
  {
    CardiologyRate();
    EmergencyRate();
    assert ExactFee(d, Minutes(30), "Emergency") == FeeProduct(100.0, 1.5, 1.0, 2.0) == 300.0;
    RoundingExample(300.0, 30000, 300.0);
  }

  /** A fee of exactly half a cent above 0.50 rounds down to the even cent. */
  lemma TieFeeExample(g: Doctor)
    requires g.consultationFee == 1.01 && g.specialization == "General"
    ensures CalculateConsultationFee(g, Minutes(15), "Regular") == 0.50
  {
    assert ExactFee(g, Minutes(15), "Regular") == 0.505 by {
      GeneralRate();
      RegularRate();
      assert FeeProduct(1.01, 1.0, 0.5, 1.0) == 0.505;
    }
    RoundingExample(0.505, 50, 0.50);
  }

  /** The reason for visit mentions an emergency, in any letter case. */
  predicate IsEmergencyReason(a: Appointment)
  {
    a.reasonForVisit.Some? && Contains(Lower(a.reasonForVisit.value), "emergency")
  }

  /** The notice an appointment needs: 2 hours for emergencies, 24 hours otherwise. */
  function NoticeRequired(a: Appointment): int
  {
    if IsEmergencyReason(a) then Hours(2) else Hours(24)
  }

  /** `CanCancelAppointment`: only future appointments, and only with the required notice. */
  function CanCancel(a: Appointment, cancellationTime: int): (r: bool)
    ensures r ==> a.date > cancellationTime
    ensures r <==> a.date - cancellationTime >= NoticeRequired(a)
  {
    if a.date <= cancellationTime then false
    else if IsEmergencyReason(a) then a.date - cancellationTime >= Hours(2)
    else a.date - cancellationTime >= Hours(24)
  }

  /** Asking earlier never turns a permitted cancellation into a refused one. */
  lemma CanCancelEarlier(a: Appointment, t1: int, t2: int)
    requires t1 <= t2 && CanCancel(a, t2)
    ensures CanCancel(a, t1)
  {
  }

  /** The status plays no part: a completed or already cancelled appointment passes the same test. */
  lemma CanCancelIgnoresStatus(a: Appointment, st: Status, t: int)
    ensures CanCancel(a.(status := st), t) == CanCancel(a, t)
  {
  }

  /** Three hours' notice suffices when the reason mentions an emergency, in any letter case. */
  lemma EmergencyCancelExample(a: Appointment, t: int)
    requires a.date == t + Hours(3) && a.reasonForVisit == Some("EMERGENCY")
    ensures CanCancel(a, t)
  {
    var e := Lower("EMERGENCY");
    Words.LowerEmergencyCapitals();
    assert OccursAt(e, "emergency", 0);
    ContainsIff(e, "emergency");
  }

  /** Without an emergency reason, three hours' notice is refused and 24 hours are needed exactly. */
  lemma RoutineCancelExample(a: Appointment, t: int)
    requires a.reasonForVisit.None?
    ensures a.date == t + Hours(3) ==> !CanCancel(a, t)
    ensures a.date == t + Hours(24) ==> CanCancel(a, t)
    ensures a.date == t + Hours(24) - 1 ==> !CanCancel(a, t)
  {
  }

  /** `IsDoctorAvailableForEmergencyAsync`: the two hours from the requested time are free. */
  function AvailableForEmergency(store: map<int, Appointment>, doctorId: int, requestedTime: int): (r: bool)
    ensures r <==> !AppointmentRepository.HasConflict(store, doctorId, requestedTime, Hours(2), None)
    ensures r ==> forall duration :: duration <= Hours(2) ==> !AppointmentRepository.HasConflict(store, doctorId, requestedTime, duration, None)
  {
    if AppointmentRepository.HasConflict(store, doctorId, requestedTime, Hours(2), None) then false
    else
      AppointmentRepository.FreeForShorter(store, doctorId, requestedTime, Hours(2), None);
      true
  }
}
