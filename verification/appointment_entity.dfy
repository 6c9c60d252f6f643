/** The behaviour of the `Appointment` domain entity (Domain/Entities/Appointment.cs). */
module AppointmentEntity {
  import opened Wrappers
  import opened Clock
  import opened Model

  /** `GetEndTime`: the instant the appointment is over. */
  function EndTime(a: Appointment): (r: int)
    ensures r - a.duration == a.date
    ensures a.duration > 0 ==> a.date < r
  {
    a.date + a.duration
  }

  /** `IsUpcoming`, with the clock as a parameter. */
  predicate IsUpcoming(a: Appointment, now: int)
  {
    a.date > now
  }

  /** `IsPast`, with the clock as a parameter. */
  predicate IsPast(a: Appointment, now: int)
  {
    a.date < now
  }

  /** At any instant an appointment is upcoming, past, or starting right now, and only one of these. */
  lemma UpcomingPastTrichotomy(a: Appointment, now: int)
    ensures !(IsUpcoming(a, now) && IsPast(a, now))
    ensures !IsUpcoming(a, now) && !IsPast(a, now) <==> a.date == now
  {
  }

  /** An upcoming appointment stays upcoming at every earlier instant. */
  lemma UpcomingEarlier(a: Appointment, now: int, earlier: int)
    requires IsUpcoming(a, now) && earlier <= now
    ensures IsUpcoming(a, earlier)
  {
  }

  /** Once past, an appointment stays past; an upcoming one becomes past once its start is behind. */
  lemma PastStaysPast(a: Appointment, now: int, later: int)
    requires now <= later
    ensures IsPast(a, now) ==> IsPast(a, later)
    ensures IsUpcoming(a, now) && a.date < later ==> IsPast(a, later)
  {
  }

  /** `CanBeCancelled`: only scheduled and confirmed appointments. */
  function CanBeCancelled(a: Appointment): (r: bool)
    ensures r <==> a.status == Scheduled || a.status == Confirmed
    ensures a.status == Cancelled || a.status == Completed || a.status == InProgress || a.status.Other? ==> !r
  {
    a.status == Scheduled || a.status == Confirmed
  }

  /**
   * `IsOnSameDay`: both instants fall on one calendar day, that is, they count the same number of
   * whole days.
   */
  function IsOnSameDay(a: Appointment, t: int): (r: bool)
    ensures r <==> a.date / TicksPerDay == t / TicksPerDay
  {
    DateOf(a.date) == DateOf(t)
  }

  /** Only the calendar date of the instant matters: any time on that date gives the same answer. */
  lemma SameDayIgnoresTimeOfDay(a: Appointment, t: int, x: int)
    requires 0 <= x < TicksPerDay
    ensures IsOnSameDay(a, DateOf(t) + x) == IsOnSameDay(a, t)
  {
    AtMidnightPlus(DateOf(t), x);
  }

  /** `Cancel(reason)`: throws unless cancellable; otherwise sets the status, reason and update time. */
  function Cancel(a: Appointment, reason: string, now: int): (r: Result<Appointment, Error>)
    ensures r.Success? <==> CanBeCancelled(a)
    ensures r.Failure? ==> r.error == Error(InvalidOperation, NotCancellable)
    ensures r.Success? ==> r.value.status == Cancelled && r.value.cancellationReason == Some(reason)
    ensures r.Success? ==> r.value.updatedAt == now
    ensures r.Success? ==> r.value.(status := a.status, cancellationReason := a.cancellationReason, updatedAt := a.updatedAt) == a
  {
    if !CanBeCancelled(a) then Failure(Error(InvalidOperation, NotCancellable))
    else Success(a.(status := Cancelled, cancellationReason := Some(reason), updatedAt := now))
  }

  /** `Confirm`: only a scheduled appointment becomes confirmed. */
  function Confirm(a: Appointment, now: int): (r: Result<Appointment, Error>)
    ensures r.Success? <==> a.status == Scheduled
    ensures r.Failure? ==> r.error == Error(InvalidOperation, NotScheduled)
    ensures r.Success? ==> r.value.status == Confirmed && r.value.updatedAt == now
    ensures r.Success? ==> r.value.(status := a.status, updatedAt := a.updatedAt) == a
  {
    if a.status != Scheduled then Failure(Error(InvalidOperation, NotScheduled))
    else Success(a.(status := Confirmed, updatedAt := now))
  }

  /** A cancelled appointment can be neither cancelled again nor confirmed. */
  lemma CancelIsFinal(a: Appointment, reason: string, reason': string, now: int, later: int)
    requires Cancel(a, reason, now).Success?
    ensures Cancel(Cancel(a, reason, now).value, reason', later).Failure?
    ensures Confirm(Cancel(a, reason, now).value, later).Failure?
  {
  }

  /** Confirming keeps the appointment cancellable, and it cannot be confirmed twice. */
  lemma ConfirmThenCancel(a: Appointment, reason: string, now: int, later: int)
    requires Confirm(a, now).Success?
    ensures Cancel(Confirm(a, now).value, reason, later).Success?
    ensures Confirm(Confirm(a, now).value, later).Failure?
  {
  }
}
