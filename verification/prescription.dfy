/** The behaviour of the `Prescription` domain entity (Domain/Entities/Prescription.cs). */
module PrescriptionEntity {
  import opened Clock

  datatype PrescriptionStatus = Active | Completed | Cancelled

  datatype Prescription = Prescription(
    id: int,
    patientId: int,
    doctorId: int,
    medicationName: string,
    startDate: int,
    endDate: int,
    status: PrescriptionStatus,
    updatedAt: int)

  /** `IsActive`: still marked active and not expired. */
  function IsActive(p: Prescription, now: int): (r: bool)
    ensures r <==> p.status == Active && !IsExpired(p, now)
  {
    p.status == Active && p.endDate >= now
  }

  /** `IsExpired`: the end date has passed; from then on the prescription stays expired. */
  function IsExpired(p: Prescription, now: int): (r: bool)
    ensures r <==> now > p.endDate
  {
    p.endDate < now
  }

  /** Expiry is permanent: an expired prescription is expired, and not active, at every later time. */
  lemma ExpiryIsPermanent(p: Prescription, now: int, later: int)
    requires now <= later && IsExpired(p, now)
    ensures IsExpired(p, later) && !IsActive(p, later)
  {
  }

  /** An active prescription is never expired, whatever its status would suggest otherwise. */
  lemma ActiveIsNotExpired(p: Prescription, now: int)
    ensures IsActive(p, now) ==> !IsExpired(p, now)
    ensures p.status == Active ==> (IsActive(p, now) <==> !IsExpired(p, now))
  {
  }

  /** `GetRemainingDays`: zero once expired, otherwise the whole days left, the fraction dropped. */
  function RemainingDays(p: Prescription, now: int): (r: int)
    ensures r >= 0
    ensures IsExpired(p, now) ==> r == 0
    ensures !IsExpired(p, now) ==> r * TicksPerDay <= p.endDate - now < (r + 1) * TicksPerDay
  {
    if IsExpired(p, now) then 0 else (p.endDate - now) / TicksPerDay
  }

  /** Remaining days shrink as time passes. */
  lemma RemainingDaysDecrease(p: Prescription, now: int, later: int)
    requires now <= later
    ensures RemainingDays(p, later) <= RemainingDays(p, now)
  {
  }

  /** `Complete`: no guard; only the status and the update time change. */
  function Complete(p: Prescription, now: int): (r: Prescription)
    ensures r.status == Completed && r.updatedAt == now
    ensures r.(status := p.status, updatedAt := p.updatedAt) == p
  {
    p.(status := Completed, updatedAt := now)
  }

  /** `Cancel(reason)`: no guard; the reason is not stored. */
  function Cancel(p: Prescription, reason: string, now: int): (r: Prescription)
    ensures r.status == Cancelled && r.updatedAt == now
    ensures r.(status := p.status, updatedAt := p.updatedAt) == p
  {
    p.(status := Cancelled, updatedAt := now)
  }

  /** Completing or cancelling a prescription ends its active state, at any later time. */
  lemma ClosedIsNeverActive(p: Prescription, reason: string, now: int, t: int)
    ensures !IsActive(Complete(p, now), t)
    ensures !IsActive(Cancel(p, reason, now), t)
  {
  }
}
