/** The behaviour of the `Doctor` domain entity (Domain/Entities/Doctor.cs). */
module DoctorEntity {
  import opened Clock
  import opened Model
  import Text
  import DoctorScheduleEntity

  /** `GetFullName`. */
  function FullName(d: Doctor): (r: string)
    ensures |r| == |d.firstName| + 1 + |d.lastName|
    ensures r[..|d.firstName|] == d.firstName && r[|d.firstName|] == ' ' && r[|d.firstName| + 1..] == d.lastName
  {
    Text.FullName(d.firstName, d.lastName)
  }

  /** `GetDisplayName`: the full name with the title in front. */
  function DisplayName(d: Doctor): (r: string)
    ensures |r| == 4 + |d.firstName| + 1 + |d.lastName|
    ensures r[..4] == "Dr. " && r[4..] == FullName(d)
  {
    "Dr. " + FullName(d)
  }

  /** `IsAvailableOnDay`: some available schedule is for that weekday. */
  function IsAvailableOnDay(d: Doctor, day: Weekday): (r: bool)
    ensures r <==> exists i :: 0 <= i < |d.schedules| && d.schedules[i].day == day && DoctorScheduleEntity.IsWorkingDay(d.schedules[i])
  {
    exists i :: 0 <= i < |d.schedules| && d.schedules[i].day == day && d.schedules[i].isAvailable
  }

  /** A doctor who has any schedule admitting an appointment is available on that schedule's day. */
  lemma SchedulableDayIsAvailable(d: Doctor, i: int, start: int, duration: int)
    requires 0 <= i < |d.schedules|
    requires DoctorScheduleEntity.CanScheduleAppointment(d.schedules[i], start, duration)
    ensures IsAvailableOnDay(d, d.schedules[i].day)
  {
  }
}
