/** The behaviour of the `DoctorSchedule` domain entity (Domain/Entities/DoctorSchedule.cs). */
module DoctorScheduleEntity {
  import opened Wrappers
  import opened Intervals
  import opened Model

  /** Both break bounds are present. */
  predicate HasFullBreak(s: Schedule)
  {
    s.breakStart.Some? && s.breakEnd.Some?
  }

  /** `IsWorkingDay`. */
  predicate IsWorkingDay(s: Schedule)
  {
    s.isAvailable
  }

  /** `GetWorkingHours`: the window length, less the break when both bounds are present. */
  function WorkingHours(s: Schedule): (r: int)
    ensures HasFullBreak(s) ==> r + (s.breakEnd.value - s.breakStart.value) == s.endTime - s.startTime
    ensures !HasFullBreak(s) ==> r == s.endTime - s.startTime
  {
    var total := s.endTime - s.startTime;
    if HasFullBreak(s) then total - (s.breakEnd.value - s.breakStart.value) else total
  }

  /** A break that lies inside the window leaves working hours between zero and the window length. */
  lemma WorkingHoursBounds(s: Schedule)
    requires s.startTime <= s.endTime
    requires HasFullBreak(s) ==> s.startTime <= s.breakStart.value <= s.breakEnd.value <= s.endTime
    ensures 0 <= WorkingHours(s) <= s.endTime - s.startTime
  {
  }

  /** `IsWithinWorkingHours`: inside the closed window and outside `[breakStart, breakEnd)`. */
  function IsWithinWorkingHours(s: Schedule, time: int): (r: bool)
    ensures r <==> s.isAvailable && s.startTime <= time <= s.endTime
                   && !(HasFullBreak(s) && s.breakStart.value <= time < s.breakEnd.value)
  {
    if !s.isAvailable then false
    else if time < s.startTime || time > s.endTime then false
    else if HasFullBreak(s) then !(time >= s.breakStart.value && time < s.breakEnd.value)
    else true
  }

  /**
   * The closing instant is a working instant of an available day whose break, if it has both
   * bounds, ends by closing time; a schedule that is not available has no working instant.
   */
  lemma ClosingTimeIsWorking(s: Schedule)
    requires s.startTime <= s.endTime
    requires HasFullBreak(s) ==> s.breakEnd.value <= s.endTime
    ensures IsWithinWorkingHours(s, s.endTime) <==> IsWorkingDay(s)
  {
  }

  /** A working day is exactly a schedule with some working instant, for a break inside the window. */
  lemma WorkingDayIffSomeWorkingInstant(s: Schedule)
    requires s.startTime <= s.endTime
    requires HasFullBreak(s) ==> s.breakEnd.value <= s.endTime
    ensures IsWorkingDay(s) <==> exists t :: IsWithinWorkingHours(s, t)
  {
    if IsWorkingDay(s) {
      ClosingTimeIsWorking(s);
    }
  }

  /** `CanScheduleAppointment`: the appointment fits the window and misses a break with both bounds. */
  function CanScheduleAppointment(s: Schedule, start: int, duration: int): (r: bool)
    ensures r ==> s.isAvailable && s.startTime <= start && start + duration <= s.endTime
  {
    if !s.isAvailable then false
    else
      var end := start + duration;
      if start < s.startTime || end > s.endTime then false
      else if HasFullBreak(s) then !(start < s.breakEnd.value && end > s.breakStart.value)
      else true
  }

  /** With both break bounds the break test is exactly the interval overlap test. */
  lemma CanScheduleIffNoBreakOverlap(s: Schedule, start: int, duration: int)
    requires HasFullBreak(s)
    ensures CanScheduleAppointment(s, start, duration) <==>
      s.isAvailable && s.startTime <= start && start + duration <= s.endTime
      && !Overlaps(start, duration, s.breakStart.value, s.breakEnd.value - s.breakStart.value)
  {
  }

  /** A break with only one bound is ignored. */
  lemma HalfBreakIgnored(s: Schedule, start: int, duration: int)
    requires !HasFullBreak(s)
    ensures CanScheduleAppointment(s, start, duration) == CanScheduleAppointment(s.(breakStart := None, breakEnd := None), start, duration)
  {
  }

  /** A slot that fits still fits when shortened. */
  lemma CanScheduleShorter(s: Schedule, start: int, duration: int, shorter: int)
    requires 0 <= shorter <= duration
    requires CanScheduleAppointment(s, start, duration)
    ensures CanScheduleAppointment(s, start, shorter)
  {
  }

  /** The start of a schedulable non-empty appointment is a working instant. */
  lemma SchedulableStartIsWorkingTime(s: Schedule, start: int, duration: int)
    requires duration > 0
    requires CanScheduleAppointment(s, start, duration)
    ensures IsWithinWorkingHours(s, start)
  {
  }
}
