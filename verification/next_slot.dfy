/**
 * `GetNextAvailableSlotAsync` of Business/Domain/Services/AppointmentDomainService.cs: walk the
 * next 30 days from the date of `afterDate`; on each day take the first available schedule for
 * that weekday and try starts from the schedule start in 15-minute steps, jumping past the
 * break, until a start is free and in the future.
 *
 * The code as written treats a break with a start and no end as a break of length zero, while
 * `CanScheduleAppointmentAsync` in the same class treats it as "finish by the break start".
 * `ScanDayAsWritten` keeps the code's behaviour and `HalfBreakCounterexample` shows a slot it
 * returns that the scheduling check refuses; `ScanDay` stops the day instead, and
 * `NextSlotIsSchedulable` proves every slot it returns passes the scheduling check. On schedules
 * whose break has both bounds or none, the two scans agree (`NextSlotAgreesWithCode`).
 *
 * Each day loop is described in two parts: the list of starts it tries, in order
 * (`Candidates`), and the choice of the first of them that is free and in the future
 * (`FirstFree`). The loop over days is likewise the first day whose scan finds a slot
 * (`FirstDay`).
 */
module NextSlot {
  import opened Wrappers
  import opened Clock
  import opened Model
  import Seqs
  import AppointmentRepository
  import ADS = AppointmentDomainService

  const LookAheadDays := 30
  const Step := Minutes(15)

  /** The first available schedule for the weekday, as `FirstOrDefault` picks it. */
  function DaySchedule(d: Doctor, day: Weekday): (r: Option<Schedule>)
    ensures r.Some? ==> r.value in d.schedules && r.value.day == day && r.value.isAvailable
    ensures r.Some? ==> exists i :: 0 <= i < |d.schedules| && d.schedules[i] == r.value
                          && forall j :: 0 <= j < i ==> !(d.schedules[j].day == day && d.schedules[j].isAvailable)
    ensures r.None? ==> forall i :: 0 <= i < |d.schedules| ==> !(d.schedules[i].day == day && d.schedules[i].isAvailable)
  {
    Seqs.FirstMatch(d.schedules, (s: Schedule) => s.day == day && s.isAvailable)
  }

  /** `afterDate.Date.AddDays(k)`: midnight `k` days after the date of `afterDate`. */
  function CheckDate(afterDate: int, k: int): int
  {
    DateOf(afterDate) + Days(k)
  }

  /** A start the loop accepts: no live appointment of the doctor overlaps it and it lies in the future. */
  predicate FreeAt(store: map<int, Appointment>, doctorId: int, duration: int, now: int, t: int)
  {
    !AppointmentRepository.HasConflict(store, doctorId, t, duration, None) && t > now
  }

  /** The first of the starts `ts` that is free and in the future, if any. */
  function FirstFree(store: map<int, Appointment>, doctorId: int, duration: int, now: int, ts: seq<int>): Option<int>
  {
    if ts == [] then None
    else if FreeAt(store, doctorId, duration, now, ts[0]) then Some(ts[0])
    else FirstFree(store, doctorId, duration, now, ts[1..])
  }

  /**
   * `FirstFree` finds nothing exactly when no start is free; otherwise it returns a free start
   * and every start before it is taken or past.
   */
  lemma {:induction false} FirstFreeIsFirst(store: map<int, Appointment>, doctorId: int, duration: int, now: int, ts: seq<int>)
    ensures var r := FirstFree(store, doctorId, duration, now, ts);
      && (r.None? <==> forall i :: 0 <= i < |ts| ==> !FreeAt(store, doctorId, duration, now, ts[i]))
      && (r.Some? ==> exists i :: 0 <= i < |ts| && ts[i] == r.value && FreeAt(store, doctorId, duration, now, ts[i])
                                && forall j :: 0 <= j < i ==> !FreeAt(store, doctorId, duration, now, ts[j]))
  {
    if ts != [] && !FreeAt(store, doctorId, duration, now, ts[0]) {
      FirstFreeIsFirst(store, doctorId, duration, now, ts[1..]);
      assert forall i :: 1 <= i < |ts| ==> ts[i] == ts[1..][i - 1];
      var r := FirstFree(store, doctorId, duration, now, ts[1..]);
      if r.Some? {
        var i :| 0 <= i < |ts[1..]| && ts[1..][i] == r.value && FreeAt(store, doctorId, duration, now, ts[1..][i])
                 && forall j :: 0 <= j < i ==> !FreeAt(store, doctorId, duration, now, ts[1..][j]);
        assert ts[i + 1] == r.value;
      }
    }
  }

  /** The first free start of a list that begins with `t`: `t` itself when it is free, otherwise the first free start of the rest. */
  lemma FirstFreeCons(store: map<int, Appointment>, doctorId: int, duration: int, now: int, t: int, ts: seq<int>)
    ensures FirstFree(store, doctorId, duration, now, [t] + ts)
         == if FreeAt(store, doctorId, duration, now, t) then Some(t) else FirstFree(store, doctorId, duration, now, ts)
  {
    assert ([t] + ts)[1..] == ts;
  }

  /** The first free start is one of the starts given, and it is free. */
  lemma FirstFreeMember(store: map<int, Appointment>, doctorId: int, duration: int, now: int, ts: seq<int>)
    ensures var r := FirstFree(store, doctorId, duration, now, ts);
      r.Some? ==> r.value in ts && FreeAt(store, doctorId, duration, now, r.value)
  {
    FirstFreeIsFirst(store, doctorId, duration, now, ts);
    var r := FirstFree(store, doctorId, duration, now, ts);
    if r.Some? {
      var i :| 0 <= i < |ts| && ts[i] == r.value && FreeAt(store, doctorId, duration, now, ts[i]);
      assert ts[i] in ts;
    }
  }

  /** The first of the day results `f(k)`, `f(k + 1)`, …, `f(n - 1)` that holds a slot, if any. */
  function FirstDay(f: nat -> Option<int>, k: nat, n: nat): Option<int>
    decreases n - k
  {
    if k >= n then None
    else if f(k).Some? then f(k)
    else FirstDay(f, k + 1, n)
  }

  /** When day `j` is the first from `k` on with a slot, `FirstDay` returns that day's slot. */
  lemma {:induction false} FirstDayIsFirst(f: nat -> Option<int>, k: nat, n: nat, j: nat)
    requires k <= j < n && f(j).Some?
    requires forall i: nat :: k <= i < j ==> f(i).None?
    ensures FirstDay(f, k, n) == f(j)
    decreases j - k
  {
    if k < j {
      FirstDayIsFirst(f, k + 1, n, j);
    }
  }

  /** `FirstDay` finds nothing exactly when no day from `k` to `n - 1` has a slot. */
  lemma {:induction false} FirstDayNoneIff(f: nat -> Option<int>, k: nat, n: nat)
    ensures FirstDay(f, k, n).None? <==> forall i: nat :: k <= i < n ==> f(i).None?
    decreases n - k
  {
    if k < n {
      FirstDayNoneIff(f, k + 1, n);
    }
  }

  /** Schedule times are times of day: the window lies within one day. */
  predicate WellFormedSchedule(s: Schedule)
  {
    0 <= s.startTime && s.endTime <= TicksPerDay
  }

  // ---------------------------------------------------------------- the code as written

  /** The start `cur` runs into the break: the as-written test, a missing end counting as the start. */
  predicate InBreakAsWritten(s: Schedule, checkDate: int, cur: int, duration: int)
  {
    s.breakStart.Some?
    && cur < checkDate + s.breakEnd.GetOr(s.breakStart.value)
    && cur + duration > checkDate + s.breakStart.value
  }

  /**
   * The starts the as-written day loop tests for conflicts, from `cur` on: in 15-minute steps
   * while the appointment fits before the end of the window, jumping to the break end whenever
   * a start runs into the break.
   */
  function CandidatesAsWritten(s: Schedule, checkDate: int, duration: int, cur: int): (r: seq<int>)
    decreases checkDate + s.endTime - duration - cur
  {
    if cur + duration > checkDate + s.endTime then []
    else if InBreakAsWritten(s, checkDate, cur, duration) then
      CandidatesAsWritten(s, checkDate, duration, checkDate + s.breakEnd.GetOr(s.breakStart.value))
    else [cur] + CandidatesAsWritten(s, checkDate, duration, cur + Step)
  }

  /** The loop over one day's starts, as written. */
  function ScanDayAsWritten(store: map<int, Appointment>, doctorId: int, duration: int, now: int, checkDate: int, s: Schedule, cur: int): (r: Option<int>)
    ensures r.Some? ==> FreeAt(store, doctorId, duration, now, r.value)
    ensures r.Some? ==> cur <= r.value && r.value + duration <= checkDate + s.endTime
    ensures r.Some? ==> !InBreakAsWritten(s, checkDate, r.value, duration)
    decreases checkDate + s.endTime - duration - cur
  {
    if cur + duration > checkDate + s.endTime then None
    else if InBreakAsWritten(s, checkDate, cur, duration) then
      ScanDayAsWritten(store, doctorId, duration, now, checkDate, s, checkDate + s.breakEnd.GetOr(s.breakStart.value))
    else if !AppointmentRepository.HasConflict(store, doctorId, cur, duration, None) && cur > now then Some(cur)
    else ScanDayAsWritten(store, doctorId, duration, now, checkDate, s, cur + Step)
  }

  /** One day of the as-written scan: the first available schedule for the weekday, scanned from its start. */
  function ScanDateAsWritten(store: map<int, Appointment>, d: Doctor, doctorId: int, duration: int, now: int, checkDate: int): (r: Option<int>)
    ensures DaySchedule(d, DayOfWeek(checkDate)).None? ==> r.None?
    ensures r.Some? ==> FreeAt(store, doctorId, duration, now, r.value)
  {
    match DaySchedule(d, DayOfWeek(checkDate))
    case None => None
    case Some(s) => ScanDayAsWritten(store, doctorId, duration, now, checkDate, s, checkDate + s.startTime)
  }

  /** The loop over days, from `dayOffset` to the end of the 30-day window, with the as-written day scan. */
  function ScanDaysAsWritten(store: map<int, Appointment>, d: Doctor, doctorId: int, duration: int, afterDate: int, now: int, dayOffset: nat): (r: Option<int>)
    ensures r.Some? ==> FreeAt(store, doctorId, duration, now, r.value)
    decreases LookAheadDays - dayOffset
  {
    if dayOffset >= LookAheadDays then None
    else
      var r := ScanDateAsWritten(store, d, doctorId, duration, now, CheckDate(afterDate, dayOffset));
      if r.Some? then r else ScanDaysAsWritten(store, d, doctorId, duration, afterDate, now, dayOffset + 1)
  }

  /** `GetNextAvailableSlotAsync` as written: nothing for an unknown doctor or one without schedules. */
  function GetNextAvailableSlotAsWritten(store: map<int, Appointment>, doctors: map<int, Doctor>, doctorId: int, duration: int, afterDate: int, now: int): (r: Option<int>)
    ensures doctorId !in doctors || |doctors[doctorId].schedules| == 0 ==> r.None?
    ensures r.Some? ==> FreeAt(store, doctorId, duration, now, r.value)
  {
    if doctorId !in doctors || |doctors[doctorId].schedules| == 0 then None
    else ScanDaysAsWritten(store, doctors[doctorId], doctorId, duration, afterDate, now, 0)
  }

  /** Monday 11:30 to 17:00 with a break that starts at 12:00 and has no end. */
  const HalfBreakSchedule := Schedule(Monday, Hours(11) + Minutes(30), Hours(17), Some(Hours(12)), None, true)

  /** On the first Monday, the as-written day scan jumps from 11:30 past the zero-length break to 12:00. */
  lemma HalfBreakDayScan(now: int)
    requires now < Hours(12)
    ensures ScanDayAsWritten(map[], 1, Hours(1), now, 0, HalfBreakSchedule, HalfBreakSchedule.startTime) == Some(Hours(12))
  {
    var s := HalfBreakSchedule;
    assert InBreakAsWritten(s, 0, Hours(11) + Minutes(30), Hours(1));
    assert !InBreakAsWritten(s, 0, Hours(12), Hours(1));
    assert !AppointmentRepository.HasConflict(map[], 1, Hours(12), Hours(1), None);
    assert ScanDayAsWritten(map[], 1, Hours(1), now, 0, s, Hours(12)) == Some(Hours(12));
  }

  /** The half-break schedule is the doctor's Monday schedule. */
  lemma HalfBreakMonday(d: Doctor)
    requires d.schedules == [HalfBreakSchedule]
    ensures DaySchedule(d, Monday) == Some(HalfBreakSchedule)
  {
    assert d.schedules[0] == HalfBreakSchedule;
  }

  /** The as-written scan of the first Monday offers 12:00. */
  lemma HalfBreakDateScan(d: Doctor, now: int)
    requires d.schedules == [HalfBreakSchedule] && now < Hours(12)
    ensures ScanDateAsWritten(map[], d, 1, Hours(1), now, 0) == Some(Hours(12))
  {
    EpochIsMonday();
    HalfBreakMonday(d);
    HalfBreakDayScan(now);
  }

  /** The first day of the window from tick 0 is that Monday, so its as-written scan offers 12:00. */
  lemma HalfBreakFirstDay(d: Doctor, now: int)
    requires d.schedules == [HalfBreakSchedule] && now < Hours(12)
    ensures ScanDateAsWritten(map[], d, 1, Hours(1), now, CheckDate(0, 0)) == Some(Hours(12))
  {
    assert CheckDate(0, 0) == 0;
    HalfBreakDateScan(d, now);
  }

  /** Searching from tick 0, the as-written loop over days stops at its first day, a Monday, at 12:00. */
  lemma HalfBreakDaysScan(d: Doctor, now: int)
    requires d.schedules == [HalfBreakSchedule] && now < Hours(12)
    ensures ScanDaysAsWritten(map[], d, 1, Hours(1), 0, now, 0) == Some(Hours(12))
  {
    HalfBreakFirstDay(d, now);
    ScanDaysAsWrittenFirstFit(map[], d, 1, Hours(1), 0, now, 0, 0);
  }

  /** For a known doctor with schedules, the as-written search is the loop over days from the first day. */
  lemma NextSlotAsWrittenScansDays(store: map<int, Appointment>, doctors: map<int, Doctor>, doctorId: int, duration: int, afterDate: int, now: int)
    requires doctorId in doctors && |doctors[doctorId].schedules| > 0
    ensures GetNextAvailableSlotAsWritten(store, doctors, doctorId, duration, afterDate, now)
         == ScanDaysAsWritten(store, doctors[doctorId], doctorId, duration, afterDate, now, 0)
  {
  }

  /** The as-written scan offers 12:00 on the first Monday for a one-hour appointment, whenever it runs before then. */
  lemma HalfBreakOffered(d: Doctor, now: int)
    requires d.id == 1 && d.schedules == [HalfBreakSchedule] && now < Hours(12)
    ensures GetNextAvailableSlotAsWritten(map[], map[1 := d], 1, Hours(1), 0, now) == Some(Hours(12))
  {
    HalfBreakDaysScan(d, now);
    NextSlotAsWrittenScansDays(map[], map[1 := d], 1, Hours(1), 0, now);
  }

  /** The scheduling check refuses a one-hour appointment at 12:00 on that Monday under that schedule. */
  lemma HalfBreakRefused(d: Doctor, now: int)
    requires d.id == 1 && d.schedules == [HalfBreakSchedule]
    ensures !ADS.CanSchedule(map[], map[1 := d], now, 1, Hours(12), Hours(1))
  {
    EpochIsMonday();
    var s := HalfBreakSchedule;
    HalfBreakMonday(d);
    AtMidnightPlus(0, Hours(12));
    assert !ADS.FitsSchedule(s, DayOfWeek(Hours(12)), TimeOfDay(Hours(12)), Hours(1));
  }

  /**
   * Searching from the first Monday at any time before 12:00, the as-written scan offers 12:00
   * for a one-hour appointment, which the scheduling check refuses because the appointment would
   * not be over by the 12:00 break start.
   */
  lemma HalfBreakCounterexample(d: Doctor, now: int)
    requires d.id == 1 && d.schedules == [HalfBreakSchedule] && now < Hours(12)
    ensures GetNextAvailableSlotAsWritten(map[], map[1 := d], 1, Hours(1), 0, now) == Some(Hours(12))
    ensures !ADS.CanSchedule(map[], map[1 := d], now, 1, Hours(12), Hours(1))
  {
    HalfBreakOffered(d, now);
    HalfBreakRefused(d, now);
  }

  // ---------------------------------------------------------------- corrected

  /**
   * The corrected break test: with both bounds, skip starts that overlap the break; with only a
   * start, the appointment must be over by the break start, as the scheduling check demands.
   */
  predicate InBreak(s: Schedule, checkDate: int, cur: int, duration: int)
  {
    s.breakStart.Some? && s.breakEnd.Some?
    && cur < checkDate + s.breakEnd.value
    && cur + duration > checkDate + s.breakStart.value
  }

  /** Past an open-ended break start: no later start on this day can finish before the break. */
  predicate PastOpenBreak(s: Schedule, checkDate: int, cur: int, duration: int)
  {
    s.breakStart.Some? && s.breakEnd.None? && cur + duration > checkDate + s.breakStart.value
  }

  /**
   * The starts the corrected day loop tests, from `cur` on: as the as-written list, except that
   * the list ends at the first start that would run past an open-ended break start.
   */
  function Candidates(s: Schedule, checkDate: int, duration: int, cur: int): (r: seq<int>)
    decreases checkDate + s.endTime - duration - cur
  {
    if cur + duration > checkDate + s.endTime then []
    else if PastOpenBreak(s, checkDate, cur, duration) then []
    else if InBreak(s, checkDate, cur, duration) then Candidates(s, checkDate, duration, checkDate + s.breakEnd.value)
    else [cur] + Candidates(s, checkDate, duration, cur + Step)
  }

  /** The loop over one day's starts, corrected. */
  function ScanDay(store: map<int, Appointment>, doctorId: int, duration: int, now: int, checkDate: int, s: Schedule, cur: int): (r: Option<int>)
    ensures r.Some? ==> FreeAt(store, doctorId, duration, now, r.value)
    ensures r.Some? ==> cur <= r.value && r.value + duration <= checkDate + s.endTime
    ensures r.Some? ==> !InBreak(s, checkDate, r.value, duration) && !PastOpenBreak(s, checkDate, r.value, duration)
    decreases checkDate + s.endTime - duration - cur
  {
    if cur + duration > checkDate + s.endTime then None
    else if PastOpenBreak(s, checkDate, cur, duration) then None
    else if InBreak(s, checkDate, cur, duration) then
      ScanDay(store, doctorId, duration, now, checkDate, s, checkDate + s.breakEnd.value)
    else if !AppointmentRepository.HasConflict(store, doctorId, cur, duration, None) && cur > now then Some(cur)
    else ScanDay(store, doctorId, duration, now, checkDate, s, cur + Step)
  }

  /** One day of the corrected scan: the first available schedule for the weekday, scanned from its start. */
  function ScanDate(store: map<int, Appointment>, d: Doctor, doctorId: int, duration: int, now: int, checkDate: int): (r: Option<int>)
    ensures DaySchedule(d, DayOfWeek(checkDate)).None? ==> r.None?
    ensures r.Some? ==> FreeAt(store, doctorId, duration, now, r.value)
  {
    match DaySchedule(d, DayOfWeek(checkDate))
    case None => None
    case Some(s) => ScanDay(store, doctorId, duration, now, checkDate, s, checkDate + s.startTime)
  }

  /** A slot the corrected scan offers on a date lies inside that day's schedule window and clear of its break. */
  lemma ScanDateInWindow(store: map<int, Appointment>, d: Doctor, doctorId: int, duration: int, now: int, checkDate: int)
    ensures var r := ScanDate(store, d, doctorId, duration, now, checkDate);
      r.Some? ==> DaySchedule(d, DayOfWeek(checkDate)).Some?
                  && var s := DaySchedule(d, DayOfWeek(checkDate)).value;
                     checkDate + s.startTime <= r.value && r.value + duration <= checkDate + s.endTime
                     && !InBreak(s, checkDate, r.value, duration) && !PastOpenBreak(s, checkDate, r.value, duration)
  {
  }

  /** The loop over days, from `dayOffset` to the end of the 30-day window, with the corrected day scan. */
  function ScanDays(store: map<int, Appointment>, d: Doctor, doctorId: int, duration: int, afterDate: int, now: int, dayOffset: nat): (r: Option<int>)
    ensures r.Some? ==> FreeAt(store, doctorId, duration, now, r.value)
    decreases LookAheadDays - dayOffset
  {
    if dayOffset >= LookAheadDays then None
    else
      var r := ScanDate(store, d, doctorId, duration, now, CheckDate(afterDate, dayOffset));
      if r.Some? then r else ScanDays(store, d, doctorId, duration, afterDate, now, dayOffset + 1)
  }

  /** `GetNextAvailableSlotAsync`, corrected: nothing for an unknown doctor or one without schedules. */
  function GetNextAvailableSlot(store: map<int, Appointment>, doctors: map<int, Doctor>, doctorId: int, duration: int, afterDate: int, now: int): (r: Option<int>)
    ensures doctorId !in doctors || |doctors[doctorId].schedules| == 0 ==> r.None?
    ensures r.Some? ==> FreeAt(store, doctorId, duration, now, r.value)
  {
    if doctorId !in doctors || |doctors[doctorId].schedules| == 0 then None
    else ScanDays(store, doctors[doctorId], doctorId, duration, afterDate, now, 0)
  }

  // ---------------------------------------------------------------- properties

  /** Every start the corrected day loop tries lies in the window from `cur` and is clear of the break. */
  lemma {:induction false} CandidatesInWindow(s: Schedule, checkDate: int, duration: int, cur: int)
    ensures forall t :: t in Candidates(s, checkDate, duration, cur) ==>
              cur <= t && t + duration <= checkDate + s.endTime
              && !InBreak(s, checkDate, t, duration) && !PastOpenBreak(s, checkDate, t, duration)
    decreases checkDate + s.endTime - duration - cur
  {
    if cur + duration > checkDate + s.endTime {
    } else if PastOpenBreak(s, checkDate, cur, duration) {
    } else if InBreak(s, checkDate, cur, duration) {
      assert Candidates(s, checkDate, duration, cur) == Candidates(s, checkDate, duration, checkDate + s.breakEnd.value);
      CandidatesInWindow(s, checkDate, duration, checkDate + s.breakEnd.value);
    } else {
      CandidatesInWindow(s, checkDate, duration, cur + Step);
    }
  }

  /** The starts tried come in strictly increasing order. */
  lemma {:induction false} CandidatesIncreasing(s: Schedule, checkDate: int, duration: int, cur: int)
    ensures forall i, j :: 0 <= i < j < |Candidates(s, checkDate, duration, cur)| ==>
              Candidates(s, checkDate, duration, cur)[i] < Candidates(s, checkDate, duration, cur)[j]
    decreases checkDate + s.endTime - duration - cur
  {
    if cur + duration > checkDate + s.endTime {
    } else if PastOpenBreak(s, checkDate, cur, duration) {
    } else if InBreak(s, checkDate, cur, duration) {
      assert Candidates(s, checkDate, duration, cur) == Candidates(s, checkDate, duration, checkDate + s.breakEnd.value);
      CandidatesIncreasing(s, checkDate, duration, checkDate + s.breakEnd.value);
    } else {
      var rest := Candidates(s, checkDate, duration, cur + Step);
      CandidatesInWindow(s, checkDate, duration, cur + Step);
      CandidatesIncreasing(s, checkDate, duration, cur + Step);
      assert forall j :: 0 < j < |rest| + 1 ==> ([cur] + rest)[j] == rest[j - 1] && rest[j - 1] in rest;
    }
  }

  /** The first free start among those the corrected day loop tries is free, inside the window from `cur` and clear of the break. */
  lemma FirstCandidateSound(store: map<int, Appointment>, doctorId: int, duration: int, now: int, s: Schedule, checkDate: int, cur: int)
    ensures var r := FirstFree(store, doctorId, duration, now, Candidates(s, checkDate, duration, cur));
      r.Some? ==> FreeAt(store, doctorId, duration, now, r.value)
                  && cur <= r.value && r.value + duration <= checkDate + s.endTime
                  && !InBreak(s, checkDate, r.value, duration) && !PastOpenBreak(s, checkDate, r.value, duration)
  {
    FirstFreeMember(store, doctorId, duration, now, Candidates(s, checkDate, duration, cur));
    CandidatesInWindow(s, checkDate, duration, cur);
  }

  /** The as-written day loop returns the first start it tries that is free and in the future. */
  lemma {:induction false} ScanDayAsWrittenIsFirstFree(store: map<int, Appointment>, doctorId: int, duration: int, now: int, checkDate: int, s: Schedule, cur: int)
    ensures ScanDayAsWritten(store, doctorId, duration, now, checkDate, s, cur)
         == FirstFree(store, doctorId, duration, now, CandidatesAsWritten(s, checkDate, duration, cur))
    decreases checkDate + s.endTime - duration - cur
  {
    if cur + duration > checkDate + s.endTime {
    } else if InBreakAsWritten(s, checkDate, cur, duration) {
      ScanDayAsWrittenIsFirstFree(store, doctorId, duration, now, checkDate, s, checkDate + s.breakEnd.GetOr(s.breakStart.value));
    } else {
      ScanDayAsWrittenIsFirstFree(store, doctorId, duration, now, checkDate, s, cur + Step);
      FirstFreeCons(store, doctorId, duration, now, cur, CandidatesAsWritten(s, checkDate, duration, cur + Step));
    }
  }

  /** The corrected day loop returns the first start it tries that is free and in the future. */
  lemma {:induction false} ScanDayIsFirstFree(store: map<int, Appointment>, doctorId: int, duration: int, now: int, checkDate: int, s: Schedule, cur: int)
    ensures ScanDay(store, doctorId, duration, now, checkDate, s, cur)
         == FirstFree(store, doctorId, duration, now, Candidates(s, checkDate, duration, cur))
    decreases checkDate + s.endTime - duration - cur
  {
    if cur + duration > checkDate + s.endTime {
    } else if PastOpenBreak(s, checkDate, cur, duration) {
    } else if InBreak(s, checkDate, cur, duration) {
      var next := checkDate + s.breakEnd.value;
      assert ScanDay(store, doctorId, duration, now, checkDate, s, cur) == ScanDay(store, doctorId, duration, now, checkDate, s, next);
      assert Candidates(s, checkDate, duration, cur) == Candidates(s, checkDate, duration, next);
      ScanDayIsFirstFree(store, doctorId, duration, now, checkDate, s, next);
    } else {
      assert Candidates(s, checkDate, duration, cur) == [cur] + Candidates(s, checkDate, duration, cur + Step);
      ScanDayIsFirstFree(store, doctorId, duration, now, checkDate, s, cur + Step);
      FirstFreeCons(store, doctorId, duration, now, cur, Candidates(s, checkDate, duration, cur + Step));
    }
  }

  /** The as-written scan of day `k` of the window. */
  function DayResultsAsWritten(store: map<int, Appointment>, d: Doctor, doctorId: int, duration: int, afterDate: int, now: int): nat -> Option<int>
  {
    (k: nat) => ScanDateAsWritten(store, d, doctorId, duration, now, CheckDate(afterDate, k))
  }

  /** The as-written loop over days is `FirstDay` over the as-written scans of the window's days. */
  lemma {:induction false} ScanDaysAsWrittenIsFirstDay(store: map<int, Appointment>, d: Doctor, doctorId: int, duration: int, afterDate: int, now: int, dayOffset: nat)
    ensures ScanDaysAsWritten(store, d, doctorId, duration, afterDate, now, dayOffset) == FirstDay(DayResultsAsWritten(store, d, doctorId, duration, afterDate, now), dayOffset, LookAheadDays)
    decreases LookAheadDays - dayOffset
  {
    if dayOffset < LookAheadDays {
      var f := DayResultsAsWritten(store, d, doctorId, duration, afterDate, now);
      assert f(dayOffset) == ScanDateAsWritten(store, d, doctorId, duration, now, CheckDate(afterDate, dayOffset));
      ScanDaysAsWrittenIsFirstDay(store, d, doctorId, duration, afterDate, now, dayOffset + 1);
    }
  }

  /**
   * When day `k` is the first day from `dayOffset` on whose as-written scan finds a slot, the
   * as-written loop over days returns that day's slot.
   */
  lemma ScanDaysAsWrittenFirstFit(store: map<int, Appointment>, d: Doctor, doctorId: int, duration: int, afterDate: int, now: int, dayOffset: nat, k: nat)
    requires dayOffset <= k < LookAheadDays
    requires ScanDateAsWritten(store, d, doctorId, duration, now, CheckDate(afterDate, k)).Some?
    requires forall j :: dayOffset <= j < k ==> ScanDateAsWritten(store, d, doctorId, duration, now, CheckDate(afterDate, j)).None?
    ensures ScanDaysAsWritten(store, d, doctorId, duration, afterDate, now, dayOffset)
         == ScanDateAsWritten(store, d, doctorId, duration, now, CheckDate(afterDate, k))
  {
    var f := DayResultsAsWritten(store, d, doctorId, duration, afterDate, now);
    ScanDaysAsWrittenIsFirstDay(store, d, doctorId, duration, afterDate, now, dayOffset);
    assert forall j: nat :: dayOffset <= j < k ==> f(j).None?;
    FirstDayIsFirst(f, dayOffset, LookAheadDays, k);
  }

  /** The as-written loop over days finds nothing exactly when no day from `dayOffset` within the 30-day window has a slot. */
  lemma ScanDaysAsWrittenNoneIff(store: map<int, Appointment>, d: Doctor, doctorId: int, duration: int, afterDate: int, now: int, dayOffset: nat)
    ensures ScanDaysAsWritten(store, d, doctorId, duration, afterDate, now, dayOffset).None?
        <==> forall k :: dayOffset <= k < LookAheadDays ==> ScanDateAsWritten(store, d, doctorId, duration, now, CheckDate(afterDate, k)).None?
  {
    var f := DayResultsAsWritten(store, d, doctorId, duration, afterDate, now);
    ScanDaysAsWrittenIsFirstDay(store, d, doctorId, duration, afterDate, now, dayOffset);
    FirstDayNoneIff(f, dayOffset, LookAheadDays);
    assert forall k: nat :: f(k) == ScanDateAsWritten(store, d, doctorId, duration, now, CheckDate(afterDate, k));
  }

  /** The corrected scan of day `k` of the window. */
  function DayResults(store: map<int, Appointment>, d: Doctor, doctorId: int, duration: int, afterDate: int, now: int): nat -> Option<int>
  {
    (k: nat) => ScanDate(store, d, doctorId, duration, now, CheckDate(afterDate, k))
  }

  /** The corrected loop over days is `FirstDay` over the corrected scans of the window's days. */
  lemma {:induction false} ScanDaysIsFirstDay(store: map<int, Appointment>, d: Doctor, doctorId: int, duration: int, afterDate: int, now: int, dayOffset: nat)
    ensures ScanDays(store, d, doctorId, duration, afterDate, now, dayOffset) == FirstDay(DayResults(store, d, doctorId, duration, afterDate, now), dayOffset, LookAheadDays)
    decreases LookAheadDays - dayOffset
  {
    if dayOffset < LookAheadDays {
      ScanDaysIsFirstDay(store, d, doctorId, duration, afterDate, now, dayOffset + 1);
    }
  }

  /**
   * When day `k` is the first day from `dayOffset` on whose corrected scan finds a slot, the
   * corrected loop over days returns that day's slot.
   */
  lemma ScanDaysFirstFit(store: map<int, Appointment>, d: Doctor, doctorId: int, duration: int, afterDate: int, now: int, dayOffset: nat, k: nat)
    requires dayOffset <= k < LookAheadDays
    requires ScanDate(store, d, doctorId, duration, now, CheckDate(afterDate, k)).Some?
    requires forall j :: dayOffset <= j < k ==> ScanDate(store, d, doctorId, duration, now, CheckDate(afterDate, j)).None?
    ensures ScanDays(store, d, doctorId, duration, afterDate, now, dayOffset)
         == ScanDate(store, d, doctorId, duration, now, CheckDate(afterDate, k))
  {
    var f := DayResults(store, d, doctorId, duration, afterDate, now);
    ScanDaysIsFirstDay(store, d, doctorId, duration, afterDate, now, dayOffset);
    assert forall j: nat :: dayOffset <= j < k ==> f(j).None?;
    FirstDayIsFirst(f, dayOffset, LookAheadDays, k);
  }

  /** The corrected loop over days finds nothing exactly when no day from `dayOffset` within the 30-day window has a slot. */
  lemma ScanDaysNoneIff(store: map<int, Appointment>, d: Doctor, doctorId: int, duration: int, afterDate: int, now: int, dayOffset: nat)
    ensures ScanDays(store, d, doctorId, duration, afterDate, now, dayOffset).None?
        <==> forall k :: dayOffset <= k < LookAheadDays ==> ScanDate(store, d, doctorId, duration, now, CheckDate(afterDate, k)).None?
  {
    var f := DayResults(store, d, doctorId, duration, afterDate, now);
    ScanDaysIsFirstDay(store, d, doctorId, duration, afterDate, now, dayOffset);
    FirstDayNoneIff(f, dayOffset, LookAheadDays);
    assert forall k: nat :: f(k) == ScanDate(store, d, doctorId, duration, now, CheckDate(afterDate, k));
  }

  /**
   * When day `k` is the first day of the window on which the corrected scan finds a slot, the
   * search returns that day's slot.
   */
  lemma NextSlotFirstFit(store: map<int, Appointment>, doctors: map<int, Doctor>, doctorId: int, duration: int, afterDate: int, now: int, k: nat)
    requires doctorId in doctors && |doctors[doctorId].schedules| > 0
    requires k < LookAheadDays
    requires ScanDate(store, doctors[doctorId], doctorId, duration, now, CheckDate(afterDate, k)).Some?
    requires forall j :: 0 <= j < k ==> ScanDate(store, doctors[doctorId], doctorId, duration, now, CheckDate(afterDate, j)).None?
    ensures GetNextAvailableSlot(store, doctors, doctorId, duration, afterDate, now)
         == ScanDate(store, doctors[doctorId], doctorId, duration, now, CheckDate(afterDate, k))
  {
    ScanDaysFirstFit(store, doctors[doctorId], doctorId, duration, afterDate, now, 0, k);
  }

  /**
   * The search finds nothing exactly for an unknown doctor, a doctor without schedules, or when
   * no day of the 30-day window has a slot.
   */
  lemma NextSlotNoneIff(store: map<int, Appointment>, doctors: map<int, Doctor>, doctorId: int, duration: int, afterDate: int, now: int)
    ensures GetNextAvailableSlot(store, doctors, doctorId, duration, afterDate, now).None?
        <==> doctorId !in doctors || |doctors[doctorId].schedules| == 0
             || forall k :: 0 <= k < LookAheadDays ==> ScanDate(store, doctors[doctorId], doctorId, duration, now, CheckDate(afterDate, k)).None?
  {
    if doctorId in doctors && |doctors[doctorId].schedules| > 0 {
      ScanDaysNoneIff(store, doctors[doctorId], doctorId, duration, afterDate, now, 0);
    }
  }

  /** Without a break, the starts tried are exactly the 15-minute steps from `cur` that fit before the window's end. */
  lemma {:induction false} CandidatesOnGrid(s: Schedule, checkDate: int, duration: int, cur: int, t: int)
    requires s.breakStart.None?
    ensures t in Candidates(s, checkDate, duration, cur)
            <==> cur <= t && t + duration <= checkDate + s.endTime && (t - cur) % Step == 0
    decreases checkDate + s.endTime - duration - cur
  {
    if cur + duration <= checkDate + s.endTime {
      CandidatesOnGrid(s, checkDate, duration, cur + Step, t);
      assert (t - cur) % Step == (t - (cur + Step)) % Step;
    }
  }

  /** When a schedule's break has both bounds or neither, the corrected and the as-written day loops try the same starts. */
  lemma {:induction false} CandidatesAgree(s: Schedule, checkDate: int, duration: int, cur: int)
    requires s.breakStart.Some? == s.breakEnd.Some?
    ensures Candidates(s, checkDate, duration, cur) == CandidatesAsWritten(s, checkDate, duration, cur)
    decreases checkDate + s.endTime - duration - cur
  {
    if cur + duration > checkDate + s.endTime {
    } else if InBreak(s, checkDate, cur, duration) {
      CandidatesAgree(s, checkDate, duration, checkDate + s.breakEnd.value);
    } else {
      CandidatesAgree(s, checkDate, duration, cur + Step);
    }
  }

  /** When a schedule's break has both bounds or neither, the corrected and the as-written day loops return the same start. */
  lemma ScanDayAgrees(store: map<int, Appointment>, doctorId: int, duration: int, now: int, checkDate: int, s: Schedule, cur: int)
    requires s.breakStart.Some? == s.breakEnd.Some?
    ensures ScanDay(store, doctorId, duration, now, checkDate, s, cur) == ScanDayAsWritten(store, doctorId, duration, now, checkDate, s, cur)
  {
    CandidatesAgree(s, checkDate, duration, cur);
    ScanDayIsFirstFree(store, doctorId, duration, now, checkDate, s, cur);
    ScanDayAsWrittenIsFirstFree(store, doctorId, duration, now, checkDate, s, cur);
  }

  /** Every schedule of the doctor has a break with both bounds or none. */
  predicate WholeBreaks(d: Doctor)
  {
    forall i :: 0 <= i < |d.schedules| ==> d.schedules[i].breakStart.Some? == d.schedules[i].breakEnd.Some?
  }

  /** On a doctor whose breaks have both bounds or none, the corrected and the as-written scans of a date agree. */
  lemma ScanDateAgrees(store: map<int, Appointment>, d: Doctor, doctorId: int, duration: int, now: int, checkDate: int)
    requires WholeBreaks(d)
    ensures ScanDate(store, d, doctorId, duration, now, checkDate) == ScanDateAsWritten(store, d, doctorId, duration, now, checkDate)
  {
    var ds := DaySchedule(d, DayOfWeek(checkDate));
    if ds.Some? {
      var s := ds.value;
      ScanDayAgrees(store, doctorId, duration, now, checkDate, s, checkDate + s.startTime);
    }
  }

  /** On such a doctor the corrected and the as-written loops over days agree from any day on. */
  lemma {:induction false} ScanDaysAgree(store: map<int, Appointment>, d: Doctor, doctorId: int, duration: int, afterDate: int, now: int, dayOffset: nat)
    requires WholeBreaks(d)
    ensures ScanDays(store, d, doctorId, duration, afterDate, now, dayOffset)
         == ScanDaysAsWritten(store, d, doctorId, duration, afterDate, now, dayOffset)
    decreases LookAheadDays - dayOffset
  {
    if dayOffset < LookAheadDays {
      ScanDateAgrees(store, d, doctorId, duration, now, CheckDate(afterDate, dayOffset));
      ScanDaysAgree(store, d, doctorId, duration, afterDate, now, dayOffset + 1);
    }
  }

  /**
   * The correction changes nothing for doctors whose breaks have both bounds or none: the
   * corrected scan returns exactly what the code returns.
   */
  lemma NextSlotAgreesWithCode(store: map<int, Appointment>, doctors: map<int, Doctor>, doctorId: int, duration: int, afterDate: int, now: int)
    requires doctorId in doctors ==> WholeBreaks(doctors[doctorId])
    ensures GetNextAvailableSlot(store, doctors, doctorId, duration, afterDate, now)
         == GetNextAvailableSlotAsWritten(store, doctors, doctorId, duration, afterDate, now)
  {
    if doctorId in doctors && |doctors[doctorId].schedules| > 0 {
      ScanDaysAgree(store, doctors[doctorId], doctorId, duration, afterDate, now, 0);
    }
  }

  /** A slot the corrected scan offers on date `checkDate` lies within that day. */
  lemma ScanDateWithinDay(store: map<int, Appointment>, d: Doctor, doctorId: int, duration: int, now: int, checkDate: int)
    requires duration > 0
    requires forall i :: 0 <= i < |d.schedules| ==> WellFormedSchedule(d.schedules[i])
    ensures var r := ScanDate(store, d, doctorId, duration, now, checkDate);
      r.Some? ==> checkDate <= r.value < checkDate + TicksPerDay
  {
    var ds := DaySchedule(d, DayOfWeek(checkDate));
    if ds.Some? {
      var i :| 0 <= i < |d.schedules| && d.schedules[i] == ds.value;
      assert WellFormedSchedule(ds.value);
    }
  }

  /** Day `k` of the window starts on or after its first midnight and ends by its last. */
  lemma DayInWindow(k: int)
    requires 0 <= k < LookAheadDays
    ensures 0 <= Days(k) && Days(k) + TicksPerDay <= Days(LookAheadDays) && Days(k + 1) == Days(k) + TicksPerDay
  {
    assert TicksPerDay == 864_000_000_000;
  }

  /** A slot the corrected loop over days offers from `dayOffset` on lies between that day's midnight and the end of the window. */
  lemma {:induction false} ScanDaysWithinWindow(store: map<int, Appointment>, d: Doctor, doctorId: int, duration: int, afterDate: int, now: int, dayOffset: nat)
    requires duration > 0
    requires forall i :: 0 <= i < |d.schedules| ==> WellFormedSchedule(d.schedules[i])
    ensures var r := ScanDays(store, d, doctorId, duration, afterDate, now, dayOffset);
      r.Some? ==> DateOf(afterDate) + Days(dayOffset) <= r.value < DateOf(afterDate) + Days(LookAheadDays)
    decreases LookAheadDays - dayOffset
  {
    if dayOffset < LookAheadDays {
      DayInWindow(dayOffset);
      var today := ScanDate(store, d, doctorId, duration, now, CheckDate(afterDate, dayOffset));
      if today.Some? {
        ScanDateWithinDay(store, d, doctorId, duration, now, CheckDate(afterDate, dayOffset));
      } else {
        ScanDaysWithinWindow(store, d, doctorId, duration, afterDate, now, dayOffset + 1);
      }
    }
  }

  /**
   * Every slot offered lies within the 30 days that start at the date of `afterDate`, when the
   * doctor's schedule times are times of day and the duration is positive.
   */
  lemma NextSlotWithinWindow(store: map<int, Appointment>, doctors: map<int, Doctor>, doctorId: int, duration: int, afterDate: int, now: int)
    requires duration > 0
    requires doctorId in doctors
    requires forall i :: 0 <= i < |doctors[doctorId].schedules| ==> WellFormedSchedule(doctors[doctorId].schedules[i])
    ensures var r := GetNextAvailableSlot(store, doctors, doctorId, duration, afterDate, now);
      r.Some? ==> DateOf(afterDate) <= r.value < DateOf(afterDate) + Days(LookAheadDays)
  {
    if |doctors[doctorId].schedules| > 0 {
      ScanDaysWithinWindow(store, doctors[doctorId], doctorId, duration, afterDate, now, 0);
    }
  }

  /**
   * A slot the as-written scan offers on a date lies inside the first available schedule's window
   * for that weekday and clear of the break as the code reads it, a missing end counting as the start.
   */
  lemma ScanDateAsWrittenInWindow(store: map<int, Appointment>, d: Doctor, doctorId: int, duration: int, now: int, checkDate: int)
    ensures var r := ScanDateAsWritten(store, d, doctorId, duration, now, checkDate);
      r.Some? ==> DaySchedule(d, DayOfWeek(checkDate)).Some?
                  && var s := DaySchedule(d, DayOfWeek(checkDate)).value;
                     checkDate + s.startTime <= r.value && r.value + duration <= checkDate + s.endTime
                     && !InBreakAsWritten(s, checkDate, r.value, duration)
  {
  }

  /** A slot the as-written scan offers on date `checkDate` lies within that day. */
  lemma ScanDateAsWrittenWithinDay(store: map<int, Appointment>, d: Doctor, doctorId: int, duration: int, now: int, checkDate: int)
    requires duration > 0
    requires forall i :: 0 <= i < |d.schedules| ==> WellFormedSchedule(d.schedules[i])
    ensures var r := ScanDateAsWritten(store, d, doctorId, duration, now, checkDate);
      r.Some? ==> checkDate <= r.value < checkDate + TicksPerDay
  {
    var ds := DaySchedule(d, DayOfWeek(checkDate));
    if ds.Some? {
      var i :| 0 <= i < |d.schedules| && d.schedules[i] == ds.value;
      assert WellFormedSchedule(ds.value);
    }
  }

  /** A slot the as-written loop over days offers from `dayOffset` on lies between that day's midnight and the end of the window. */
  lemma {:induction false} ScanDaysAsWrittenWithinWindow(store: map<int, Appointment>, d: Doctor, doctorId: int, duration: int, afterDate: int, now: int, dayOffset: nat)
    requires duration > 0
    requires forall i :: 0 <= i < |d.schedules| ==> WellFormedSchedule(d.schedules[i])
    ensures var r := ScanDaysAsWritten(store, d, doctorId, duration, afterDate, now, dayOffset);
      r.Some? ==> DateOf(afterDate) + Days(dayOffset) <= r.value < DateOf(afterDate) + Days(LookAheadDays)
    decreases LookAheadDays - dayOffset
  {
    if dayOffset < LookAheadDays {
      DayInWindow(dayOffset);
      var today := ScanDateAsWritten(store, d, doctorId, duration, now, CheckDate(afterDate, dayOffset));
      if today.Some? {
        ScanDateAsWrittenWithinDay(store, d, doctorId, duration, now, CheckDate(afterDate, dayOffset));
      } else {
        ScanDaysAsWrittenWithinWindow(store, d, doctorId, duration, afterDate, now, dayOffset + 1);
      }
    }
  }

  /**
   * Every slot the code as written offers lies within the 30 days that start at the date of
   * `afterDate`, when the doctor's schedule times are times of day and the duration is positive.
   */
  lemma NextSlotAsWrittenWithinWindow(store: map<int, Appointment>, doctors: map<int, Doctor>, doctorId: int, duration: int, afterDate: int, now: int)
    requires duration > 0
    requires doctorId in doctors
    requires forall i :: 0 <= i < |doctors[doctorId].schedules| ==> WellFormedSchedule(doctors[doctorId].schedules[i])
    ensures var r := GetNextAvailableSlotAsWritten(store, doctors, doctorId, duration, afterDate, now);
      r.Some? ==> DateOf(afterDate) <= r.value < DateOf(afterDate) + Days(LookAheadDays)
  {
    if |doctors[doctorId].schedules| > 0 {
      ScanDaysAsWrittenWithinWindow(store, doctors[doctorId], doctorId, duration, afterDate, now, 0);
    }
  }

  /** A slot the as-written loop over days offers is the slot of one day of the window, from `dayOffset` on. */
  lemma {:induction false} ScanDaysAsWrittenFromSomeDay(store: map<int, Appointment>, d: Doctor, doctorId: int, duration: int, afterDate: int, now: int, dayOffset: nat)
    ensures var r := ScanDaysAsWritten(store, d, doctorId, duration, afterDate, now, dayOffset);
      r.Some? ==> exists k :: dayOffset <= k < LookAheadDays && ScanDateAsWritten(store, d, doctorId, duration, now, CheckDate(afterDate, k)) == r
    decreases LookAheadDays - dayOffset
  {
    if dayOffset < LookAheadDays {
      var today := ScanDateAsWritten(store, d, doctorId, duration, now, CheckDate(afterDate, dayOffset));
      if today.None? {
        ScanDaysAsWrittenFromSomeDay(store, d, doctorId, duration, afterDate, now, dayOffset + 1);
      }
    }
  }

  /**
   * Every slot the code as written offers lies, on some day of the window, inside the first
   * available schedule for that weekday and clear of the break as the code reads it.
   */
  lemma NextSlotAsWrittenFitsSchedule(store: map<int, Appointment>, doctors: map<int, Doctor>, doctorId: int, duration: int, afterDate: int, now: int)
    ensures var r := GetNextAvailableSlotAsWritten(store, doctors, doctorId, duration, afterDate, now);
      r.Some? ==> doctorId in doctors
                  && exists k :: 0 <= k < LookAheadDays && (
                       var c := CheckDate(afterDate, k);
                       DaySchedule(doctors[doctorId], DayOfWeek(c)).Some?
                       && var s := DaySchedule(doctors[doctorId], DayOfWeek(c)).value;
                          c + s.startTime <= r.value && r.value + duration <= c + s.endTime
                          && !InBreakAsWritten(s, c, r.value, duration))
  {
    var r := GetNextAvailableSlotAsWritten(store, doctors, doctorId, duration, afterDate, now);
    if r.Some? {
      var d := doctors[doctorId];
      ScanDaysAsWrittenFromSomeDay(store, d, doctorId, duration, afterDate, now, 0);
      var k :| 0 <= k < LookAheadDays && ScanDateAsWritten(store, d, doctorId, duration, now, CheckDate(afterDate, k)) == r;
      ScanDateAsWrittenInWindow(store, d, doctorId, duration, now, CheckDate(afterDate, k));
    }
  }

  /** A slot the day scan accepts passes the scheduling check's working-hours test on that day. */
  lemma SlotFitsSchedule(s: Schedule, checkDate: int, t: int, duration: int)
    requires WellFormedSchedule(s) && s.isAvailable && duration > 0
    requires checkDate % TicksPerDay == 0 && s.day == DayOfWeek(checkDate)
    requires checkDate + s.startTime <= t && t + duration <= checkDate + s.endTime
    requires !InBreak(s, checkDate, t, duration) && !PastOpenBreak(s, checkDate, t, duration)
    ensures ADS.FitsSchedule(s, DayOfWeek(checkDate), TimeOfDay(t), duration)
  {
    AtMidnightPlus(checkDate, t - checkDate);
  }

  /** A free future start inside a schedule's window and clear of its break passes the scheduling check. */
  lemma DaySlotSchedulable(store: map<int, Appointment>, doctors: map<int, Doctor>, doctorId: int, duration: int, now: int, checkDate: int, s: Schedule, t: int)
    requires duration > 0
    requires doctorId in doctors && s in doctors[doctorId].schedules
    requires WellFormedSchedule(s) && s.isAvailable
    requires checkDate % TicksPerDay == 0 && s.day == DayOfWeek(checkDate)
    requires checkDate + s.startTime <= t && t + duration <= checkDate + s.endTime
    requires !InBreak(s, checkDate, t, duration) && !PastOpenBreak(s, checkDate, t, duration)
    requires t > now && !AppointmentRepository.HasConflict(store, doctorId, t, duration, None)
    ensures ADS.CanSchedule(store, doctors, now, doctorId, t, duration)
  {
    var d := doctors[doctorId];
    var i :| 0 <= i < |d.schedules| && d.schedules[i] == s;
    SlotFitsSchedule(s, checkDate, t, duration);
    AtMidnightPlus(checkDate, t - checkDate);
    assert ADS.FitsSchedule(d.schedules[i], DayOfWeek(t), TimeOfDay(t), duration);
  }

  /** The slot the corrected scan offers on a given date passes the scheduling check. */
  lemma ScanDateSchedulable(store: map<int, Appointment>, doctors: map<int, Doctor>, doctorId: int, duration: int, now: int, checkDate: int)
    requires duration > 0 && checkDate % TicksPerDay == 0
    requires doctorId in doctors
    requires forall i :: 0 <= i < |doctors[doctorId].schedules| ==> WellFormedSchedule(doctors[doctorId].schedules[i])
    ensures var r := ScanDate(store, doctors[doctorId], doctorId, duration, now, checkDate);
      r.Some? ==> ADS.CanSchedule(store, doctors, now, doctorId, r.value, duration)
  {
    var d := doctors[doctorId];
    var ds := DaySchedule(d, DayOfWeek(checkDate));
    if ds.Some? {
      var s := ds.value;
      var r := ScanDay(store, doctorId, duration, now, checkDate, s, checkDate + s.startTime);
      if r.Some? {
        var i :| 0 <= i < |d.schedules| && d.schedules[i] == s;
        assert WellFormedSchedule(s);
        DaySlotSchedulable(store, doctors, doctorId, duration, now, checkDate, s, r.value);
      }
    }
  }

  /** Every slot the corrected day loop offers from `dayOffset` on passes the scheduling check. */
  lemma {:induction false} ScanDaysSchedulable(store: map<int, Appointment>, doctors: map<int, Doctor>, doctorId: int, duration: int, afterDate: int, now: int, dayOffset: nat)
    requires duration > 0
    requires doctorId in doctors
    requires forall i :: 0 <= i < |doctors[doctorId].schedules| ==> WellFormedSchedule(doctors[doctorId].schedules[i])
    ensures var r := ScanDays(store, doctors[doctorId], doctorId, duration, afterDate, now, dayOffset);
      r.Some? ==> ADS.CanSchedule(store, doctors, now, doctorId, r.value, duration)
    decreases LookAheadDays - dayOffset
  {
    if dayOffset < LookAheadDays {
      var d := doctors[doctorId];
      var checkDate := CheckDate(afterDate, dayOffset);
      MidnightPlusDays(DateOf(afterDate), dayOffset);
      var today := ScanDate(store, d, doctorId, duration, now, checkDate);
      if today.Some? {
        assert ScanDays(store, d, doctorId, duration, afterDate, now, dayOffset) == today;
        ScanDateSchedulable(store, doctors, doctorId, duration, now, checkDate);
      } else {
        assert ScanDays(store, d, doctorId, duration, afterDate, now, dayOffset)
            == ScanDays(store, d, doctorId, duration, afterDate, now, dayOffset + 1);
        ScanDaysSchedulable(store, doctors, doctorId, duration, afterDate, now, dayOffset + 1);
      }
    }
  }

  /**
   * Every slot the corrected scan offers is one `CanScheduleAppointmentAsync` accepts, for the
   * same clock, store and doctor, when the doctor's schedule times are times of day and the
   * duration is positive.
   */
  lemma NextSlotIsSchedulable(store: map<int, Appointment>, doctors: map<int, Doctor>, doctorId: int, duration: int, afterDate: int, now: int)
    requires duration > 0
    requires doctorId in doctors
    requires forall i :: 0 <= i < |doctors[doctorId].schedules| ==> WellFormedSchedule(doctors[doctorId].schedules[i])
    ensures var r := GetNextAvailableSlot(store, doctors, doctorId, duration, afterDate, now);
      r.Some? ==> ADS.CanSchedule(store, doctors, now, doctorId, r.value, duration)
  {
    if |doctors[doctorId].schedules| > 0 {
      ScanDaysSchedulable(store, doctors, doctorId, duration, afterDate, now, 0);
    }
  }
}
