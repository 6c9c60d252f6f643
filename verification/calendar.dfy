/**
 * Calendar dates (`DateTime.Today`, dates of birth) and the age computation of
 * `PatientDomainService.CalculateAge`, including `DateTime.AddYears`, which moves 29 February
 * to 28 February in a year that is not a leap year.
 */
module Calendar {

  datatype Date = Date(year: int, month: int, day: int)

  predicate IsLeap(y: int)
  {
    y % 4 == 0 && (y % 100 != 0 || y % 400 == 0)
  }

  function DaysInMonth(y: int, m: int): int
    requires 1 <= m <= 12
  {
    if m == 2 then (if IsLeap(y) then 29 else 28)
    else if m == 4 || m == 6 || m == 9 || m == 11 then 30
    else 31
  }

  predicate Valid(d: Date)
  {
    1 <= d.month <= 12 && 1 <= d.day <= DaysInMonth(d.year, d.month)
  }

  type CivilDate = d: Date | Valid(d) witness Date(2000, 1, 1)

  /** Comparison of month and day only, ignoring the year. */
  predicate MonthDayBefore(a: Date, b: Date)
  {
    a.month < b.month || (a.month == b.month && a.day < b.day)
  }

  /** `a < b` on dates. */
  predicate Before(a: Date, b: Date)
  {
    a.year < b.year || (a.year == b.year && MonthDayBefore(a, b))
  }

  /** `DateTime.AddYears(n)`: the same month and day `n` years away, 29 February clamped to the 28th. */
  function AddYears(d: CivilDate, n: int): (r: CivilDate)
    ensures r.year == d.year + n && r.month == d.month
    ensures r.day == d.day || (d.month == 2 && d.day == 29 && r.day == 28 && !IsLeap(r.year))
  {
    var y := d.year + n;
    if d.day > DaysInMonth(y, d.month) then Date(y, d.month, DaysInMonth(y, d.month)) else Date(y, d.month, d.day)
  }

  /**
   * `CalculateAge`: the year difference, less one when the anniversary of `dob` in the
   * reference year is still ahead, decided by comparing `dob` with `today` moved back by that
   * difference.
   */
  function AgeOn(dob: CivilDate, today: CivilDate): int
  {
    var age := today.year - dob.year;
    if Before(AddYears(today, -age), dob) then age - 1 else age
  }

  /** The age is the year difference, less one exactly when the birthday is later in the year. */
  lemma AgeCharacterization(dob: CivilDate, today: CivilDate)
    ensures AgeOn(dob, today) == today.year - dob.year - (if MonthDayBefore(today, dob) then 1 else 0)
  {
    var age := today.year - dob.year;
    var back := AddYears(today, -age);
    assert back.year == dob.year;
    if back.day != today.day {
      // today is 29 February of a leap year and dob.year is not a leap year, so dob is not 29 February
      assert !IsLeap(dob.year);
      assert MonthDayBefore(back, dob) <==> MonthDayBefore(today, dob);
    }
  }

  /** On the n-th birthday the patient is n. */
  lemma AgeOnBirthday(dob: CivilDate, today: CivilDate, n: int)
    requires today.year == dob.year + n && today.month == dob.month && today.day == dob.day
    ensures AgeOn(dob, today) == n
  {
    AgeCharacterization(dob, today);
  }

  /** Earlier in the year of the n-th birthday the patient is still n - 1. */
  lemma AgeBeforeBirthday(dob: CivilDate, today: CivilDate, n: int)
    requires today.year == dob.year + n && MonthDayBefore(today, dob)
    ensures AgeOn(dob, today) == n - 1
  {
    AgeCharacterization(dob, today);
  }

  /** The age never decreases as the reference date advances. */
  lemma AgeMonotone(dob: CivilDate, t1: CivilDate, t2: CivilDate)
    requires !Before(t2, t1)
    ensures AgeOn(dob, t1) <= AgeOn(dob, t2)
  {
    AgeCharacterization(dob, t1);
    AgeCharacterization(dob, t2);
  }

  /** Nobody born on or before the reference date has a negative age. */
  lemma AgeNonNegative(dob: CivilDate, today: CivilDate)
    requires !Before(today, dob)
    ensures AgeOn(dob, today) >= 0
  {
    AgeCharacterization(dob, today);
  }

  /** Someone born on 29 February 2020 turns 3 on 1 March 2023, not on 28 February. */
  lemma LeapDayBirthdayExample()
    ensures AgeOn(Date(2020, 2, 29), Date(2023, 2, 28)) == 2
    ensures AgeOn(Date(2020, 2, 29), Date(2023, 3, 1)) == 3
    ensures AgeOn(Date(2020, 2, 29), Date(2024, 2, 29)) == 4
  {
  }
}
