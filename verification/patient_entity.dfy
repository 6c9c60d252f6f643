/** The behaviour of the `Patient` domain entity (Domain/Entities/Patient.cs). */
module PatientEntity {
  import opened Model
  import opened Calendar
  import Text

  /** `GetFullName`. */
  function FullName(p: Patient): (r: string)
    ensures |r| == |p.firstName| + 1 + |p.lastName|
    ensures r[..|p.firstName|] == p.firstName && r[|p.firstName|] == ' ' && r[|p.firstName| + 1..] == p.lastName
  {
    Text.FullName(p.firstName, p.lastName)
  }

  /** `GetAge`, with today's date as a parameter. */
  function Age(p: Patient, today: CivilDate): (r: int)
    ensures r == today.year - p.dateOfBirth.year - (if MonthDayBefore(today, p.dateOfBirth) then 1 else 0)
  {
    AgeCharacterization(p.dateOfBirth, today);
    AgeOn(p.dateOfBirth, today)
  }

  /** `IsMinor`: younger than 18. */
  function IsMinor(p: Patient, today: CivilDate): (r: bool)
    ensures r <==> Age(p, today) < 18
  {
    Age(p, today) < 18
  }

  /** A patient is a minor exactly until the 18th birthday. */
  lemma MinorUntilEighteenthBirthday(p: Patient, today: CivilDate)
    ensures IsMinor(p, today) <==> Before(today, Date(p.dateOfBirth.year + 18, p.dateOfBirth.month, p.dateOfBirth.day))
  {
  }
}
