/**
 * The Domain layer's patient rules (Domain/Services/PatientDomainService.cs): discounts, guardian
 * consent, the age they rest on and the patient-number format. Today's date, the current year
 * and the random draw are parameters.
 */
module PatientPolicy {
  import opened Wrappers
  import opened Model
  import opened Calendar
  import opened Text
  import PatientEntity

  /** `CalculateAge`: the age in whole years, counted the same way as the entity's `GetAge`. */
  function CalculateAge(p: Patient, today: CivilDate): (r: int)
    ensures r == PatientEntity.Age(p, today)
    ensures !Before(today, p.dateOfBirth) ==> r >= 0
    ensures today.month == p.dateOfBirth.month && today.day == p.dateOfBirth.day ==> r == today.year - p.dateOfBirth.year
  {
    AgeCharacterization(p.dateOfBirth, today);
    AgeOn(p.dateOfBirth, today)
  }

  /** The three discount bands: seniors from 65, students 18 to 25, children under 12. */
  predicate DiscountAge(age: int)
  {
    age >= 65 || (18 <= age <= 25) || age < 12
  }

  /** `IsEligibleForDiscount`. */
  function IsEligibleForDiscount(p: Patient, today: CivilDate): (r: bool)
    ensures r <==> DiscountAge(CalculateAge(p, today))
  {
    var age := CalculateAge(p, today);
    if age >= 65 then true
    else if age >= 18 && age <= 25 then true
    else if age < 12 then true
    else false
  }

  /** Teenagers from 12 to 17 and adults from 26 to 64 never get a discount; everybody else does. */
  lemma DiscountGaps(p: Patient, today: CivilDate)
    ensures var age := CalculateAge(p, today);
            !IsEligibleForDiscount(p, today) <==> (12 <= age <= 17) || (26 <= age <= 64)
  {
  }

  /** `RequiresGuardianConsent`: younger than 18. */
  function RequiresGuardianConsent(p: Patient, today: CivilDate): (r: bool)
    ensures r <==> CalculateAge(p, today) < 18
  {
    CalculateAge(p, today) < 18
  }

  /** Guardian consent is required exactly for the minors of the entity's definition. */
  lemma GuardianConsentForMinors(p: Patient, today: CivilDate)
    ensures RequiresGuardianConsent(p, today) <==> PatientEntity.IsMinor(p, today)
  {
  }

  /** Every child under 12 gets a discount and needs a guardian's consent. */
  lemma ChildrenDiscountedAndGuarded(p: Patient, today: CivilDate)
    requires CalculateAge(p, today) < 12
    ensures IsEligibleForDiscount(p, today) && RequiresGuardianConsent(p, today)
  {
  }

  /** The range `Random.Next(1000, 9999)` draws from: 1000 to 9998 inclusive. */
  predicate ValidDraw(n: int)
  {
    1000 <= n < 9999
  }

  /**
   * `GeneratePatientNumber`: "PT", the current year in decimal, then the four-digit draw. The
   * year of a `DateTime` is at least 1.
   */
  function PatientNumber(year: nat, draw: int): (r: string)
    requires year >= 1 && ValidDraw(draw)
    ensures |r| == 2 + |NatToString(year)| + 4
    ensures r[..2] == "PT"
    ensures forall i :: 2 <= i < |r| ==> '0' <= r[i] <= '9'
  {
    FourDigits(draw);
    "PT" + NatToString(year) + NatToString(draw)
  }

  /** A number from 1000 to 9999 prints as four digits. */
  lemma FourDigits(n: nat)
    requires 1000 <= n < 10000
    ensures |NatToString(n)| == 4
  {
    assert NatToString(n) == NatToString(n / 10) + [DigitChar(n % 10)];
    assert NatToString(n / 10) == NatToString(n / 100) + [DigitChar(n / 10 % 10)];
    assert NatToString(n / 100) == NatToString(n / 1000) + [DigitChar(n / 100 % 10)];
  }

  /** Reads a patient number back into its year and draw; `None` when it is not of that shape. */
  function ParsePatientNumber(s: string): (r: Option<(nat, nat)>)
    ensures r.Some? ==> |s| >= 7 && s[..2] == "PT"
  {
    if |s| >= 7 && s[..2] == "PT" && forall i :: 2 <= i < |s| ==> '0' <= s[i] <= '9' then
      Some((DigitsValue(s[2..|s| - 4]), DigitsValue(s[|s| - 4..])))
    else None
  }

  /** The number's year and draw are recovered from it. */
  lemma PatientNumberRoundTrip(year: nat, draw: int)
    requires year >= 1 && ValidDraw(draw)
    ensures ParsePatientNumber(PatientNumber(year, draw)) == Some((year, draw as nat))
  {
    var y := NatToString(year);
    var d := NatToString(draw);
    FourDigits(draw);
    var s := PatientNumber(year, draw);
    assert s == "PT" + y + d;
    assert s[2..|s| - 4] == y;
    assert s[|s| - 4..] == d;
    NatToStringRoundTrip(year);
    NatToStringRoundTrip(draw);
  }

  /** Different draws in the same year give different numbers. */
  lemma PatientNumberInjective(year: nat, d1: int, d2: int)
    requires year >= 1 && ValidDraw(d1) && ValidDraw(d2) && d1 != d2
    ensures PatientNumber(year, d1) != PatientNumber(year, d2)
  {
    PatientNumberRoundTrip(year, d1);
    PatientNumberRoundTrip(year, d2);
  }
}
