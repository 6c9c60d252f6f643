/**
 * The patient rules of Business/Domain/Services/PatientDomainService.cs: eligibility for an
 * appointment type, the risk level, the accommodations list and the per-day appointment limit.
 * Today's date is the parameter `today`; the age is the one `PatientEntity.Age` computes, which
 * is the same calculation as the service's `CalculateAge`.
 */
module PatientDomainService {
  import opened Wrappers
  import opened Model
  import opened Text
  import Words
  import opened Calendar
  import PatientEntity

  /** The conditions that add one risk point each. */
  const RiskConditions: seq<string> := ["diabetes", "hypertension", "heart disease", "cancer", "stroke"]

  /** The conditions that rule out surgery. */
  const SurgeryRiskConditions: seq<string> := ["heart disease", "diabetes", "cancer", "kidney disease", "liver disease"]

  /** The history entries taken as a referral to a specialist. */
  const SpecialistConditions: seq<string> := ["cardiology", "neurology", "oncology", "orthopedic"]

  /** The medical history lowercased, a missing one read as empty. */
  function History(p: Patient): string
  {
    Lower(p.medicalHistory.GetOr(""))
  }

  /** Some word of the list occurs in `h`. */
  predicate MentionsAny(h: string, words: seq<string>)
  {
    exists i :: 0 <= i < |words| && Contains(h, words[i])
  }

  /** How many words of the list occur in `h`. */
  function CountMentioned(h: string, words: seq<string>): (n: nat)
    ensures n <= |words|
    ensures n == 0 <==> !MentionsAny(h, words)
    ensures n == |words| <==> forall i :: 0 <= i < |words| ==> Contains(h, words[i])
  {
    if words == [] then 0
    else
      var rest := CountMentioned(h, words[1..]);
      assert forall i :: 1 <= i < |words| ==> words[i] == words[1..][i - 1];
      (if Contains(h, words[0]) then 1 else 0) + rest
  }

  /** The eligibility table, for an appointment type already lowercased. */
  function EligibleFor(p: Patient, age: int, kind: string): bool
  {
    match kind
    case "pediatric" => age < 18
    case "geriatric" => age >= 65
    case "surgery" => 18 <= age <= 75 && !MentionsAny(History(p), SurgeryRiskConditions)
    case "emergency" => true
    case "routine" => p.isActive
    case "follow-up" => p.isActive && !IsNullOrEmpty(p.medicalHistory)
    case "specialist" => p.isActive && MentionsAny(History(p), SpecialistConditions)
    case _ => p.isActive
  }

  /** The appointment types the table names; any other type is treated as routine. */
  predicate KnownKind(kind: string)
  {
    kind in {"pediatric", "geriatric", "surgery", "emergency", "routine", "follow-up", "specialist"}
  }

  /**
   * `IsEligibleForAppointmentType`: an inactive patient is eligible only for emergencies and the
   * purely age-based types; an active one at least for routine and unknown types.
   */
  function IsEligibleForAppointmentType(p: Patient, today: CivilDate, appointmentType: string): (r: bool)
    ensures r && !p.isActive ==> Lower(appointmentType) in {"pediatric", "geriatric", "surgery", "emergency"}
    ensures !KnownKind(Lower(appointmentType)) ==> (r <==> p.isActive)
    ensures Lower(appointmentType) == "emergency" ==> r
    ensures Lower(appointmentType) == "pediatric" ==> (r <==> PatientEntity.Age(p, today) < 18)
    ensures Lower(appointmentType) == "geriatric" ==> (r <==> PatientEntity.Age(p, today) >= 65)
    ensures Lower(appointmentType) == "surgery" ==>
              (r <==> 18 <= PatientEntity.Age(p, today) <= 75 && !MentionsAny(History(p), SurgeryRiskConditions))
    ensures Lower(appointmentType) == "routine" ==> (r <==> p.isActive)
    ensures Lower(appointmentType) == "follow-up" ==> (r <==> p.isActive && p.medicalHistory.Some? && p.medicalHistory.value != "")
    ensures Lower(appointmentType) == "specialist" ==> (r <==> p.isActive && MentionsAny(History(p), SpecialistConditions))
  {
    EligibleFor(p, PatientEntity.Age(p, today), Lower(appointmentType))
  }

  /** The age-based types: pediatric below 18, geriatric from 65, nobody both, and surgery for ages 18 to 75. */
  lemma AgeBasedTypes(p: Patient, age: int)
    ensures EligibleFor(p, age, "pediatric") <==> age < 18
    ensures EligibleFor(p, age, "geriatric") <==> age >= 65
    ensures !(EligibleFor(p, age, "pediatric") && EligibleFor(p, age, "geriatric"))
    ensures EligibleFor(p, age, "pediatric") || EligibleFor(p, age, "geriatric") || 18 <= age < 65
    ensures EligibleFor(p, age, "surgery") ==> 18 <= age <= 75
    ensures EligibleFor(p, age, "surgery") <==> 18 <= age <= 75 && forall i :: 0 <= i < |SurgeryRiskConditions| ==> !Contains(History(p), SurgeryRiskConditions[i])
  {
  }

  /**
   * Follow-up needs an active patient with some history, specialist an active patient whose history
   * names a specialty; the status of the patient decides routine.
   */
  lemma ActivityBasedTypes(p: Patient, age: int)
    ensures EligibleFor(p, age, "follow-up") <==> p.isActive && p.medicalHistory.Some? && p.medicalHistory.value != ""
    ensures EligibleFor(p, age, "routine") <==> p.isActive
    ensures EligibleFor(p, age, "specialist") <==> p.isActive && MentionsAny(History(p), SpecialistConditions)
    ensures EligibleFor(p, age, "specialist") ==> EligibleFor(p, age, "routine")
  {
  }

  /** The type is matched in any letter case: "Emergency" is always eligible. */
  lemma EmergencyInAnyCase(p: Patient, today: CivilDate)
    ensures IsEligibleForAppointmentType(p, today, "Emergency")
  {
    Words.LowerEmergency();
  }

  /** Points for age: 3 from 75, 2 from 65, 1 from 50. */
  function AgePoints(age: int): (n: nat)
    ensures n <= 3
    ensures n == 3 <==> age >= 75
    ensures n == 2 <==> 65 <= age < 75
    ensures n == 1 <==> 50 <= age < 65
    ensures n == 0 <==> age < 50
  {
    if age >= 75 then 3 else if age >= 65 then 2 else if age >= 50 then 1 else 0
  }

  /** Points for allergies: the comma-separated entries, 2 for more than three, 1 for more than one. */
  function AllergyPoints(allergies: Option<string>): (n: nat)
    ensures n <= 2
  {
    if IsNullOrEmpty(allergies) then 0
    else
      var count := |Split(allergies.value, ',')|;
      if count > 3 then 2 else if count > 1 then 1 else 0
  }

  /** The allergy points count commas: none gives 0, one or two give 1, three or more give 2. */
  lemma AllergyPointsByCommas(a: string)
    requires a != ""
    ensures var commas := multiset(a)[','];
            AllergyPoints(Some(a)) == if commas >= 3 then 2 else if commas >= 1 then 1 else 0
  {
  }

  /** The risk score: age, conditions and allergies. */
  function RiskScore(age: int, history: string, allergies: Option<string>): (n: nat)
    ensures n <= 10
    ensures n >= AgePoints(age) + CountMentioned(history, RiskConditions)
  {
    AgePoints(age) + CountMentioned(history, RiskConditions) + AllergyPoints(allergies)
  }

  datatype RiskLevel = Low | Medium | High | Critical

  /** The level as the service spells it. */
  function LevelName(l: RiskLevel): string
  {
    match l
    case Low => "Low"
    case Medium => "Medium"
    case High => "High"
    case Critical => "Critical"
  }

  /** Position of a level in the order Low < Medium < High < Critical. */
  function Rank(l: RiskLevel): nat
  {
    match l
    case Low => 0
    case Medium => 1
    case High => 2
    case Critical => 3
  }

  /** The level of a score: up to 1 Low, up to 3 Medium, up to 5 High, above Critical. */
  function LevelOf(score: int): (l: RiskLevel)
    ensures l == Low <==> score <= 1
    ensures l == Critical <==> score > 5
    ensures l == High ==> 4 <= score <= 5
    ensures l == Medium ==> 2 <= score <= 3
  {
    if score <= 1 then Low else if score <= 3 then Medium else if score <= 5 then High else Critical
  }

  /** A higher score never has a lower level. */
  lemma LevelOfMonotone(s1: int, s2: int)
    requires s1 <= s2
    ensures Rank(LevelOf(s1)) <= Rank(LevelOf(s2))
  {
  }

  /** `CalculateRiskLevel`. */
  function CalculateRiskLevel(p: Patient, today: CivilDate): (l: RiskLevel)
    ensures PatientEntity.Age(p, today) >= 75 && MentionsAny(History(p), RiskConditions) ==> Rank(l) >= Rank(High)
    ensures PatientEntity.Age(p, today) < 50 && !MentionsAny(History(p), RiskConditions) && IsNullOrEmpty(p.allergies) ==> l == Low
  {
    LevelOf(RiskScore(PatientEntity.Age(p, today), History(p), p.allergies))
  }

  /** With history and allergies fixed, the level never falls as the days go by. */
  lemma RiskLevelNeverFallsWithAge(p: Patient, t1: CivilDate, t2: CivilDate)
    requires !Before(t2, t1)
    ensures Rank(CalculateRiskLevel(p, t1)) <= Rank(CalculateRiskLevel(p, t2))
  {
    AgeMonotone(p.dateOfBirth, t1, t2);
    LevelOfMonotone(RiskScore(PatientEntity.Age(p, t1), History(p), p.allergies),
                    RiskScore(PatientEntity.Age(p, t2), History(p), p.allergies));
  }

  /** An 80-year-old with "diabetes, hypertension" and no allergies scores 3 + 2 = 5: High. */
  lemma RiskExample(p: Patient, today: CivilDate)
    requires PatientEntity.Age(p, today) == 80
    requires p.medicalHistory == Some("diabetes, hypertension") && p.allergies.None?
    ensures RiskScore(80, History(p), p.allergies) == 5
    ensures CalculateRiskLevel(p, today) == High
  {
    Words.LowerDiabetesHypertension();
    ExampleCount();
  }

  /** Two of the five risk conditions occur in the example history. */
  lemma ExampleCount()
    ensures CountMentioned("diabetes, hypertension", RiskConditions) == 2
  {
    var h := "diabetes, hypertension";
    ExampleMentions();
    ExampleOmits();
    var w := RiskConditions;
    assert w[1..][1..][1..][1..][1..] == [];
    assert CountMentioned(h, w[1..][1..][1..][1..]) == 0;
    assert CountMentioned(h, w[1..][1..][1..]) == 0;
    assert CountMentioned(h, w[1..][1..]) == 0;
    assert CountMentioned(h, w[1..]) == 1;
  }

  lemma ExampleMentions()
    ensures Contains("diabetes, hypertension", "diabetes")
    ensures Contains("diabetes, hypertension", "hypertension")
  {
    var h := "diabetes, hypertension";
    assert OccursAt(h, "diabetes", 0);
    ContainsIff(h, "diabetes");
    assert OccursAt(h, "hypertension", 10);
    ContainsIff(h, "hypertension");
  }

  lemma ExampleOmits()
    ensures !Contains("diabetes, hypertension", "heart disease")
    ensures !Contains("diabetes, hypertension", "cancer")
    ensures !Contains("diabetes, hypertension", "stroke")
  {
    OmitsHeartDisease();
    OmitsCancer();
    OmitsStroke();
  }

  lemma OmitsHeartDisease() ensures !Contains("diabetes, hypertension", "heart disease")
  {
    NotContainsFromByChar("diabetes, hypertension", "heart disease", 6, 0);
  }

  lemma OmitsCancer() ensures !Contains("diabetes, hypertension", "cancer")
  {
    NotContainsFromByChar("diabetes, hypertension", "cancer", 0, 0);
  }

  lemma OmitsStroke() ensures !Contains("diabetes, hypertension", "stroke")
  {
    NotContainsFromByChar("diabetes, hypertension", "stroke", 4, 0);
  }

  /** The accommodations the service can require, each with the text it reports. */
  datatype Accommodation =
    | ExtraTime | GroundFloor | LargePrint
    | PediatricEquipment | GuardianPresence
    | WheelchairRoom | SignLanguage | QuietRoom
    | AllergyProtocol

  function Label(a: Accommodation): string
  {
    match a
    case ExtraTime => "Extra time for consultation"
    case GroundFloor => "Ground floor room preferred"
    case LargePrint => "Large print materials"
    case PediatricEquipment => "Pediatric equipment required"
    case GuardianPresence => "Parent/guardian presence required"
    case WheelchairRoom => "Wheelchair accessible room"
    case SignLanguage => "Sign language interpreter"
    case QuietRoom => "Quiet environment preferred"
    case AllergyProtocol => "Allergy protocol required"
  }

  /** The age-based items: three from 75, two under 5. */
  function AgeItems(age: int): (r: seq<Accommodation>)
    ensures ExtraTime in r <==> age >= 75
    ensures PediatricEquipment in r <==> age < 5
    ensures forall a :: a in r ==> a.ExtraTime? || a.GroundFloor? || a.LargePrint? || a.PediatricEquipment? || a.GuardianPresence?
  {
    (if age >= 75 then [ExtraTime, GroundFloor, LargePrint] else [])
    + (if age < 5 then [PediatricEquipment, GuardianPresence] else [])
  }

  /** The items a lowercased history calls for, each at most once. */
  function ConditionItems(h: string): (r: seq<Accommodation>)
    ensures WheelchairRoom in r <==> Contains(h, "wheelchair") || Contains(h, "mobility")
    ensures SignLanguage in r <==> Contains(h, "hearing") || Contains(h, "deaf")
    ensures QuietRoom in r <==> Contains(h, "anxiety") || Contains(h, "panic")
    ensures forall a :: a in r ==> a.WheelchairRoom? || a.SignLanguage? || a.QuietRoom?
  {
    (if Contains(h, "wheelchair") || Contains(h, "mobility") then [WheelchairRoom] else [])
    + (if Contains(h, "hearing") || Contains(h, "deaf") then [SignLanguage] else [])
    + (if Contains(h, "anxiety") || Contains(h, "panic") then [QuietRoom] else [])
  }

  /** The allergy protocol, when any allergies are recorded. */
  function AllergyItems(allergies: Option<string>): (r: seq<Accommodation>)
    ensures AllergyProtocol in r <==> !IsNullOrEmpty(allergies)
    ensures forall a :: a in r ==> a.AllergyProtocol?
  {
    if !IsNullOrEmpty(allergies) then [AllergyProtocol] else []
  }

  /** The list for a given age, lowercased history and allergies. */
  function AccommodationsFor(age: int, h: string, allergies: Option<string>): (r: seq<Accommodation>)
    ensures forall x :: x in r <==> x in AgeItems(age) || x in ConditionItems(h) || x in AllergyItems(allergies)
    ensures AllergyProtocol in r ==> r[|r| - 1] == AllergyProtocol
  {
    var a, c, e := AgeItems(age), ConditionItems(h), AllergyItems(allergies);
    assert AllergyProtocol !in a && AllergyProtocol !in c;
    a + c + e
  }

  /** `GetRequiredAccommodations`: age-based items, then condition-based items, then the allergy protocol. */
  function Accommodations(p: Patient, today: CivilDate): (r: seq<Accommodation>)
    ensures ExtraTime in r <==> PatientEntity.Age(p, today) >= 75
    ensures PediatricEquipment in r <==> PatientEntity.Age(p, today) < 5
    ensures WheelchairRoom in r <==> Contains(History(p), "wheelchair") || Contains(History(p), "mobility")
    ensures SignLanguage in r <==> Contains(History(p), "hearing") || Contains(History(p), "deaf")
    ensures QuietRoom in r <==> Contains(History(p), "anxiety") || Contains(History(p), "panic")
    ensures AllergyProtocol in r <==> !IsNullOrEmpty(p.allergies)
  {
    var age, h := PatientEntity.Age(p, today), History(p);
    AgeRules(age, h, p.allergies);
    ConditionRules(age, h, p.allergies);
    AllergyRule(age, h, p.allergies);
    AccommodationsFor(age, h, p.allergies)
  }

  /** The age-based items are required exactly by age. */
  lemma AgeRules(age: int, h: string, allergies: Option<string>)
    ensures var r := AccommodationsFor(age, h, allergies);
            && (ExtraTime in r <==> age >= 75)
            && (PediatricEquipment in r <==> age < 5)
  {
    assert ExtraTime !in ConditionItems(h) && ExtraTime !in AllergyItems(allergies);
    assert PediatricEquipment !in ConditionItems(h) && PediatricEquipment !in AllergyItems(allergies);
  }

  /** The condition items are required exactly by the history's wording. */
  lemma ConditionRules(age: int, h: string, allergies: Option<string>)
    ensures var r := AccommodationsFor(age, h, allergies);
            && (WheelchairRoom in r <==> Contains(h, "wheelchair") || Contains(h, "mobility"))
            && (SignLanguage in r <==> Contains(h, "hearing") || Contains(h, "deaf"))
            && (QuietRoom in r <==> Contains(h, "anxiety") || Contains(h, "panic"))
  {
    assert WheelchairRoom !in AgeItems(age) && WheelchairRoom !in AllergyItems(allergies);
    assert SignLanguage !in AgeItems(age) && SignLanguage !in AllergyItems(allergies);
    assert QuietRoom !in AgeItems(age) && QuietRoom !in AllergyItems(allergies);
  }

  /** The allergy protocol is required exactly when allergies are recorded. */
  lemma AllergyRule(age: int, h: string, allergies: Option<string>)
    ensures AllergyProtocol in AccommodationsFor(age, h, allergies) <==> !IsNullOrEmpty(allergies)
  {
    assert AllergyProtocol !in AgeItems(age) && AllergyProtocol !in ConditionItems(h);
  }

  /** The age-based items come first, in their fixed order. */
  lemma AccommodationsStartWithAgeItems(age: int, h: string, allergies: Option<string>)
    ensures var r := AccommodationsFor(age, h, allergies);
            && (age >= 75 ==> r[..3] == [ExtraTime, GroundFloor, LargePrint])
            && (age < 5 ==> r[..2] == [PediatricEquipment, GuardianPresence])
  {
    var a := AgeItems(age);
    var rest := ConditionItems(h) + AllergyItems(allergies);
    assert AccommodationsFor(age, h, allergies) == a + rest;
    assert (a + rest)[..|a|] == a;
  }

  /** No element occurs twice. */
  predicate Distinct<T(==)>(s: seq<T>)
  {
    forall i, j :: 0 <= i < j < |s| ==> s[i] != s[j]
  }

  /** Two repetition-free lists with no common element concatenate to a repetition-free list. */
  lemma DistinctConcat<T>(a: seq<T>, b: seq<T>)
    requires Distinct(a) && Distinct(b)
    requires forall x :: x in a ==> x !in b
    ensures Distinct(a + b)
  {
    forall i, j | 0 <= i < j < |a + b|
      ensures (a + b)[i] != (a + b)[j]
    {
      if j < |a| {
        assert (a + b)[i] == a[i] && (a + b)[j] == a[j];
      } else if i >= |a| {
        assert (a + b)[i] == b[i - |a|] && (a + b)[j] == b[j - |a|];
      } else {
        assert (a + b)[i] == a[i] && (a + b)[j] == b[j - |a|];
        assert a[i] in a && a[i] !in b;
      }
    }
  }

  /** The age-based items never repeat. */
  lemma AgeItemsDistinct(age: int)
    ensures Distinct(AgeItems(age))
  {
  }

  /** The condition items never repeat. */
  lemma ConditionItemsDistinct(h: string)
    ensures Distinct(ConditionItems(h))
  {
  }

  /** No item is named twice. */
  lemma AccommodationsDistinct(age: int, h: string, allergies: Option<string>)
    ensures Distinct(AccommodationsFor(age, h, allergies))
  {
    var a := AgeItems(age);
    var c := ConditionItems(h);
    var e := AllergyItems(allergies);
    AgeItemsDistinct(age);
    ConditionItemsDistinct(h);
    assert forall x :: x in a ==> x !in c;
    DistinctConcat(a, c);
    assert forall x :: x in a + c ==> x !in e;
    DistinctConcat(a + c, e);
    assert AccommodationsFor(age, h, allergies) == a + c + e;
  }

  /** The per-day limit: 2 for High or Critical risk, else 2 from age 75, else 1 under 12, else 3. */
  function SameDayLimit(level: RiskLevel, age: int): (n: nat)
    ensures 1 <= n <= 3
    ensures Rank(level) >= Rank(High) ==> n == 2
    ensures n == 1 <==> Rank(level) < Rank(High) && age < 12
    ensures Rank(level) < Rank(High) && age >= 75 ==> n == 2
    ensures n == 3 <==> Rank(level) < Rank(High) && 12 <= age < 75
  {
    if level == High || level == Critical then 2
    else if age >= 75 then 2
    else if age < 12 then 1
    else 3
  }

  /** `CanHaveMultipleAppointmentsSameDay`: fewer existing appointments that day than the limit. */
  function CanHaveMultipleAppointmentsSameDay(p: Patient, today: CivilDate, existing: seq<Appointment>): (r: bool)
    ensures r <==> |existing| < SameDayLimit(CalculateRiskLevel(p, today), PatientEntity.Age(p, today))
    ensures |existing| >= 3 ==> !r
    ensures existing == [] ==> r
    ensures var level, age := CalculateRiskLevel(p, today), PatientEntity.Age(p, today);
            (Rank(level) >= Rank(High) || age >= 75 ==> (r <==> |existing| < 2)) &&
            (Rank(level) < Rank(High) && age < 12 ==> (r <==> existing == [])) &&
            (Rank(level) < Rank(High) && 12 <= age < 75 ==> (r <==> |existing| < 3))
  {
    |existing| < SameDayLimit(CalculateRiskLevel(p, today), PatientEntity.Age(p, today))
  }

  /** A high-risk child is held to the risk rule's 2, not the child rule's 1. */
  lemma HighRiskChildGetsTwo(p: Patient, today: CivilDate, a1: Appointment)
    requires PatientEntity.Age(p, today) < 12 && CalculateRiskLevel(p, today) == High
    ensures CanHaveMultipleAppointmentsSameDay(p, today, [a1])
    ensures SameDayLimit(CalculateRiskLevel(p, today), PatientEntity.Age(p, today)) == 2
  {
  }

  /** Removing appointments from the day never turns an allowed booking into a refused one. */
  lemma FewerExistingStillAllowed(p: Patient, today: CivilDate, existing: seq<Appointment>, k: nat)
    requires k <= |existing| && CanHaveMultipleAppointmentsSameDay(p, today, existing)
    ensures CanHaveMultipleAppointmentsSameDay(p, today, existing[..k])
  {
  }
}
