/**
 * The FluentValidation rule sets for creating appointments and patients and for registering
 * users (the files under Application/Validators). Each validator lists the rules an input breaks,
 * in declaration order; the input is accepted when the list is empty. `EmailAddress()` belongs to
 * the validation library and is a parameter; the regular expressions are written out as character
 * predicates, ASCII digits standing for `\d`.
 */
module Validators {
  import opened Wrappers
  import opened Clock
  import opened Model
  import opened Text
  import opened Calendar
  import Roles
  import AppointmentService

  /** `NotEmpty()` on a string: not null, not empty and not only white space. */
  predicate Present(s: string)
  {
    !IsBlank(s)
  }

  /**
   * `MaximumLength(n).When(x => !string.IsNullOrEmpty(x))`: the limit applies only to a non-empty
   * value, and counts UTF-16 code units as `string.Length` does.
   */
  predicate OptionalWithin(s: Option<string>, n: nat)
  {
    IsNullOrEmpty(s) || Utf16Length(s.value) <= n
  }

  /** Adds `rule` to the list when `ok` fails. */
  function Check<R>(ok: bool, rule: R): (v: seq<R>)
    ensures ok <==> v == []
    ensures !ok ==> v == [rule]
  {
    if ok then [] else [rule]
  }

  // ---------------------------------------------------------------- phone numbers

  /** One character of the class `[\d\s\-\(\)]`. */
  predicate PhoneChar(c: char)
  {
    ('0' <= c <= '9') || IsWhiteSpaceChar(c) || c == '-' || c == '(' || c == ')'
  }

  /** One or more characters of that class. */
  predicate PhoneBody(t: string)
  {
    |t| >= 1 && forall i :: 0 <= i < |t| ==> PhoneChar(t[i])
  }

  /** `^\+?[\d\s\-\(\)]+$`: an optional plus sign, then the body. */
  predicate MatchesPhonePattern(s: string)
  {
    PhoneBody(s) || (|s| >= 1 && s[0] == '+' && PhoneBody(s[1..]))
  }

  /** A plus sign can only lead; it never occurs further in, and a phone number is never empty. */
  lemma PhonePlusOnlyFirst(s: string)
    requires MatchesPhonePattern(s)
    ensures |s| >= 1
    ensures forall i :: 1 <= i < |s| ==> s[i] != '+'
  {
    if !PhoneBody(s) {
      forall i | 1 <= i < |s|
        ensures s[i] != '+'
      {
        assert s[i] == s[1..][i - 1];
      }
    }
  }

  /** A formatted international number passes; a dotted one does not. */
  lemma PhoneExamples()
    ensures MatchesPhonePattern("+1 (555) 123-4567")
    ensures !MatchesPhonePattern("555.1234")
  {
    var s := "+1 (555) 123-4567";
    assert s[1..] == "1 (555) 123-4567";
    assert PhoneBody(s[1..]);
    var t := "555.1234";
    assert !PhoneChar(t[3]);
  }

  // ---------------------------------------------------------------- appointments

  datatype AppointmentRule =
    | PatientIdPositive
    | DoctorIdPositive
    | DateRequired
    | DateInAdvance
    | DurationRequired
    | DurationAtLeast15
    | DurationAtMost480
    | DurationIn15MinuteSteps
    | ReasonLength
    | NotesLength

  /** The four duration rules together: a whole number of quarter hours from 15 minutes to 8 hours. */
  predicate ValidDuration(d: int)
  {
    d != 0 && d >= Minutes(15) && d <= Minutes(480) && d % Minutes(15) == 0
  }

  /** The date rules: set, and more than 30 minutes after `now`. */
  function DateViolations(date: int, now: int): (v: seq<AppointmentRule>)
    ensures v == [] <==> date != 0 && date > now + Minutes(30)
    ensures DateInAdvance in v <==> date <= now + Minutes(30)
  {
    Check(date != 0, DateRequired) + Check(date > now + Minutes(30), DateInAdvance)
  }

  /**
   * The duration rules. The duration's `TotalMinutes` is a fraction of minutes, so a 15-minute
   * step means a whole number of quarter hours in ticks.
   */
  function DurationViolations(d: int): (v: seq<AppointmentRule>)
    ensures v == [] <==> ValidDuration(d)
    ensures DurationAtLeast15 in v <==> d < Minutes(15)
  {
    Check(d != 0, DurationRequired)
    + Check(d >= Minutes(15), DurationAtLeast15)
    + Check(d <= Minutes(480), DurationAtMost480)
    + Check(d % Minutes(15) == 0, DurationIn15MinuteSteps)
  }

  /** `CreateAppointmentCommandValidator`, with `now` the time the validator was built. */
  function AppointmentViolations(c: AppointmentService.NewAppointment, now: int): (v: seq<AppointmentRule>)
    ensures v == [] <==> && c.patientId > 0 && c.doctorId > 0
                         && DateViolations(c.date, now) == []
                         && ValidDuration(c.duration)
                         && OptionalWithin(c.reasonForVisit, 100) && OptionalWithin(c.notes, 1000)
  {
    Check(c.patientId > 0, PatientIdPositive)
    + Check(c.doctorId > 0, DoctorIdPositive)
    + DateViolations(c.date, now)
    + DurationViolations(c.duration)
    + Check(OptionalWithin(c.reasonForVisit, 100), ReasonLength)
    + Check(OptionalWithin(c.notes, 1000), NotesLength)
  }

  /** The 32 accepted durations: 15, 30, ..., 480 minutes. */
  function AcceptedDurations(): (r: seq<int>)
    ensures |r| == 32
  {
    seq(32, i => Minutes(15 * (i + 1)))
  }

  /** A duration is accepted exactly when it is one of the 32 quarter-hour steps. */
  lemma AcceptedDurationsExactly(d: int)
    ensures ValidDuration(d) <==> d in AcceptedDurations()
  {
    var q := Minutes(15);
    if ValidDuration(d) {
      var k := d / q;
      assert d == q * k;
      assert 1 <= k <= 32;
      assert AcceptedDurations()[k - 1] == d;
    }
    if d in AcceptedDurations() {
      var i :| 0 <= i < 32 && AcceptedDurations()[i] == d;
      assert d == q * (i + 1);
    }
  }

  /** Zero, 10, 20 and 495 minutes are refused; 15 minutes and 8 hours are accepted. */
  lemma DurationExamples()
    ensures !ValidDuration(0) && !ValidDuration(Minutes(10)) && !ValidDuration(Minutes(20)) && !ValidDuration(Minutes(495))
    ensures ValidDuration(Minutes(15)) && ValidDuration(Minutes(480))
  {
  }

  /**
   * At the same `now`, a request the validator accepts also passes the scheduling rule's check
   * that the appointment lies in the future.
   */
  lemma AcceptedDateIsFuture(c: AppointmentService.NewAppointment, now: int)
    requires AppointmentViolations(c, now) == []
    ensures c.date > now
  {
  }

  // ---------------------------------------------------------------- patients

  datatype PatientRule =
    | FirstNameRequired
    | FirstNameLength
    | LastNameRequired
    | LastNameLength
    | EmailRequired
    | EmailFormat
    | EmailLength
    | PhoneRequired
    | PhoneFormat
    | PhoneLength
    | BirthDateRequired
    | BirthDateInPast
    | BirthDateWithin150Years
    | GenderRequired
    | GenderValue
    | AddressLength
    | BloodTypeValue
    | MedicalHistoryLength
    | AllergiesLength
    | EmergencyContactLength
    | EmergencyPhoneFormat
    | EmergencyPhoneLength

  predicate ValidGender(g: string)
  {
    g == "Male" || g == "Female" || g == "Other"
  }

  predicate ValidBloodType(b: string)
  {
    b in ["A+", "A-", "B+", "B-", "AB+", "AB-", "O+", "O-"]
  }

  /** The first-name, last-name and email rules, shared by patients and registrations. */
  function NameEmailViolations(first: string, last: string, email: string, isEmail: string -> bool): (v: seq<PatientRule>)
    ensures v == [] <==> && Present(first) && Utf16Length(first) <= 100 && Present(last) && Utf16Length(last) <= 100
                         && Present(email) && isEmail(email) && Utf16Length(email) <= 255
  {
    Check(Present(first), FirstNameRequired) + Check(Utf16Length(first) <= 100, FirstNameLength)
    + Check(Present(last), LastNameRequired) + Check(Utf16Length(last) <= 100, LastNameLength)
    + Check(Present(email), EmailRequired) + Check(isEmail(email), EmailFormat) + Check(Utf16Length(email) <= 255, EmailLength)
  }

  /**
   * Lengths are UTF-16 code units: a first name of 51 emoji is 102 units long and breaks the
   * 100-character limit.
   */
  lemma AstralNameTooLong(last: string, email: string, isEmail: string -> bool)
    ensures var first := seq(51, _ => '\U{1F600}');
            |first| == 51 && FirstNameLength in NameEmailViolations(first, last, email, isEmail)
  {
    var first := seq(51, _ => '\U{1F600}');
    assert forall i :: 0 <= i < |first| ==> IsAstral(first[i]);
    assert Utf16Length(first) == 102;
  }

  /** The phone rules: required, the phone pattern, at most 20 UTF-16 code units. */
  function PhoneViolations(phone: string): (v: seq<PatientRule>)
    ensures v == [] <==> Present(phone) && MatchesPhonePattern(phone) && Utf16Length(phone) <= 20
  {
    Check(Present(phone), PhoneRequired) + Check(MatchesPhonePattern(phone), PhoneFormat) + Check(Utf16Length(phone) <= 20, PhoneLength)
  }

  /** The date-of-birth rules: after the same day 150 years back and before today. */
  function BirthDateViolations(dob: CivilDate, today: CivilDate): (v: seq<PatientRule>)
    ensures v == [] <==> dob != Date(1, 1, 1) && Before(dob, today) && Before(AddYears(today, -150), dob)
  {
    Check(dob != Date(1, 1, 1), BirthDateRequired)
    + Check(Before(dob, today), BirthDateInPast)
    + Check(Before(AddYears(today, -150), dob), BirthDateWithin150Years)
  }

  /** The optional fields' rules, each applied only to a non-empty value. */
  function OptionalFieldViolations(n: NewPatient): (v: seq<PatientRule>)
    ensures v == [] <==> && OptionalWithin(n.address, 500)
                         && (IsNullOrEmpty(n.bloodType) || ValidBloodType(n.bloodType.value))
                         && OptionalWithin(n.medicalHistory, 1000) && OptionalWithin(n.allergies, 500)
                         && OptionalWithin(n.emergencyContact, 500)
                         && (IsNullOrEmpty(n.emergencyContactPhone) || MatchesPhonePattern(n.emergencyContactPhone.value))
                         && OptionalWithin(n.emergencyContactPhone, 20)
  {
    Check(OptionalWithin(n.address, 500), AddressLength)
    + Check(IsNullOrEmpty(n.bloodType) || ValidBloodType(n.bloodType.value), BloodTypeValue)
    + Check(OptionalWithin(n.medicalHistory, 1000), MedicalHistoryLength)
    + Check(OptionalWithin(n.allergies, 500), AllergiesLength)
    + Check(OptionalWithin(n.emergencyContact, 500), EmergencyContactLength)
    + Check(IsNullOrEmpty(n.emergencyContactPhone) || MatchesPhonePattern(n.emergencyContactPhone.value), EmergencyPhoneFormat)
    + Check(OptionalWithin(n.emergencyContactPhone, 20), EmergencyPhoneLength)
  }

  /** `CreatePatientCommandValidator`, with today's date as a parameter. */
  function PatientViolations(n: NewPatient, today: CivilDate, isEmail: string -> bool): (v: seq<PatientRule>)
    ensures v == [] <==> && NameEmailViolations(n.firstName, n.lastName, n.email, isEmail) == []
                         && PhoneViolations(n.phoneNumber) == []
                         && BirthDateViolations(n.dateOfBirth, today) == []
                         && Present(n.gender) && ValidGender(n.gender)
                         && OptionalFieldViolations(n) == []
  {
    NameEmailViolations(n.firstName, n.lastName, n.email, isEmail)
    + PhoneViolations(n.phoneNumber)
    + BirthDateViolations(n.dateOfBirth, today)
    + Check(Present(n.gender), GenderRequired) + Check(ValidGender(n.gender), GenderValue)
    + OptionalFieldViolations(n)
  }

  /** Gender is matched exactly: "male" is refused. */
  lemma GenderIsCaseSensitive()
    ensures !ValidGender("male") && ValidGender("Male")
  {
    assert "male"[0] != "Male"[0];
  }

  /** An accepted patient was born before today and is at most 150 years old on it. */
  lemma AcceptedPatientAge(n: NewPatient, today: CivilDate, isEmail: string -> bool)
    requires PatientViolations(n, today, isEmail) == []
    ensures 0 <= AgeOn(n.dateOfBirth, today) <= 150
  {
    AgeCharacterization(n.dateOfBirth, today);
  }

  // ---------------------------------------------------------------- registration

  datatype RegisterCommand = RegisterCommand(
    firstName: string,
    lastName: string,
    email: string,
    password: string,
    phoneNumber: string,
    role: string,
    gender: Option<string>,
    address: Option<string>,
    department: Option<string>,
    employeeId: Option<string>)

  datatype RegisterRule =
    | NameOrEmail(rule: PatientRule)
    | PasswordRequired
    | PasswordTooShort
    | PasswordTooLong
    | PasswordCharacterClasses
    | Phone(rule: PatientRule)
    | RoleRequired
    | RoleValue
    | GenderChoice
    | AddressTooLong
    | DepartmentTooLong
    | EmployeeIdTooLong

  /** The text before the first line break: what `.` in a lookahead can reach. */
  function FirstLine(s: string): (r: string)
    ensures |r| <= |s| && r == s[..|r|]
    ensures '\n' !in r
    ensures |r| < |s| ==> s[|r|] == '\n'
  {
    if s == [] || s[0] == '\n' then [] else [s[0]] + FirstLine(s[1..])
  }

  /**
   * `^(?=.*[a-z])(?=.*[A-Z])(?=.*\d)`: a lowercase letter, an uppercase letter and a digit, each
   * somewhere before the first line break.
   */
  predicate PasswordClasses(s: string)
  {
    var line := FirstLine(s);
    && (exists i :: 0 <= i < |line| && 'a' <= line[i] <= 'z')
    && (exists i :: 0 <= i < |line| && 'A' <= line[i] <= 'Z')
    && (exists i :: 0 <= i < |line| && '0' <= line[i] <= '9')
  }

  /** Tags the shared rules as registration rules. */
  function AsNameOrEmail(v: seq<PatientRule>): (r: seq<RegisterRule>)
    ensures |r| == |v| && (r == [] <==> v == [])
  {
    seq(|v|, i requires 0 <= i < |v| => NameOrEmail(v[i]))
  }

  function AsPhone(v: seq<PatientRule>): (r: seq<RegisterRule>)
    ensures |r| == |v| && (r == [] <==> v == [])
  {
    seq(|v|, i requires 0 <= i < |v| => Phone(v[i]))
  }

  /** The password rules: required, 6 to 128 UTF-16 code units, and the three character classes. */
  function PasswordViolations(password: string): (v: seq<RegisterRule>)
    ensures v == [] <==> Present(password) && 6 <= Utf16Length(password) <= 128 && PasswordClasses(password)
  {
    Check(Present(password), PasswordRequired)
    + Check(Utf16Length(password) >= 6, PasswordTooShort)
    + Check(Utf16Length(password) <= 128, PasswordTooLong)
    + Check(PasswordClasses(password), PasswordCharacterClasses)
  }

  /** The role rules: required and one of the six role names. */
  function RoleViolations(role: string): (v: seq<RegisterRule>)
    ensures v == [] <==> Present(role) && Roles.ParseRole(role).Some?
  {
    Check(Present(role), RoleRequired) + Check(Roles.ParseRole(role).Some?, RoleValue)
  }

  /** The optional fields' rules, each applied only to a non-empty value. */
  function OptionalRegisterViolations(c: RegisterCommand): (v: seq<RegisterRule>)
    ensures v == [] <==> && (IsNullOrEmpty(c.gender) || ValidGender(c.gender.value))
                         && OptionalWithin(c.address, 500) && OptionalWithin(c.department, 100)
                         && OptionalWithin(c.employeeId, 50)
  {
    Check(IsNullOrEmpty(c.gender) || ValidGender(c.gender.value), GenderChoice)
    + Check(OptionalWithin(c.address, 500), AddressTooLong)
    + Check(OptionalWithin(c.department, 100), DepartmentTooLong)
    + Check(OptionalWithin(c.employeeId, 50), EmployeeIdTooLong)
  }

  /** `RegisterCommandValidator`. */
  function RegisterViolations(c: RegisterCommand, isEmail: string -> bool): (v: seq<RegisterRule>)
    ensures v == [] <==> && NameEmailViolations(c.firstName, c.lastName, c.email, isEmail) == []
                         && PasswordViolations(c.password) == []
                         && PhoneViolations(c.phoneNumber) == []
                         && RoleViolations(c.role) == []
                         && OptionalRegisterViolations(c) == []
  {
    AsNameOrEmail(NameEmailViolations(c.firstName, c.lastName, c.email, isEmail))
    + PasswordViolations(c.password)
    + AsPhone(PhoneViolations(c.phoneNumber))
    + RoleViolations(c.role)
    + OptionalRegisterViolations(c)
  }

  /** Without a line break the whole password is its first line. */
  lemma {:induction false} FirstLineWhole(s: string)
    requires '\n' !in s
    ensures FirstLine(s) == s
  {
    if s != [] {
      assert s[0] in s;
      assert forall i :: 0 <= i < |s[1..]| ==> s[1..][i] == s[i + 1];
      FirstLineWhole(s[1..]);
    }
  }

  /** The first line ends at the first line break. */
  lemma {:induction false} FirstLineStopsAtBreak(s: string, k: nat)
    requires k < |s| && s[k] == '\n' && '\n' !in s[..k]
    ensures FirstLine(s) == s[..k]
  {
    if k > 0 {
      assert s[0] == s[..k][0];
      assert s[1..][..k - 1] == s[..k][1..];
      var t := s[1..][..k - 1];
      assert '\n' !in t by {
        forall i | 0 <= i < |t| ensures t[i] != '\n' {
          assert t[i] == s[..k][i + 1];
        }
      }
      FirstLineStopsAtBreak(s[1..], k - 1);
    }
  }

  /** The character classes must all appear before the first line break. */
  lemma PasswordExamples()
    ensures PasswordClasses("Abc123")
    ensures !PasswordClasses("abc\nAB1")
  {
    var s := "Abc123";
    assert '\n' !in s;
    FirstLineWhole(s);
    assert 'a' <= s[1] <= 'z' && 'A' <= s[0] <= 'Z' && '0' <= s[3] <= '9';
    var t := "abc\nAB1";
    assert t[..3] == "abc";
    FirstLineStopsAtBreak(t, 3);
    assert forall i :: 0 <= i < |t[..3]| ==> !('A' <= t[..3][i] <= 'Z');
  }

  /** The roles accepted at registration are exactly the six of `ClinicRoles`. */
  lemma RegisterRoles(role: string)
    ensures Roles.ParseRole(role).Some? <==> exists r: Roles.Role :: Roles.RoleName(r) == role
  {
    if Roles.ParseRole(role).Some? {
      Roles.RoleNameRoundTrip(Roles.ParseRole(role).value, role);
    }
  }

  /** A registration and a patient with the same names and email meet or break those rules alike. */
  lemma RegisterNamesMatchPatient(c: RegisterCommand, n: NewPatient, today: CivilDate, isEmail: string -> bool)
    requires c.firstName == n.firstName && c.lastName == n.lastName && c.email == n.email
    requires RegisterViolations(c, isEmail) == []
    ensures NameEmailViolations(n.firstName, n.lastName, n.email, isEmail) == []
  {
  }
}
