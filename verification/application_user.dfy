/** The behaviour of the `ApplicationUser` domain entity (Domain/Entities/ApplicationUser.cs). */
module ApplicationUserEntity {
  import opened Wrappers
  import Text

  datatype ApplicationUser = ApplicationUser(
    firstName: string,
    lastName: string,
    employeeId: Option<string>,
    patientId: Option<int>,
    doctorId: Option<int>,
    isActive: bool)

  /** `GetFullName`. */
  function FullName(u: ApplicationUser): (r: string)
    ensures |r| == |u.firstName| + 1 + |u.lastName|
    ensures r[..|u.firstName|] == u.firstName && r[|u.firstName|] == ' ' && r[|u.firstName| + 1..] == u.lastName
  {
    Text.FullName(u.firstName, u.lastName)
  }

  /** `IsStaff`: the user has a non-empty employee id; a blank one still counts. */
  function IsStaff(u: ApplicationUser): (r: bool)
    ensures r <==> u.employeeId.Some? && |u.employeeId.value| > 0
  {
    !Text.IsNullOrEmpty(u.employeeId)
  }

  /** `IsPatientUser`: the account is linked to some patient. */
  function IsPatientUser(u: ApplicationUser): (r: bool)
    ensures r <==> u.patientId != None
  {
    u.patientId.Some?
  }

  /** `IsDoctorUser`: the account is linked to some doctor. */
  function IsDoctorUser(u: ApplicationUser): (r: bool)
    ensures r <==> u.doctorId != None
  {
    u.doctorId.Some?
  }

  /** The patient link, the doctor link and the employee id are independent: setting one leaves the others' tests alone. */
  lemma LinksAreIndependent(u: ApplicationUser, patientId: Option<int>, doctorId: Option<int>, employeeId: Option<string>)
    ensures IsPatientUser(u.(doctorId := doctorId, employeeId := employeeId)) == IsPatientUser(u)
    ensures IsDoctorUser(u.(patientId := patientId, employeeId := employeeId)) == IsDoctorUser(u)
    ensures IsStaff(u.(patientId := patientId, doctorId := doctorId)) == IsStaff(u)
    ensures IsPatientUser(u.(patientId := patientId)) <==> patientId.Some?
  {
  }

  /** An employee id of a single space makes a staff member, although it is blank. */
  lemma BlankEmployeeIdIsStaff(u: ApplicationUser)
    requires u.employeeId == Some(" ")
    ensures IsStaff(u) && Text.IsNullOrWhiteSpace(u.employeeId)
  {
  }
}
