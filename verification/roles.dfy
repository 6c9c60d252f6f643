/** The six roles of `ClinicRoles` and their names as they appear in role claims. */
module Roles {
  import opened Wrappers

  datatype Role = Admin | Manager | Doctor | Nurse | Receptionist | Patient

  function RoleName(r: Role): string
  {
    match r
    case Admin => "Admin"
    case Manager => "Manager"
    case Doctor => "Doctor"
    case Nurse => "Nurse"
    case Receptionist => "Receptionist"
    case Patient => "Patient"
  }

  /** The role a name denotes, matched exactly; `None` for anything else. */
  function ParseRole(s: string): Option<Role>
  {
    match s
    case "Admin" => Some(Admin)
    case "Manager" => Some(Manager)
    case "Doctor" => Some(Doctor)
    case "Nurse" => Some(Nurse)
    case "Receptionist" => Some(Receptionist)
    case "Patient" => Some(Patient)
    case _ => None
  }

  /** Every role's name reads back as that role, and only role names parse. */
  lemma RoleNameRoundTrip(r: Role, s: string)
    ensures ParseRole(RoleName(r)) == Some(r)
    ensures ParseRole(s).Some? ==> RoleName(ParseRole(s).value) == s
  {
  }
}
