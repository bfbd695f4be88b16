/**
 * The three closed enumerations of the domain, with their `name()` and
 * `valueOf` conversions. `valueOf` of a string that names no constant is
 * Java's IllegalArgumentException, modelled as `None`.
 */
module Enums {
  import opened Wrappers
  import opened Errors

  /** The state of a booking. */
  datatype StatutProgrammation = PROGRAMMER | VALIDER | NON_VALIDER {
    function Name(): string {
      match this
      case PROGRAMMER => "PROGRAMMER"
      case VALIDER => "VALIDER"
      case NON_VALIDER => "NON_VALIDER"
    }
  }

  /** The state of a room. */
  datatype SalleStatus = LIBRE | OCCUPE | FERMER {
    function Name(): string {
      match this
      case LIBRE => "LIBRE"
      case OCCUPE => "OCCUPE"
      case FERMER => "FERMER"
    }
  }

  /** The role of a staff member. */
  datatype RolePersonnel = ENSEIGNANT | RESPONSABLE_ACADEMIQUE | RESPONSABLE_DISCIPLINE | RESPONSABLE_PERSONNEL {
    function Name(): string {
      match this
      case ENSEIGNANT => "ENSEIGNANT"
      case RESPONSABLE_ACADEMIQUE => "RESPONSABLE_ACADEMIQUE"
      case RESPONSABLE_DISCIPLINE => "RESPONSABLE_DISCIPLINE"
      case RESPONSABLE_PERSONNEL => "RESPONSABLE_PERSONNEL"
    }
  }

  /** `StatutProgrammation.valueOf(name)`: the constant whose name is exactly `name`, if any. */
  function StatutValueOf(name: string): (r: Option<StatutProgrammation>)
    ensures forall s: StatutProgrammation :: r == Some(s) <==> s.Name() == name
  {
    if name == "PROGRAMMER" then Some(PROGRAMMER)
    else if name == "VALIDER" then Some(VALIDER)
    else if name == "NON_VALIDER" then Some(NON_VALIDER)
    else None
  }

  /** `SalleStatus.valueOf(name)`. */
  function SalleStatusValueOf(name: string): (r: Option<SalleStatus>)
    ensures forall s: SalleStatus :: r == Some(s) <==> s.Name() == name
  {
    if name == "LIBRE" then Some(LIBRE)
    else if name == "OCCUPE" then Some(OCCUPE)
    else if name == "FERMER" then Some(FERMER)
    else None
  }

  /** `RolePersonnel.valueOf(name)`. */
  function RoleValueOf(name: string): (r: Option<RolePersonnel>)
    ensures forall s: RolePersonnel :: r == Some(s) <==> s.Name() == name
  {
    if name == "ENSEIGNANT" then Some(ENSEIGNANT)
    else if name == "RESPONSABLE_ACADEMIQUE" then Some(RESPONSABLE_ACADEMIQUE)
    else if name == "RESPONSABLE_DISCIPLINE" then Some(RESPONSABLE_DISCIPLINE)
    else if name == "RESPONSABLE_PERSONNEL" then Some(RESPONSABLE_PERSONNEL)
    else None
  }

  /** `StatutProgrammation.valueOf` on a possibly null string: null throws a NullPointerException, an unknown name an IllegalArgumentException. */
  function StatutFromName(name: Option<string>): (r: Result<StatutProgrammation, Error>)
    ensures name.None? ==> r == Failure(NullPointer)
    ensures name.Some? ==> forall s: StatutProgrammation :: r == Success(s) <==> s.Name() == name.value
    ensures name.Some? && r.Failure? ==> r.error == IllegalEnumName(name.value)
  {
    if name.None? then Failure(NullPointer)
    else match StatutValueOf(name.value)
      case Some(s) => Success(s)
      case None => Failure(IllegalEnumName(name.value))
  }

  /** `SalleStatus.valueOf` on a possibly null string. */
  function SalleStatusFromName(name: Option<string>): (r: Result<SalleStatus, Error>)
    ensures name.None? ==> r == Failure(NullPointer)
    ensures name.Some? ==> forall s: SalleStatus :: r == Success(s) <==> s.Name() == name.value
    ensures name.Some? && r.Failure? ==> r.error == IllegalEnumName(name.value)
  {
    if name.None? then Failure(NullPointer)
    else match SalleStatusValueOf(name.value)
      case Some(s) => Success(s)
      case None => Failure(IllegalEnumName(name.value))
  }

  /** `RolePersonnel.valueOf` on a possibly null string. */
  function RoleFromName(name: Option<string>): (r: Result<RolePersonnel, Error>)
    ensures name.None? ==> r == Failure(NullPointer)
    ensures name.Some? ==> forall s: RolePersonnel :: r == Success(s) <==> s.Name() == name.value
    ensures name.Some? && r.Failure? ==> r.error == IllegalEnumName(name.value)
  {
    if name.None? then Failure(NullPointer)
    else match RoleValueOf(name.value)
      case Some(s) => Success(s)
      case None => Failure(IllegalEnumName(name.value))
  }
}
