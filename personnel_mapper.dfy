/** Conversions between the staff entity and its transfer object. The password hash never crosses. */
module PersonnelMapper {
  import opened Wrappers
  import opened Enums
  import opened Errors
  import opened Entities
  import opened Dtos

  /** `roleToString`: the role name, null for null. */
  function RoleToString(r: Option<RolePersonnel>): (t: Option<string>)
    ensures t.None? <==> r.None?
    ensures r.Some? ==> t == Some(r.value.Name())
  {
    if r.Some? then Some(r.value.Name()) else None
  }

  /** `stringToRole`: null stays null; a string that names no role throws. */
  function StringToRole(t: Option<string>): (r: Result<Option<RolePersonnel>, Error>)
    ensures t.None? ==> r == Success(None)
    ensures t.Some? ==> (r.Success? <==> exists ro: RolePersonnel :: ro.Name() == t.value)
    ensures t.Some? && r.Success? ==> r.value.Some? && r.value.value.Name() == t.value
    ensures r.Failure? ==> t.Some? && r.error == IllegalEnumName(t.value)
  {
    if t.None? then Success(None)
    else match RoleValueOf(t.value)
      case Some(ro) => Success(Some(ro))
      case None => Failure(IllegalEnumName(t.value))
  }

  /** The name of a role reads back as that role, null included. */
  lemma RoleRoundTrip(r: Option<RolePersonnel>)
    ensures StringToRole(RoleToString(r)) == Success(r)
  {
  }

  /** `toDto`: every field but the password hash, which the view does not have. */
  function ToDto(p: Personnel): (d: PersonnelDto)
    ensures d.codePersonnel == p.codePersonnel && d.nomPersonnel == p.nomPersonnel && d.loginPersonnel == p.loginPersonnel
    ensures d.sexePersonnel == p.sexePersonnel && d.phonePersonnel == p.phonePersonnel
    ensures d.rolePersonnel == RoleToString(p.rolePersonnel)
  {
    PersonnelDto(p.codePersonnel, p.nomPersonnel, p.loginPersonnel, p.sexePersonnel, p.phonePersonnel, RoleToString(p.rolePersonnel))
  }

  /** Two staff members that differ only in their password hash have the same view. */
  lemma ViewHidesPassword(p: Personnel, q: Personnel)
    requires p.(padPersonnel := q.padPersonnel) == q
    ensures ToDto(p) == ToDto(q)
  {
  }

  /** `toEntity`: never sets the password hash; fails exactly when the role string names no role. */
  function ToEntity(d: PersonnelDto): (r: Result<Personnel, Error>)
    ensures r.Success? <==> StringToRole(d.rolePersonnel).Success?
    ensures r.Success? ==> r.value.padPersonnel.None? && r.value.codePersonnel == d.codePersonnel
    ensures r.Success? ==> r.value.nomPersonnel == d.nomPersonnel && r.value.loginPersonnel == d.loginPersonnel
    ensures r.Success? ==> r.value.sexePersonnel == d.sexePersonnel && r.value.phonePersonnel == d.phonePersonnel
    ensures r.Success? ==> Success(r.value.rolePersonnel) == StringToRole(d.rolePersonnel)
    ensures r.Failure? ==> r.error == IllegalEnumName(d.rolePersonnel.value)
  {
    match StringToRole(d.rolePersonnel)
    case Success(ro) => Success(Personnel(d.codePersonnel, d.nomPersonnel, d.loginPersonnel, None, d.sexePersonnel, d.phonePersonnel, ro))
    case Failure(e) => Failure(e)
  }

  /** A transfer object whose role is null or a valid name survives the trip to an entity and back. */
  lemma DtoRoundTrip(d: PersonnelDto)
    requires d.rolePersonnel.None? || RoleValueOf(d.rolePersonnel.value).Some?
    ensures ToEntity(d).Success? && ToDto(ToEntity(d).value) == d
  {
  }

  /** An entity comes back from its view with everything but the hash, which is lost. */
  lemma EntityRoundTrip(p: Personnel)
    ensures ToEntity(ToDto(p)) == Success(p.(padPersonnel := None))
  {
  }

  /** `toDtoList`: element by element, in order. */
  function ToDtoList(ps: seq<Personnel>): (ds: seq<PersonnelDto>)
    ensures |ds| == |ps| && forall i | 0 <= i < |ps| :: ds[i] == ToDto(ps[i])
  {
    if ps == [] then [] else [ToDto(ps[0])] + ToDtoList(ps[1..])
  }
}
