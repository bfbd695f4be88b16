/** Conversions between the room entity and its transfer object. */
module SalleMapper {
  import opened Wrappers
  import opened Enums
  import opened Errors
  import opened Entities
  import opened Dtos

  /** `enumToString`: the status name, null for null. */
  function EnumToString(s: Option<SalleStatus>): (r: Option<string>)
    ensures r.None? <==> s.None?
    ensures s.Some? ==> r == Some(s.value.Name())
  {
    if s.Some? then Some(s.value.Name()) else None
  }

  /** `stringToEnum`: null stays null; a string that names no status throws. */
  function StringToEnum(t: Option<string>): (r: Result<Option<SalleStatus>, Error>)
    ensures t.None? ==> r == Success(None)
    ensures t.Some? ==> (r.Success? <==> exists s: SalleStatus :: s.Name() == t.value)
    ensures t.Some? && r.Success? ==> r.value.Some? && r.value.value.Name() == t.value
    ensures r.Failure? ==> t.Some? && r.error == IllegalEnumName(t.value)
  {
    if t.None? then Success(None)
    else match SalleStatusValueOf(t.value)
      case Some(s) => Success(Some(s))
      case None => Failure(IllegalEnumName(t.value))
  }

  /** The name of a status reads back as that status, null included. */
  lemma StatusRoundTrip(s: Option<SalleStatus>)
    ensures StringToEnum(EnumToString(s)) == Success(s)
  {
  }

  /** A string that converts reads back as itself. */
  lemma NameRoundTrip(t: Option<string>)
    requires StringToEnum(t).Success?
    ensures EnumToString(StringToEnum(t).value) == t
  {
  }

  /** `toDto`: the description comes from `descSalle` and the status travels as its name. */
  function ToDto(s: Salle): (d: SalleDto)
    ensures d.codeSalle == s.codeSalle && d.description == s.descSalle && d.contenance == s.contenance
    ensures d.statusSalle == EnumToString(s.statutSalle)
  {
    SalleDto(s.codeSalle, s.descSalle, s.contenance, EnumToString(s.statutSalle))
  }

  /** `toEntity`: fails exactly when the status string names no status. */
  function ToEntity(d: SalleDto): (r: Result<Salle, Error>)
    ensures r.Success? <==> StringToEnum(d.statusSalle).Success?
    ensures r.Success? ==> r.value.codeSalle == d.codeSalle && r.value.descSalle == d.description
    ensures r.Success? ==> r.value.contenance == d.contenance && Success(r.value.statutSalle) == StringToEnum(d.statusSalle)
  {
    match StringToEnum(d.statusSalle)
    case Success(st) => Success(Salle(d.codeSalle, d.description, d.contenance, st))
    case Failure(e) => Failure(e)
  }

  /** A transfer object whose status is null or a valid name survives the trip to an entity and back unchanged. */
  lemma DtoRoundTrip(d: SalleDto)
    requires d.statusSalle.None? || SalleStatusValueOf(d.statusSalle.value).Some?
    ensures ToEntity(d).Success? && ToDto(ToEntity(d).value) == d
  {
  }

  /** Every entity survives the trip to a transfer object and back. */
  lemma EntityRoundTrip(s: Salle)
    ensures ToEntity(ToDto(s)) == Success(s)
  {
  }

  /** `toDtoList`: element by element, in order. */
  function ToDtoList(ss: seq<Salle>): (ds: seq<SalleDto>)
    ensures |ds| == |ss| && forall i | 0 <= i < |ss| :: ds[i] == ToDto(ss[i])
  {
    if ss == [] then [] else [ToDto(ss[0])] + ToDtoList(ss[1..])
  }

  /** Element `i` is the first one of `ds` that does not convert. */
  predicate FirstFailure(ds: seq<SalleDto>, i: int)
    requires 0 <= i < |ds|
  {
    ToEntity(ds[i]).Failure? && forall j | 0 <= j < i :: ToEntity(ds[j]).Success?
  }

  /** `toEntityList`: element by element, in order; the first element that does not convert raises its error. */
  function ToEntityList(ds: seq<SalleDto>): (r: Result<seq<Salle>, Error>)
    ensures r.Success? <==> forall i | 0 <= i < |ds| :: ToEntity(ds[i]).Success?
    ensures r.Success? ==> |r.value| == |ds| && forall i | 0 <= i < |ds| :: Success(r.value[i]) == ToEntity(ds[i])
    ensures r.Failure? ==> exists i | 0 <= i < |ds| :: FirstFailure(ds, i) && ToEntity(ds[i]) == Failure(r.error)
  {
    if ds == [] then Success([])
    else match ToEntity(ds[0])
      case Failure(e) => Failure(e)
      case Success(s) =>
        match ToEntityList(ds[1..])
        case Failure(e) => Failure(e)
        case Success(rest) => Success([s] + rest)
  }
}
