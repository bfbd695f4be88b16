/** Conversions between the booking entity and its transfer object. */
module ProgrammationMapper {
  import opened Wrappers
  import opened Enums
  import opened Errors
  import opened Entities
  import opened Dtos

  /** `statutToString`: the status name, null for null. */
  function StatutToString(s: Option<StatutProgrammation>): (r: Option<string>)
    ensures r.None? <==> s.None?
    ensures s.Some? ==> r == Some(s.value.Name())
  {
    if s.Some? then Some(s.value.Name()) else None
  }

  /** `stringToStatut`: null stays null; a string that names no status throws. */
  function StringToStatut(t: Option<string>): (r: Result<Option<StatutProgrammation>, Error>)
    ensures t.None? ==> r == Success(None)
    ensures t.Some? ==> (r.Success? <==> exists s: StatutProgrammation :: s.Name() == t.value)
    ensures t.Some? && r.Success? ==> r.value.Some? && r.value.value.Name() == t.value
    ensures r.Failure? ==> t.Some? && r.error == IllegalEnumName(t.value)
  {
    if t.None? then Success(None)
    else match StatutValueOf(t.value)
      case Some(s) => Success(Some(s))
      case None => Failure(IllegalEnumName(t.value))
  }

  /** The name of a status reads back as that status, null included. */
  lemma StatusRoundTrip(s: Option<StatutProgrammation>)
    ensures StringToStatut(StatutToString(s)) == Success(s)
  {
  }

  /** A string that converts reads back as itself. */
  lemma NameRoundTrip(t: Option<string>)
    requires StringToStatut(t).Success?
    ensures StatutToString(StringToStatut(t).value) == t
  {
  }

  /** A non-null string that is not a status name, such as "EN_COURS", does not convert. */
  lemma UnknownNameFails()
    ensures StringToStatut(Some("EN_COURS")) == Failure(IllegalEnumName("EN_COURS"))
  {
  }

  /**
   * `toDto`: id, hours, both instants and the status name are copied; the
   * room code, course code and label, organizer code and name and validator
   * code and name are read through the references, null when a reference is.
   */
  function ToDto(p: Programmation): (d: ProgrammationDto)
    ensures d.id == p.id && d.nbHeure == p.nbHeure
    ensures d.dateProgrammation == p.dateProgrammation && d.finProgrammation == p.finProgrammation
    ensures d.statutProgrammation == StatutToString(p.statutProgrammation)
    ensures d.codeSalle == (if p.salle.Some? then p.salle.value.codeSalle else None)
    ensures p.cours.Some? ==> d.codeCours == p.cours.value.codeCours && d.nomCours == Some(p.cours.value.labelCours)
    ensures p.cours.None? ==> d.codeCours.None? && d.nomCours.None?
    ensures p.personnelProg.Some? ==> d.codePersonnelProg == p.personnelProg.value.codePersonnel && d.nomPersonnelProg == Some(p.personnelProg.value.nomPersonnel)
    ensures p.personnelProg.None? ==> d.codePersonnelProg.None? && d.nomPersonnelProg.None?
    ensures p.personnelVal.Some? ==> d.codePersonnelVal == p.personnelVal.value.codePersonnel && d.nomPersonnelVal == Some(p.personnelVal.value.nomPersonnel)
    ensures p.personnelVal.None? ==> d.codePersonnelVal.None? && d.nomPersonnelVal.None?
  {
    ProgrammationDto(
      p.id, p.nbHeure, p.dateProgrammation, p.finProgrammation, StatutToString(p.statutProgrammation),
      if p.salle.Some? then p.salle.value.codeSalle else None,
      if p.cours.Some? then p.cours.value.codeCours else None,
      if p.personnelProg.Some? then p.personnelProg.value.codePersonnel else None,
      if p.personnelVal.Some? then p.personnelVal.value.codePersonnel else None,
      if p.cours.Some? then Some(p.cours.value.labelCours) else None,
      if p.personnelProg.Some? then Some(p.personnelProg.value.nomPersonnel) else None,
      if p.personnelVal.Some? then Some(p.personnelVal.value.nomPersonnel) else None)
  }

  /**
   * `toEntity`: copies id, hours, both instants and the parsed status, and
   * leaves room, course, organizer and validator unset; fails exactly when
   * the status string names no status.
   */
  function ToEntity(d: ProgrammationDto): (r: Result<Programmation, Error>)
    ensures r.Success? <==> StringToStatut(d.statutProgrammation).Success?
    ensures r.Success? ==> r.value.id == d.id && r.value.nbHeure == d.nbHeure
    ensures r.Success? ==> r.value.dateProgrammation == d.dateProgrammation && r.value.finProgrammation == d.finProgrammation
    ensures r.Success? ==> Success(r.value.statutProgrammation) == StringToStatut(d.statutProgrammation)
    ensures r.Success? ==> r.value.salle.None? && r.value.cours.None? && r.value.personnelProg.None? && r.value.personnelVal.None?
    ensures r.Failure? ==> r.error == IllegalEnumName(d.statutProgrammation.value)
  {
    match StringToStatut(d.statutProgrammation)
    case Success(s) => Success(Programmation(d.id, d.nbHeure, d.dateProgrammation, d.finProgrammation, s, None, None, None, None))
    case Failure(e) => Failure(e)
  }

  /** Through an entity and back, a transfer object keeps its id, hours, instants and status, and loses every reference field. */
  lemma DtoRoundTrip(d: ProgrammationDto)
    requires d.statutProgrammation.None? || StatutValueOf(d.statutProgrammation.value).Some?
    ensures ToEntity(d).Success?
    ensures ToDto(ToEntity(d).value)
      == d.(codeSalle := None, codeCours := None, codePersonnelProg := None, codePersonnelVal := None,
            nomCours := None, nomPersonnelProg := None, nomPersonnelVal := None)
  {
  }

  /** `toDtoList`: element by element, in order. */
  function ToDtoList(ps: seq<Programmation>): (ds: seq<ProgrammationDto>)
    ensures |ds| == |ps| && forall i | 0 <= i < |ps| :: ds[i] == ToDto(ps[i])
  {
    if ps == [] then [] else [ToDto(ps[0])] + ToDtoList(ps[1..])
  }
}
