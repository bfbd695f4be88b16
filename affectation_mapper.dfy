/** Conversions between the assignment entity and its transfer object. */
module AffectationMapper {
  import opened Wrappers
  import opened Entities
  import opened Dtos

  /**
   * `toDto`: the key as it is; the staff code and name from the staff member
   * and the course code and label from the course, each null when the
   * reference is null.
   */
  function ToDto(a: Affectation): (d: AffectationDto)
    ensures d.codeAffectation == a.codeAffectation
    ensures a.personnel.Some? ==> d.codePersonnel == a.personnel.value.codePersonnel && d.nomPersonnel == Some(a.personnel.value.nomPersonnel)
    ensures a.personnel.None? ==> d.codePersonnel.None? && d.nomPersonnel.None?
    ensures a.cours.Some? ==> d.codeCours == a.cours.value.codeCours && d.nomCours == Some(a.cours.value.labelCours)
    ensures a.cours.None? ==> d.codeCours.None? && d.nomCours.None?
  {
    AffectationDto(
      a.codeAffectation,
      if a.personnel.Some? then a.personnel.value.codePersonnel else None,
      if a.cours.Some? then a.cours.value.codeCours else None,
      if a.personnel.Some? then Some(a.personnel.value.nomPersonnel) else None,
      if a.cours.Some? then Some(a.cours.value.labelCours) else None)
  }

  /** `toEntity`: key, staff member and course are all left unset. */
  function ToEntity(d: AffectationDto): (a: Affectation)
    ensures a.codeAffectation.None? && a.personnel.None? && a.cours.None?
  {
    Affectation(None, None, None)
  }

  /** The assignment built from a staff member and a course, keyed by their codes. */
  function Assemble(p: Personnel, c: Cours): Affectation
    requires p.codePersonnel.Some? && c.codeCours.Some?
  {
    Affectation(Some(AffectationId(c.codeCours.value, p.codePersonnel.value)), Some(p), Some(c))
  }

  /** For an assignment built from its staff member and course, the key in the view names the same course and staff codes as the view's own fields. */
  lemma AssembledViewAgrees(p: Personnel, c: Cours)
    requires p.codePersonnel.Some? && c.codeCours.Some?
    ensures var d := ToDto(Assemble(p, c));
      d.codeAffectation == Some(AffectationId(d.codeCours.value, d.codePersonnel.value))
      && d.nomPersonnel == Some(p.nomPersonnel) && d.nomCours == Some(c.labelCours)
  {
  }

  /** `toDtoList`: element by element, in order. */
  function ToDtoList(links: seq<Affectation>): (ds: seq<AffectationDto>)
    ensures |ds| == |links| && forall i | 0 <= i < |links| :: ds[i] == ToDto(links[i])
  {
    if links == [] then [] else [ToDto(links[0])] + ToDtoList(links[1..])
  }
}
