/**
 * The persistent entities. A Java reference that may be null is an `Option`;
 * text columns other than the keys are plain strings. The one-to-many
 * collections (`programmations`, `validations`) are not fields here: they are
 * the inverse of a booking's references and are answered by the repository
 * queries.
 */
module Entities {
  import opened Wrappers
  import opened Enums

  /** The composite key of an assignment; equality is structural, as Lombok generates it for the key class. */
  datatype AffectationId = AffectationId(codeCours: string, codePersonnel: string)

  datatype Salle = Salle(
    codeSalle: Option<string>,
    descSalle: string,
    contenance: int,
    statutSalle: Option<SalleStatus>)

  datatype Cours = Cours(
    codeCours: Option<string>,
    labelCours: string,
    descCours: string,
    nbCreditCours: string,
    nbHeureCours: string)

  /** A staff member; `padPersonnel` is the password hash. */
  datatype Personnel = Personnel(
    codePersonnel: Option<string>,
    nomPersonnel: string,
    loginPersonnel: string,
    padPersonnel: Option<string>,
    sexePersonnel: string,
    phonePersonnel: string,
    rolePersonnel: Option<RolePersonnel>)

  /** A booking with its references resolved, as the entity manager hands it out. Times are instants as integers. */
  datatype Programmation = Programmation(
    id: Option<int>,
    nbHeure: int,
    dateProgrammation: Option<int>,
    finProgrammation: Option<int>,
    statutProgrammation: Option<StatutProgrammation>,
    salle: Option<Salle>,
    cours: Option<Cours>,
    personnelProg: Option<Personnel>,
    personnelVal: Option<Personnel>)

  datatype Affectation = Affectation(
    codeAffectation: Option<AffectationId>,
    personnel: Option<Personnel>,
    cours: Option<Cours>)

  /** Two assignment keys are equal exactly when both their course codes and their staff codes are. */
  lemma AffectationIdEquality(a: AffectationId, b: AffectationId)
    ensures a == b <==> a.codeCours == b.codeCours && a.codePersonnel == b.codePersonnel
  {
  }
}
