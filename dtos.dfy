/**
 * The data-transfer objects exchanged with clients. Every reference field of
 * the Java classes may be null and is an `Option` here where the services
 * test for null or pass it on to a lookup; enum values travel as their names.
 */
module Dtos {
  import opened Wrappers
  import opened Entities

  datatype SalleDto = SalleDto(
    codeSalle: Option<string>,
    description: string,
    contenance: int,
    statusSalle: Option<string>)

  datatype CoursDto = CoursDto(
    codeCours: Option<string>,
    labelCours: string,
    descCours: string,
    nbCreditCours: string,
    nbHeureCours: string)

  /** The staff view has no password field at all. */
  datatype PersonnelDto = PersonnelDto(
    codePersonnel: Option<string>,
    nomPersonnel: string,
    loginPersonnel: string,
    sexePersonnel: string,
    phonePersonnel: string,
    rolePersonnel: Option<string>)

  datatype ProgrammationDto = ProgrammationDto(
    id: Option<int>,
    nbHeure: int,
    dateProgrammation: Option<int>,
    finProgrammation: Option<int>,
    statutProgrammation: Option<string>,
    codeSalle: Option<string>,
    codeCours: Option<string>,
    codePersonnelProg: Option<string>,
    codePersonnelVal: Option<string>,
    nomCours: Option<string>,
    nomPersonnelProg: Option<string>,
    nomPersonnelVal: Option<string>)

  datatype AffectationDto = AffectationDto(
    codeAffectation: Option<AffectationId>,
    codePersonnel: Option<string>,
    codeCours: Option<string>,
    nomPersonnel: Option<string>,
    nomCours: Option<string>)
}
