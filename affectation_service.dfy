/**
 * The staff-to-course assignment service. An assignment is its key, the
 * pair (course code, staff code); the view of a stored key reads the staff
 * member and the course it names from the store.
 */
module AffectationService {
  import opened Wrappers
  import opened Errors
  import opened Entities
  import opened Dtos
  import opened Store
  import AffectationMapper
  import opened AffectationRepository

  /** The assignment entity behind a stored key, its references resolved (a missing one reads as null). */
  function Load(db: Db, id: AffectationId): Affectation {
    Affectation(Some(id), Get(db.personnels, id.codePersonnel), Get(db.cours, id.codeCours))
  }

  /** The views of the assignments in `ids`, under their keys. */
  function Views(db: Db, ids: set<AffectationId>): map<AffectationId, AffectationDto> {
    map id | id in ids :: AffectationMapper.ToDto(Load(db, id))
  }

  /**
   * `createAffectation`: the codes come from a request body and may be
   * missing (null). The staff member is looked up first, then the course,
   * and `findById` of a null code fails before its lookup; the key is built
   * course first; an existing key fails; otherwise exactly that key is added.
   */
  function CreateAffectationOutcome(db: Db, codePersonnel: Option<string>, codeCours: Option<string>): (r: (Result<AffectationDto, Error>, Db))
    requires db.Valid()
    ensures r.1.Valid()
    ensures r.0.Failure? ==> r.1 == db
    ensures codePersonnel.None? ==> r.0 == Failure(NullIdentifier)
    ensures codePersonnel.Some? && codePersonnel.value !in db.personnels ==> r.0 == Failure(PersonnelNonTrouve(codePersonnel.value))
    ensures codePersonnel.Some? && codePersonnel.value in db.personnels && codeCours.None? ==> r.0 == Failure(NullIdentifier)
    ensures codePersonnel.Some? && codePersonnel.value in db.personnels && codeCours.Some? && codeCours.value !in db.cours
      ==> r.0 == Failure(CoursNonTrouve(codeCours.value))
    ensures codePersonnel.Some? && codePersonnel.value in db.personnels && codeCours.Some? && codeCours.value in db.cours
      && AffectationId(codeCours.value, codePersonnel.value) in db.affectations
      ==> r.0 == Failure(AffectationExisteDeja)
    ensures r.0.Success? <==>
      && codePersonnel.Some? && codePersonnel.value in db.personnels
      && codeCours.Some? && codeCours.value in db.cours
      && AffectationId(codeCours.value, codePersonnel.value) !in db.affectations
    ensures r.0.Success? ==>
      var (cp, cc) := (codePersonnel.value, codeCours.value);
      && r.1 == db.(affectations := db.affectations + {AffectationId(cc, cp)})
      && r.0.value == AffectationDto(Some(AffectationId(cc, cp)), Some(cp), Some(cc),
           Some(db.personnels[cp].nomPersonnel), Some(db.cours[cc].labelCours))
  {
    if codePersonnel.None? then (Failure(NullIdentifier), db)
    else if codePersonnel.value !in db.personnels then (Failure(PersonnelNonTrouve(codePersonnel.value)), db)
    else if codeCours.None? then (Failure(NullIdentifier), db)
    else if codeCours.value !in db.cours then (Failure(CoursNonTrouve(codeCours.value)), db)
    else
      var id := AffectationId(codeCours.value, codePersonnel.value);
      if id in db.affectations then (Failure(AffectationExisteDeja), db)
      else
        var saved := AffectationMapper.Assemble(db.personnels[codePersonnel.value], db.cours[codeCours.value]);
        (Success(AffectationMapper.ToDto(saved)), db.(affectations := db.affectations + {id}))
  }

  /** Creating the same pair twice succeeds, then fails and changes nothing. */
  lemma CreateTwice(db: Db, codePersonnel: Option<string>, codeCours: Option<string>)
    requires db.Valid() && CreateAffectationOutcome(db, codePersonnel, codeCours).0.Success?
    ensures var db' := CreateAffectationOutcome(db, codePersonnel, codeCours).1;
      CreateAffectationOutcome(db', codePersonnel, codeCours) == (Failure(AffectationExisteDeja), db')
  {
  }

  /** `deleteAffectation`: a missing key fails; otherwise exactly that key is removed. Neither the staff member nor the course is looked up. */
  function DeleteAffectationOutcome(db: Db, codePersonnel: string, codeCours: string): (r: (Result<(), Error>, Db))
    requires db.Valid()
    ensures r.1.Valid()
    ensures r.0.Success? <==> AffectationId(codeCours, codePersonnel) in db.affectations
    ensures r.0.Failure? ==> r.0.error == AffectationInexistante && r.1 == db
    ensures r.0.Success? ==> r.1 == db.(affectations := db.affectations - {AffectationId(codeCours, codePersonnel)})
  {
    var id := AffectationId(codeCours, codePersonnel);
    if id !in db.affectations then (Failure(AffectationInexistante), db)
    else (Success(()), db.(affectations := db.affectations - {id}))
  }

  /** Deleting the pair just created gives the store back as it was. */
  lemma CreateThenDeleteRestores(db: Db, codePersonnel: Option<string>, codeCours: Option<string>)
    requires db.Valid() && CreateAffectationOutcome(db, codePersonnel, codeCours).0.Success?
    ensures codePersonnel.Some? && codeCours.Some?
    ensures var db' := CreateAffectationOutcome(db, codePersonnel, codeCours).1;
      DeleteAffectationOutcome(db', codePersonnel.value, codeCours.value) == (Success(()), db)
  {
    var id := AffectationId(codeCours.value, codePersonnel.value);
    assert db.affectations + {id} - {id} == db.affectations;
  }

  /** `getAffectationsByPersonnel`: the views of the assignments of staff member `codePersonnel`. */
  function GetAffectationsByPersonnel(db: Db, codePersonnel: string): (r: map<AffectationId, AffectationDto>)
    ensures forall id :: id in r <==> id in db.affectations && id.codePersonnel == codePersonnel
    ensures forall id | id in r :: r[id] == AffectationMapper.ToDto(Load(db, id))
  {
    Views(db, FindByPersonnel(db.affectations, codePersonnel))
  }

  /** `getAffectationsByCours`: the views of the assignments to course `codeCours`. */
  function GetAffectationsByCours(db: Db, codeCours: string): (r: map<AffectationId, AffectationDto>)
    ensures forall id :: id in r <==> id in db.affectations && id.codeCours == codeCours
    ensures forall id | id in r :: r[id] == AffectationMapper.ToDto(Load(db, id))
  {
    Views(db, FindByCours(db.affectations, codeCours))
  }

  /** The per-staff and per-course counts are the sizes of the per-staff and per-course listings. */
  lemma CountsAreListingSizes(db: Db, codePersonnel: string, codeCours: string)
    ensures CountByPersonnel(db.affectations, codePersonnel) == |GetAffectationsByPersonnel(db, codePersonnel)|
    ensures CountByCours(db.affectations, codeCours) == |GetAffectationsByCours(db, codeCours)|
  {
    assert GetAffectationsByPersonnel(db, codePersonnel).Keys == FindByPersonnel(db.affectations, codePersonnel);
    assert GetAffectationsByCours(db, codeCours).Keys == FindByCours(db.affectations, codeCours);
  }

  /** `findAll`: the view of every assignment; the key in a view names the codes shown beside it when both references resolve. */
  function FindAll(db: Db): (r: map<AffectationId, AffectationDto>)
    ensures r.Keys == db.affectations
    ensures forall id | id in r :: r[id] == AffectationMapper.ToDto(Load(db, id))
    ensures db.Valid() ==> forall id | id in r && id.codePersonnel in db.personnels && id.codeCours in db.cours ::
      r[id].codeAffectation == Some(id) && r[id].codePersonnel == Some(id.codePersonnel) && r[id].codeCours == Some(id.codeCours)
  {
    Views(db, db.affectations)
  }

  /** `createAffectation` on the store. */
  method CreateAffectation(store: RecordStore, codePersonnel: Option<string>, codeCours: Option<string>) returns (r: Result<AffectationDto, Error>)
    requires store.Valid()
    modifies store
    ensures store.Valid()
    ensures (r, store.Model()) == CreateAffectationOutcome(old(store.Model()), codePersonnel, codeCours)
  {
    if codePersonnel.None? {
      return Failure(NullIdentifier);
    }
    if codePersonnel.value !in store.personnels {
      return Failure(PersonnelNonTrouve(codePersonnel.value));
    }
    var personnel := store.personnels[codePersonnel.value];
    if codeCours.None? {
      return Failure(NullIdentifier);
    }
    if codeCours.value !in store.cours {
      return Failure(CoursNonTrouve(codeCours.value));
    }
    var cours := store.cours[codeCours.value];
    var id := AffectationId(codeCours.value, codePersonnel.value);
    if id in store.affectations {
      return Failure(AffectationExisteDeja);
    }
    var saved := AffectationMapper.Assemble(personnel, cours);
    store.affectations := store.affectations + {id};
    r := Success(AffectationMapper.ToDto(saved));
  }

  /** `deleteAffectation` on the store. */
  method DeleteAffectation(store: RecordStore, codePersonnel: string, codeCours: string) returns (r: Result<(), Error>)
    requires store.Valid()
    modifies store
    ensures store.Valid()
    ensures (r, store.Model()) == DeleteAffectationOutcome(old(store.Model()), codePersonnel, codeCours)
  {
    var id := AffectationId(codeCours, codePersonnel);
    if id !in store.affectations {
      return Failure(AffectationInexistante);
    }
    store.affectations := store.affectations - {id};
    r := Success(());
  }
}
