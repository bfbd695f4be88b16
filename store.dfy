/**
 * The record store behind the five repositories: rooms, courses and staff
 * keyed by their codes, bookings keyed by a generated integer id, and the
 * set of staff-to-course assignment keys.
 *
 * A booking row keeps the codes its foreign-key columns hold; the entity
 * graph the mappers read (`Entities.Programmation`) is rebuilt from them by
 * `Hydrate`, so a later change to a room or a staff member shows through.
 */
module Store {
  import opened Wrappers
  import opened Enums
  import opened Entities
  import Text

  /** A booking row: instants and status are non-optional columns; the validator column may be null. */
  datatype ProgrammationRecord = ProgrammationRecord(
    nbHeure: int,
    dateProgrammation: int,
    finProgrammation: int,
    statutProgrammation: StatutProgrammation,
    codeSalle: string,
    codeCours: string,
    codePersonnelProg: string,
    codePersonnelVal: Option<string>)

  /** The whole content of the store; `nextId` is the identity column's next value. */
  datatype Db = Db(
    salles: map<string, Salle>,
    cours: map<string, Cours>,
    personnels: map<string, Personnel>,
    programmations: map<int, ProgrammationRecord>,
    nextId: int,
    affectations: set<AffectationId>)
  {
    /**
     * Every entity is stored under its own code, its non-optional columns are
     * set, a stored course code is 2 to 100 UTF-16 code units long, booking ids are below
     * the next identity value, and every reference of a booking names a stored
     * entity.
     */
    predicate Valid() {
      && 0 <= nextId
      && SallesValid()
      && CoursValid()
      && PersonnelsValid()
      && ProgrammationsValid()
    }

    /** Each room is stored under its code and has a status. */
    predicate SallesValid() {
      forall c | c in salles :: salles[c].codeSalle == Some(c) && salles[c].statutSalle.Some?
    }

    /** Each course is stored under its code, 2 to 100 UTF-16 code units long. */
    predicate CoursValid() {
      forall c | c in cours :: cours[c].codeCours == Some(c) && 2 <= Text.Utf16Length(c) <= 100
    }

    /** Each staff member is stored under its code and has a password hash and a role. */
    predicate PersonnelsValid() {
      forall c | c in personnels ::
        personnels[c].codePersonnel == Some(c) && personnels[c].padPersonnel.Some? && personnels[c].rolePersonnel.Some?
    }

    /** Each booking id is below the next identity value and its references name stored entities. */
    predicate ProgrammationsValid() {
      forall id | id in programmations :: 0 <= id < nextId && Refers(programmations[id])
    }

    /** The references of a booking row name stored entities. */
    predicate Refers(p: ProgrammationRecord) {
      && p.codeSalle in salles
      && p.codeCours in cours
      && p.codePersonnelProg in personnels
      && (p.codePersonnelVal.Some? ==> p.codePersonnelVal.value in personnels)
    }
  }

  /** The store with no rows. */
  const Empty := Db(map[], map[], map[], map[], 0, {})

  lemma EmptyValid()
    ensures Empty.Valid()
  {
  }

  /** Storing a staff member under its own code, with a hash and a role, keeps the store valid. */
  lemma PutPersonnelValid(db: Db, code: string, p: Personnel)
    requires db.Valid()
    requires p.codePersonnel == Some(code) && p.padPersonnel.Some? && p.rolePersonnel.Some?
    ensures db.(personnels := db.personnels[code := p]).Valid()
  {
    var db' := db.(personnels := db.personnels[code := p]);
    forall id | id in db'.programmations
      ensures db'.Refers(db'.programmations[id])
    {
      assert db.Refers(db.programmations[id]);
    }
  }

  /** Storing a room under its own code, with a status, keeps the store valid. */
  lemma PutSalleValid(db: Db, code: string, s: Salle)
    requires db.Valid()
    requires s.codeSalle == Some(code) && s.statutSalle.Some?
    ensures db.(salles := db.salles[code := s]).Valid()
  {
    var db' := db.(salles := db.salles[code := s]);
    forall id | id in db'.programmations
      ensures db'.Refers(db'.programmations[id])
    {
      assert db.Refers(db.programmations[id]);
    }
  }

  /** Storing a course under its own code of 2 to 100 UTF-16 code units keeps the store valid. */
  lemma PutCoursValid(db: Db, code: string, c: Cours)
    requires db.Valid()
    requires c.codeCours == Some(code) && 2 <= Text.Utf16Length(code) <= 100
    ensures db.(cours := db.cours[code := c]).Valid()
  {
    var db' := db.(cours := db.cours[code := c]);
    forall id | id in db'.programmations
      ensures db'.Refers(db'.programmations[id])
    {
      assert db.Refers(db.programmations[id]);
    }
  }

  /** Storing a booking row whose references resolve, under an id the identity column has handed out, keeps the store valid. */
  lemma PutProgrammationValid(db: Db, id: int, p: ProgrammationRecord)
    requires db.Valid() && 0 <= id < db.nextId && db.Refers(p)
    ensures db.(programmations := db.programmations[id := p]).Valid()
  {
  }

  /** Storing a booking row whose references resolve under the next identity value, and advancing it, keeps the store valid. */
  lemma AddProgrammationValid(db: Db, p: ProgrammationRecord)
    requires db.Valid() && db.Refers(p)
    ensures db.(programmations := db.programmations[db.nextId := p], nextId := db.nextId + 1).Valid()
  {
  }

  /** The booking `id` with its references resolved; a reference whose row is missing reads as null. */
  function Hydrate(db: Db, id: int): Programmation
    requires id in db.programmations
  {
    var p := db.programmations[id];
    Programmation(
      Some(id), p.nbHeure, Some(p.dateProgrammation), Some(p.finProgrammation), Some(p.statutProgrammation),
      Get(db.salles, p.codeSalle), Get(db.cours, p.codeCours), Get(db.personnels, p.codePersonnelProg),
      if p.codePersonnelVal.Some? then Get(db.personnels, p.codePersonnelVal.value) else None)
  }

  /** In a valid store every reference of a hydrated booking resolves, to the entity with the row's code. */
  lemma HydrateResolves(db: Db, id: int)
    requires db.Valid() && id in db.programmations
    ensures var p, r := Hydrate(db, id), db.programmations[id];
      && p.id == Some(id) && p.statutProgrammation == Some(r.statutProgrammation)
      && p.salle.Some? && p.salle.value.codeSalle == Some(r.codeSalle)
      && p.cours.Some? && p.cours.value.codeCours == Some(r.codeCours)
      && p.personnelProg.Some? && p.personnelProg.value.codePersonnel == Some(r.codePersonnelProg)
      && (p.personnelVal.Some? <==> r.codePersonnelVal.Some?)
      && (p.personnelVal.Some? ==> p.personnelVal.value.codePersonnel == r.codePersonnelVal)
  {
  }

  /** The mutable store the services work on. */
  class RecordStore {
    var salles: map<string, Salle>
    var cours: map<string, Cours>
    var personnels: map<string, Personnel>
    var programmations: map<int, ProgrammationRecord>
    var nextId: int
    var affectations: set<AffectationId>

    /** The content of the store as a value. */
    function Model(): Db
      reads this
    {
      Db(salles, cours, personnels, programmations, nextId, affectations)
    }

    predicate Valid()
      reads this
    {
      Model().Valid()
    }

    constructor ()
      ensures Model() == Empty && Valid()
    {
      salles, cours, personnels, programmations, nextId, affectations := map[], map[], map[], map[], 0, {};
    }
  }
}
