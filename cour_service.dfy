/**
 * The course registry service: creation, the listing of all courses, and
 * delete with its cascade over the bookings.
 */
module CourService {
  import opened Wrappers
  import opened Errors
  import opened Entities
  import opened Dtos
  import opened Store
  import CoursMapper
  import Text

  /** The length bounds the course entity declares on its code, counted as `String.length()` counts, in UTF-16 code units. */
  const CodeLengthMin := 2
  const CodeLengthMax := 100

  /**
   * `creerCour`: a null code fails at the emptiness check, an
   * empty code is refused, a code outside the entity's length bounds fails
   * at save, and otherwise the course is saved under its code, replacing
   * any course already there.
   */
  function CreerCourOutcome(db: Db, d: CoursDto): (r: (Result<CoursDto, Error>, Db))
    requires db.Valid()
    ensures r.1.Valid()
    ensures r.0.Failure? ==> r.1 == db
    ensures d.codeCours.None? ==> r.0 == Failure(NullPointer)
    ensures d.codeCours == Some("") ==> r.0 == Failure(DonneeInvalide)
    ensures d.codeCours.Some? && d.codeCours.value != "" && !(CodeLengthMin <= Text.Utf16Length(d.codeCours.value) <= CodeLengthMax)
      ==> r.0 == Failure(ConstraintViolation)
    ensures r.0.Success? <==> d.codeCours.Some? && CodeLengthMin <= Text.Utf16Length(d.codeCours.value) <= CodeLengthMax
    ensures r.0.Success? ==> r.1 == db.(cours := db.cours[d.codeCours.value := CoursMapper.ToEntity(d)]) && r.0.value == d
  {
    var c := CoursMapper.ToEntity(d);
    if d.codeCours.None? then (Failure(NullPointer), db)
    else if d.codeCours.value == "" then (Failure(DonneeInvalide), db)
    else if !(CodeLengthMin <= Text.Utf16Length(d.codeCours.value) <= CodeLengthMax) then (Failure(ConstraintViolation), db)
    else
      PutCoursValid(db, d.codeCours.value, c);
      CoursMapper.RoundTrips(d, c);
      (Success(CoursMapper.ToDto(c)), db.(cours := db.cours[d.codeCours.value := c]))
  }

  /** The service itself only refuses the empty code: a code of one UTF-16 code unit gets past it and fails at save. */
  lemma OneCharacterCodeFailsAtSave(db: Db, d: CoursDto)
    requires db.Valid() && d.codeCours.Some? && Text.Utf16Length(d.codeCours.value) == 1
    ensures CreerCourOutcome(db, d) == (Failure(ConstraintViolation), db)
  {
  }

  /** A code of one supplementary character is two code units long, so it is saved. */
  lemma SupplementaryCharacterCodeIsSaved(db: Db, d: CoursDto)
    requires db.Valid() && d.codeCours == Some("\U{1D538}")
    ensures CreerCourOutcome(db, d).0 == Success(d)
  {
    Text.SupplementaryCharacterLength();
  }

  /** `getAllCours`: the view of every course, under its code. */
  function GetAllCours(db: Db): (r: map<string, CoursDto>)
    ensures r.Keys == db.cours.Keys
    ensures forall c | c in r :: r[c] == CoursMapper.ToDto(db.cours[c])
  {
    map c | c in db.cours :: CoursMapper.ToDto(db.cours[c])
  }

  /** A course saved by `creerCour` is listed by `getAllCours` with the view that was sent. */
  lemma CreatedCourseIsListed(db: Db, d: CoursDto)
    requires db.Valid() && CreerCourOutcome(db, d).0.Success?
    ensures var all := GetAllCours(CreerCourOutcome(db, d).1);
      d.codeCours.value in all && all[d.codeCours.value] == d
  {
    CoursMapper.RoundTrips(d, CoursMapper.ToEntity(d));
  }

  /**
   * `deleteCours`: an unknown code fails (with the room message the source
   * uses); otherwise the course is removed with, by cascade, its bookings.
   */
  function DeleteCoursOutcome(db: Db, code: string): (r: (Result<(), Error>, Db))
    requires db.Valid()
    ensures r.1.Valid()
    ensures r.0.Success? <==> code in db.cours
    ensures r.0.Failure? ==> r.0.error == SalleIntrouvableCode(code) && r.1 == db
    ensures r.0.Success? ==>
      && r.1.cours == db.cours - {code}
      && (forall id :: id in r.1.programmations <==> id in db.programmations && db.programmations[id].codeCours != code)
      && (forall id | id in r.1.programmations :: r.1.programmations[id] == db.programmations[id])
      && r.1 == db.(cours := r.1.cours, programmations := r.1.programmations)
  {
    if code !in db.cours then (Failure(SalleIntrouvableCode(code)), db)
    else
      var kept := map id | id in db.programmations && db.programmations[id].codeCours != code :: db.programmations[id];
      (Success(()), db.(cours := db.cours - {code}, programmations := kept))
  }

  /** `creerCour` on the store. */
  method CreerCour(store: RecordStore, d: CoursDto) returns (r: Result<CoursDto, Error>)
    requires store.Valid()
    modifies store
    ensures store.Valid()
    ensures (r, store.Model()) == CreerCourOutcome(old(store.Model()), d)
  {
    var c := CoursMapper.ToEntity(d);
    if d.codeCours.None? {
      return Failure(NullPointer);
    }
    if d.codeCours.value == "" {
      return Failure(DonneeInvalide);
    }
    if !(CodeLengthMin <= Text.Utf16Length(d.codeCours.value) <= CodeLengthMax) {
      return Failure(ConstraintViolation);
    }
    store.cours := store.cours[d.codeCours.value := c];
    r := Success(CoursMapper.ToDto(c));
  }

  /** `deleteCours` on the store, with the cascade over the bookings. */
  method DeleteCours(store: RecordStore, code: string) returns (r: Result<(), Error>)
    requires store.Valid()
    modifies store
    ensures store.Valid()
    ensures (r, store.Model()) == DeleteCoursOutcome(old(store.Model()), code)
  {
    if code !in store.cours {
      return Failure(SalleIntrouvableCode(code));
    }
    store.programmations := map id | id in store.programmations && store.programmations[id].codeCours != code :: store.programmations[id];
    store.cours := store.cours - {code};
    r := Success(());
  }
}
