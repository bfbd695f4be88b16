/**
 * The room registry service: creation under the code and capacity rule,
 * lookup, update, delete with its cascade over the bookings, and the
 * searches. As for the other services, a state-changing operation is a
 * function giving its outcome and a method performing it on the store.
 */
module SalleService {
  import opened Wrappers
  import opened Enums
  import opened Errors
  import opened Entities
  import opened Dtos
  import opened Text
  import opened Store
  import SalleMapper
  import opened SalleRepository

  /** The smallest capacity `creerSalle` accepts. */
  const ContenanceMin := 10

  /** The views of the rooms of `m`, under their codes. */
  function Views(m: Salles): map<string, SalleDto> {
    map c | c in m :: SalleMapper.ToDto(m[c])
  }

  /**
   * `creerSalle`: the transfer object is mapped first (an unknown status
   * name fails there); then a null code, an empty code or a capacity under
   * 10 is refused; a null status fails at save on its non-null column; and
   * the room is saved under its code, replacing any room already there.
   */
  function CreerSalleOutcome(db: Db, d: SalleDto): (r: (Result<SalleDto, Error>, Db))
    requires db.Valid()
    ensures r.1.Valid()
    ensures r.0.Failure? ==> r.1 == db
    ensures SalleMapper.ToEntity(d).Failure? ==> r.0 == Failure(IllegalEnumName(d.statusSalle.value))
    ensures SalleMapper.ToEntity(d).Success? && d.codeSalle.None? ==> r.0 == Failure(NullPointer)
    ensures SalleMapper.ToEntity(d).Success? && d.codeSalle.Some? && (d.codeSalle.value == "" || d.contenance < ContenanceMin)
      ==> r.0 == Failure(DonneeInvalide)
    ensures r.0.Success? <==>
      && d.codeSalle.Some? && d.codeSalle.value != "" && d.contenance >= ContenanceMin
      && d.statusSalle.Some? && SalleStatusValueOf(d.statusSalle.value).Some?
    ensures r.0.Success? ==>
      && r.1 == db.(salles := db.salles[d.codeSalle.value := Salle(d.codeSalle, d.description, d.contenance, SalleStatusValueOf(d.statusSalle.value))])
      && r.0.value == d
  {
    match SalleMapper.ToEntity(d)
    case Failure(e) => (Failure(e), db)
    case Success(s) =>
      if d.codeSalle.None? then (Failure(NullPointer), db)
      else if d.codeSalle.value == "" || d.contenance < ContenanceMin then (Failure(DonneeInvalide), db)
      else if s.statutSalle.None? then (Failure(NullColumn), db)
      else
        PutSalleValid(db, d.codeSalle.value, s);
        SalleMapper.DtoRoundTrip(d);
        (Success(SalleMapper.ToDto(s)), db.(salles := db.salles[d.codeSalle.value := s]))
  }

  /** The capacity rule at its edge: 10 places are accepted and 9 refused, other fields being valid. */
  lemma CapacityBoundary(db: Db, d: SalleDto)
    requires db.Valid()
    requires d.codeSalle.Some? && d.codeSalle.value != ""
    requires d.statusSalle.Some? && SalleStatusValueOf(d.statusSalle.value).Some?
    ensures CreerSalleOutcome(db, d.(contenance := 10)).0.Success?
    ensures CreerSalleOutcome(db, d.(contenance := 9)) == (Failure(DonneeInvalide), db)
  {
    assert SalleMapper.ToEntity(d.(contenance := 9)).Success?;
  }

  /** `getSalleByCode`: the view of the stored room, or an error quoting the code. */
  function GetSalleByCode(db: Db, code: string): (r: Result<SalleDto, Error>)
    ensures r.Success? <==> code in db.salles
    ensures r.Success? ==> r.value == SalleMapper.ToDto(db.salles[code])
    ensures r.Failure? ==> r.error == SalleIntrouvableCode(code)
  {
    if code in db.salles then Success(SalleMapper.ToDto(db.salles[code])) else Failure(SalleIntrouvableCode(code))
  }

  /** A room saved by `creerSalle` is then found under its code, with the view that was sent. */
  lemma CreatedRoomIsFound(db: Db, d: SalleDto)
    requires db.Valid() && CreerSalleOutcome(db, d).0.Success?
    ensures GetSalleByCode(CreerSalleOutcome(db, d).1, d.codeSalle.value) == Success(d)
  {
    SalleMapper.DtoRoundTrip(d);
  }

  /** `getAllSalles`: the view of every room. */
  function GetAllSalles(db: Db): (r: map<string, SalleDto>)
    ensures r.Keys == db.salles.Keys
    ensures forall c | c in r :: r[c] == SalleMapper.ToDto(db.salles[c])
  {
    Views(db.salles)
  }

  /**
   * `updateSalle`: an unknown code fails; otherwise description, capacity
   * and status (through `valueOf`) come from the transfer object and the
   * code is kept. The capacity rule of creation is not applied.
   */
  function UpdateSalleOutcome(db: Db, code: string, d: SalleDto): (r: (Result<SalleDto, Error>, Db))
    requires db.Valid()
    ensures r.1.Valid()
    ensures r.0.Failure? ==> r.1 == db
    ensures r.0.Success? <==> code in db.salles && SalleStatusFromName(d.statusSalle).Success?
    ensures code !in db.salles ==> r.0 == Failure(SalleIntrouvableCode(code))
    ensures code in db.salles && SalleStatusFromName(d.statusSalle).Failure? ==> r.0 == Failure(SalleStatusFromName(d.statusSalle).error)
    ensures r.0.Success? ==>
      && r.1 == db.(salles := db.salles[code := Salle(Some(code), d.description, d.contenance, Some(SalleStatusFromName(d.statusSalle).value))])
      && r.0.value == SalleMapper.ToDto(r.1.salles[code])
  {
    if code !in db.salles then (Failure(SalleIntrouvableCode(code)), db)
    else match SalleStatusFromName(d.statusSalle)
      case Failure(e) => (Failure(e), db)
      case Success(st) =>
        var s := db.salles[code].(descSalle := d.description, contenance := d.contenance, statutSalle := Some(st));
        PutSalleValid(db, code, s);
        (Success(SalleMapper.ToDto(s)), db.(salles := db.salles[code := s]))
  }

  /** An update may leave a room with fewer than 10 places, which creation would have refused. */
  lemma UpdateAllowsSmallRoom(db: Db, code: string, d: SalleDto)
    requires db.Valid() && code in db.salles
    requires d.statusSalle == Some("LIBRE") && d.contenance < ContenanceMin
    ensures UpdateSalleOutcome(db, code, d).0.Success?
    ensures UpdateSalleOutcome(db, code, d).1.salles[code].contenance < ContenanceMin
    ensures CreerSalleOutcome(db, d.(codeSalle := Some(code))).0 == Failure(DonneeInvalide)
  {
    assert SalleStatusFromName(d.statusSalle) == Success(LIBRE);
  }

  /**
   * `deleteSalle`: an unknown code fails; otherwise the room is removed
   * with, by cascade, the bookings in it.
   */
  function DeleteSalleOutcome(db: Db, code: string): (r: (Result<(), Error>, Db))
    requires db.Valid()
    ensures r.1.Valid()
    ensures r.0.Success? <==> code in db.salles
    ensures r.0.Failure? ==> r.0.error == SalleIntrouvableCode(code) && r.1 == db
    ensures r.0.Success? ==>
      && r.1.salles == db.salles - {code}
      && (forall id :: id in r.1.programmations <==> id in db.programmations && db.programmations[id].codeSalle != code)
      && (forall id | id in r.1.programmations :: r.1.programmations[id] == db.programmations[id])
      && r.1 == db.(salles := r.1.salles, programmations := r.1.programmations)
  {
    if code !in db.salles then (Failure(SalleIntrouvableCode(code)), db)
    else
      var kept := map id | id in db.programmations && db.programmations[id].codeSalle != code :: db.programmations[id];
      (Success(()), db.(salles := db.salles - {code}, programmations := kept))
  }

  /** `rechercherSallesLibres`: the views of the free rooms with at least `contenanceMin` places. */
  function RechercherSallesLibres(db: Db, contenanceMin: int): (r: map<string, SalleDto>)
    ensures forall c :: c in r <==> c in db.salles && db.salles[c].statutSalle == Some(LIBRE) && db.salles[c].contenance >= contenanceMin
    ensures forall c | c in r :: r[c] == SalleMapper.ToDto(db.salles[c])
  {
    Views(FindSallesLibresAvecContenance(db.salles, contenanceMin))
  }

  /** `rechercherParCode`: the views of the rooms whose code contains `fragment`. */
  function RechercherParCode(db: Db, fragment: string): (r: map<string, SalleDto>)
    ensures forall c :: c in r <==> c in db.salles && db.salles[c].codeSalle.Some? && Contains(db.salles[c].codeSalle.value, fragment)
    ensures forall c | c in r :: r[c] == SalleMapper.ToDto(db.salles[c])
  {
    Views(FindByCodeSalleContaining(db.salles, fragment))
  }

  /** `rechercherParStatut`: the status name goes through `valueOf`, then the views of the rooms with that status. */
  function RechercherParStatut(db: Db, statut: Option<string>): (r: Result<map<string, SalleDto>, Error>)
    ensures r.Failure? <==> SalleStatusFromName(statut).Failure?
    ensures r.Failure? ==> r.error == SalleStatusFromName(statut).error
    ensures r.Success? ==> forall c :: c in r.value <==>
      (c in db.salles && db.salles[c].statutSalle.Some? && db.salles[c].statutSalle.value.Name() == statut.value)
    ensures r.Success? ==> forall c | c in r.value :: r.value[c] == SalleMapper.ToDto(db.salles[c])
  {
    match SalleStatusFromName(statut)
    case Failure(e) => Failure(e)
    case Success(st) => Success(Views(FindByStatutSalle(db.salles, st)))
  }

  /**
   * `rechercheAvancee`: a null status is no criterion, any other goes
   * through `valueOf`; then the views of the rooms meeting every criterion
   * given.
   */
  function RechercheAvancee(db: Db, statut: Option<string>, minContenance: Option<int>, maxContenance: Option<int>)
    : (r: Result<map<string, SalleDto>, Error>)
    ensures r.Failure? <==> statut.Some? && SalleStatusValueOf(statut.value).None?
    ensures r.Failure? ==> r.error == IllegalEnumName(statut.value)
    ensures r.Success? ==> forall c :: c in r.value <==> (
      && c in db.salles
      && (statut.None? || db.salles[c].statutSalle == SalleStatusValueOf(statut.value))
      && (minContenance.None? || db.salles[c].contenance >= minContenance.value)
      && (maxContenance.None? || db.salles[c].contenance <= maxContenance.value))
    ensures r.Success? ==> forall c | c in r.value :: r.value[c] == SalleMapper.ToDto(db.salles[c])
  {
    if statut.None? then Success(Views(SearchSalles(db.salles, None, minContenance, maxContenance)))
    else match SalleStatusFromName(statut)
      case Failure(e) => Failure(e)
      case Success(st) => Success(Views(SearchSalles(db.salles, Some(st), minContenance, maxContenance)))
  }

  /** With no criterion the advanced search lists every room. */
  lemma AdvancedSearchWithoutCriteria(db: Db)
    ensures RechercheAvancee(db, None, None, None) == Success(GetAllSalles(db))
  {
    SearchWithoutCriteria(db.salles);
  }

  /** `compterParStatut`: the number of rooms `rechercherParStatut` lists. */
  function CompterParStatut(db: Db, statut: Option<string>): (r: Result<nat, Error>)
    ensures r.Failure? <==> RechercherParStatut(db, statut).Failure?
    ensures r.Success? ==> r.value == |RechercherParStatut(db, statut).value|
  {
    match SalleStatusFromName(statut)
    case Failure(e) => Failure(e)
    case Success(st) =>
      var found := FindByStatutSalle(db.salles, st);
      assert Views(found).Keys == found.Keys;
      Success(CountByStatut(db.salles, st))
  }

  /** `creerSalle` on the store. */
  method CreerSalle(store: RecordStore, d: SalleDto) returns (r: Result<SalleDto, Error>)
    requires store.Valid()
    modifies store
    ensures store.Valid()
    ensures (r, store.Model()) == CreerSalleOutcome(old(store.Model()), d)
  {
    var salle := SalleMapper.ToEntity(d);
    if salle.Failure? {
      return Failure(salle.error);
    }
    if d.codeSalle.None? {
      return Failure(NullPointer);
    }
    if d.codeSalle.value == "" || d.contenance < ContenanceMin {
      return Failure(DonneeInvalide);
    }
    if salle.value.statutSalle.None? {
      return Failure(NullColumn);
    }
    store.salles := store.salles[d.codeSalle.value := salle.value];
    r := Success(SalleMapper.ToDto(salle.value));
  }

  /** `updateSalle` on the store. */
  method UpdateSalle(store: RecordStore, code: string, d: SalleDto) returns (r: Result<SalleDto, Error>)
    requires store.Valid()
    modifies store
    ensures store.Valid()
    ensures (r, store.Model()) == UpdateSalleOutcome(old(store.Model()), code, d)
  {
    if code !in store.salles {
      return Failure(SalleIntrouvableCode(code));
    }
    var statut := SalleStatusFromName(d.statusSalle);
    if statut.Failure? {
      return Failure(statut.error);
    }
    var salle := store.salles[code].(descSalle := d.description, contenance := d.contenance, statutSalle := Some(statut.value));
    store.salles := store.salles[code := salle];
    r := Success(SalleMapper.ToDto(salle));
  }

  /** `deleteSalle` on the store, with the cascade over the bookings. */
  method DeleteSalle(store: RecordStore, code: string) returns (r: Result<(), Error>)
    requires store.Valid()
    modifies store
    ensures store.Valid()
    ensures (r, store.Model()) == DeleteSalleOutcome(old(store.Model()), code)
  {
    if code !in store.salles {
      return Failure(SalleIntrouvableCode(code));
    }
    store.programmations := map id | id in store.programmations && store.programmations[id].codeSalle != code :: store.programmations[id];
    store.salles := store.salles - {code};
    r := Success(());
  }
}
