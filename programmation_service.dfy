/**
 * The booking service: create, update, validate and delete a booking, and
 * the lookups and listings over the bookings.
 *
 * The service is transactional, so an operation that fails leaves the
 * store as it was. The persistence context flushes a modified record
 * before it runs a query over the same table; so in an update the new
 * times written into the loaded booking are visible to the availability
 * query that follows, while the booking still holds its old room.
 */
module ProgrammationService {
  import opened Wrappers
  import opened Enums
  import opened Errors
  import opened Entities
  import opened Dtos
  import opened Store
  import ProgrammationMapper
  import opened ProgrammationRepository

  /** `code == null || code.isEmpty()`. */
  predicate Blank(code: Option<string>) {
    code.None? || code.value == ""
  }

  /** The simple checks of `creerProgrammation` pass: three codes given and both dates, the start not after the end. */
  predicate Complete(d: ProgrammationDto) {
    && !Blank(d.codeCours) && !Blank(d.codeSalle) && !Blank(d.codePersonnelProg)
    && d.dateProgrammation.Some? && d.finProgrammation.Some?
    && d.dateProgrammation.value <= d.finProgrammation.value
  }

  /** The view the mapper gives of stored booking `id`. */
  function View(db: Db, id: int): ProgrammationDto
    requires id in db.programmations
  {
    ProgrammationMapper.ToDto(Hydrate(db, id))
  }

  /** In a valid store, the view of a booking shows its row: id, times, status and the codes of its references. */
  lemma ViewShowsRow(db: Db, id: int)
    requires db.Valid() && id in db.programmations
    ensures var v, p := View(db, id), db.programmations[id];
      && v.id == Some(id) && v.nbHeure == p.nbHeure
      && v.dateProgrammation == Some(p.dateProgrammation) && v.finProgrammation == Some(p.finProgrammation)
      && v.statutProgrammation == Some(p.statutProgrammation.Name())
      && v.codeSalle == Some(p.codeSalle) && v.codeCours == Some(p.codeCours)
      && v.codePersonnelProg == Some(p.codePersonnelProg) && v.codePersonnelVal == p.codePersonnelVal
  {
    HydrateResolves(db, id);
  }

  /** The views of the bookings of `rows`, under their ids. */
  function Views(db: Db, rows: Rows): map<int, ProgrammationDto>
    requires rows.Keys <= db.programmations.Keys
  {
    map id | id in rows :: View(db, id)
  }

  /**
   * `creerProgrammation`: the simple checks in their order, then room
   * availability, then the mapping of the transfer object (an unknown
   * status name fails there), then the lookups of room, course and
   * organiser; the new booking gets the next id, the status PROGRAMMER
   * whatever was sent, and no validator.
   */
  function CreerProgrammationOutcome(db: Db, d: ProgrammationDto): (r: (Result<ProgrammationDto, Error>, Db))
    requires db.Valid()
    ensures r.1.Valid()
    ensures r.0.Failure? ==> r.1 == db
    ensures Blank(d.codeCours) ==> r.0 == Failure(CodeCoursObligatoire)
    ensures !Blank(d.codeCours) && Blank(d.codeSalle) ==> r.0 == Failure(CodeSalleObligatoire)
    ensures !Blank(d.codeCours) && !Blank(d.codeSalle) && Blank(d.codePersonnelProg) ==> r.0 == Failure(ProgrammateurObligatoire)
    ensures (!Blank(d.codeCours) && !Blank(d.codeSalle) && !Blank(d.codePersonnelProg)
      && (d.dateProgrammation.None? || d.finProgrammation.None?)) ==> r.0 == Failure(DatesObligatoires)
    ensures (!Blank(d.codeCours) && !Blank(d.codeSalle) && !Blank(d.codePersonnelProg)
      && d.dateProgrammation.Some? && d.finProgrammation.Some?
      && d.dateProgrammation.value > d.finProgrammation.value) ==> r.0 == Failure(DebutApresFin)
    ensures Complete(d) && !IsSalleDisponible(db.programmations, d.codeSalle, d.dateProgrammation.value, d.finProgrammation.value)
      ==> r.0 == Failure(SalleOccupee)
    ensures r.0.Success? <==>
      && Complete(d)
      && IsSalleDisponible(db.programmations, d.codeSalle, d.dateProgrammation.value, d.finProgrammation.value)
      && ProgrammationMapper.ToEntity(d).Success?
      && d.codeSalle.value in db.salles && d.codeCours.value in db.cours && d.codePersonnelProg.value in db.personnels
    ensures r.0.Success? ==>
      && db.nextId !in db.programmations
      && r.1 == db.(
           programmations := db.programmations[db.nextId := ProgrammationRecord(d.nbHeure, d.dateProgrammation.value,
             d.finProgrammation.value, PROGRAMMER, d.codeSalle.value, d.codeCours.value, d.codePersonnelProg.value, None)],
           nextId := db.nextId + 1)
      && r.0.value == View(r.1, db.nextId)
  {
    if Blank(d.codeCours) then (Failure(CodeCoursObligatoire), db)
    else if Blank(d.codeSalle) then (Failure(CodeSalleObligatoire), db)
    else if Blank(d.codePersonnelProg) then (Failure(ProgrammateurObligatoire), db)
    else if d.dateProgrammation.None? || d.finProgrammation.None? then (Failure(DatesObligatoires), db)
    else if d.dateProgrammation.value > d.finProgrammation.value then (Failure(DebutApresFin), db)
    else if !IsSalleDisponible(db.programmations, d.codeSalle, d.dateProgrammation.value, d.finProgrammation.value) then
      (Failure(SalleOccupee), db)
    else match ProgrammationMapper.ToEntity(d)
      case Failure(e) => (Failure(e), db)
      case Success(_) =>
        if d.codeSalle.value !in db.salles then (Failure(SalleIntrouvable), db)
        else if d.codeCours.value !in db.cours then (Failure(CoursIntrouvable), db)
        else if d.codePersonnelProg.value !in db.personnels then (Failure(ProgrammateurIntrouvable), db)
        else
          var p := ProgrammationRecord(d.nbHeure, d.dateProgrammation.value, d.finProgrammation.value, PROGRAMMER,
            d.codeSalle.value, d.codeCours.value, d.codePersonnelProg.value, None);
          var db' := db.(programmations := db.programmations[db.nextId := p], nextId := db.nextId + 1);
          AddProgrammationValid(db, p);
          (Success(View(db', db.nextId)), db')
  }

  /**
   * A successful creation returns a pending booking of the room, course and
   * organiser that were sent, with the times sent, the status PROGRAMMER
   * and no validator; it is listed as awaiting validation, and it overlaps
   * no booking that the room had.
   */
  lemma CreatedBooking(db: Db, d: ProgrammationDto)
    requires db.Valid() && CreerProgrammationOutcome(db, d).0.Success?
    ensures var (r, db') := CreerProgrammationOutcome(db, d);
      && r.value.id == Some(db.nextId)
      && r.value.codeSalle == d.codeSalle && r.value.codeCours == d.codeCours && r.value.codePersonnelProg == d.codePersonnelProg
      && r.value.dateProgrammation == d.dateProgrammation && r.value.finProgrammation == d.finProgrammation
      && r.value.statutProgrammation == Some("PROGRAMMER") && r.value.codePersonnelVal.None?
      && db.nextId in FindEnAttenteValidation(db'.programmations)
      && forall id | id in db.programmations && db.programmations[id].codeSalle == d.codeSalle.value ::
           !Chevauche(db.programmations[id], d.dateProgrammation.value, d.finProgrammation.value)
  {
    var db' := CreerProgrammationOutcome(db, d).1;
    ViewShowsRow(db', db.nextId);
  }

  /** A booking just created is found under its id with the view that creation returned. */
  lemma CreatedBookingIsFound(db: Db, d: ProgrammationDto)
    requires db.Valid() && CreerProgrammationOutcome(db, d).0.Success?
    ensures var (r, db') := CreerProgrammationOutcome(db, d);
      GetProgrammationById(db', db.nextId) == r
  {
  }

  /**
   * Availability is checked before the lookups: an unknown room that has
   * no bookings passes the check and fails later, at its lookup.
   */
  lemma UnknownRoomFailsAtLookup(db: Db, d: ProgrammationDto)
    requires db.Valid() && Complete(d) && ProgrammationMapper.ToEntity(d).Success?
    requires d.codeSalle.value !in db.salles
    ensures CreerProgrammationOutcome(db, d) == (Failure(SalleIntrouvable), db)
  {
    assert FindBySalle(db.programmations, d.codeSalle.value) == map[] by {
      forall id | id in db.programmations ensures db.programmations[id].codeSalle != d.codeSalle.value {
        assert db.Refers(db.programmations[id]);
      }
    }
    EmptyRoomAvailable(db.programmations, d.codeSalle, d.dateProgrammation.value, d.finProgrammation.value);
  }

  /** The bookings as the availability query sees them during an update: booking `id` with its new times and its old room. */
  function Flushed(rows: Rows, id: int, d: ProgrammationDto): (r: Rows)
    requires id in rows && d.dateProgrammation.Some? && d.finProgrammation.Some?
    ensures r.Keys == rows.Keys
    ensures forall k | k in rows && k != id :: r[k] == rows[k]
    ensures r[id] == rows[id].(nbHeure := d.nbHeure, dateProgrammation := d.dateProgrammation.value, finProgrammation := d.finProgrammation.value)
  {
    rows[id := rows[id].(nbHeure := d.nbHeure, dateProgrammation := d.dateProgrammation.value, finProgrammation := d.finProgrammation.value)]
  }

  /**
   * `updateProgrammation`: an unknown id fails; a null date fails when the
   * loaded booking is flushed before the availability query; the query
   * sees the booking with its new times; then the room and course are
   * looked up (a null code is a null identifier) and the status goes
   * through `valueOf`. Hours, times, room, course and status come from the
   * transfer object; organiser and validator stay; the order of start and
   * end is not checked.
   */
  function UpdateProgrammationOutcome(db: Db, id: int, d: ProgrammationDto): (r: (Result<ProgrammationDto, Error>, Db))
    requires db.Valid()
    ensures r.1.Valid()
    ensures r.0.Failure? ==> r.1 == db
    ensures id !in db.programmations ==> r.0 == Failure(ProgrammationIntrouvable)
    ensures id in db.programmations && (d.dateProgrammation.None? || d.finProgrammation.None?) ==> r.0 == Failure(NullColumn)
    ensures id in db.programmations && d.dateProgrammation.Some? && d.finProgrammation.Some?
      && !IsSalleDisponible(Flushed(db.programmations, id, d), d.codeSalle, d.dateProgrammation.value, d.finProgrammation.value)
      ==> r.0 == Failure(SalleIndisponible)
    ensures r.0.Success? <==>
      && id in db.programmations && d.dateProgrammation.Some? && d.finProgrammation.Some?
      && IsSalleDisponible(Flushed(db.programmations, id, d), d.codeSalle, d.dateProgrammation.value, d.finProgrammation.value)
      && d.codeSalle.Some? && d.codeSalle.value in db.salles
      && d.codeCours.Some? && d.codeCours.value in db.cours
      && StatutFromName(d.statutProgrammation).Success?
    ensures r.0.Success? ==>
      var before := db.programmations[id];
      && r.1 == db.(programmations := db.programmations[id := ProgrammationRecord(d.nbHeure, d.dateProgrammation.value,
           d.finProgrammation.value, StatutFromName(d.statutProgrammation).value, d.codeSalle.value, d.codeCours.value,
           before.codePersonnelProg, before.codePersonnelVal)])
      && r.0.value == View(r.1, id)
  {
    if id !in db.programmations then (Failure(ProgrammationIntrouvable), db)
    else if d.dateProgrammation.None? || d.finProgrammation.None? then (Failure(NullColumn), db)
    else
      var flushed := Flushed(db.programmations, id, d);
      if !IsSalleDisponible(flushed, d.codeSalle, d.dateProgrammation.value, d.finProgrammation.value) then
        (Failure(SalleIndisponible), db)
      else if d.codeSalle.None? then (Failure(NullIdentifier), db)
      else if d.codeSalle.value !in db.salles then (Failure(SalleIntrouvable), db)
      else if d.codeCours.None? then (Failure(NullIdentifier), db)
      else if d.codeCours.value !in db.cours then (Failure(CoursIntrouvable), db)
      else match StatutFromName(d.statutProgrammation)
        case Failure(e) => (Failure(e), db)
        case Success(st) =>
          var p := flushed[id].(codeSalle := d.codeSalle.value, codeCours := d.codeCours.value, statutProgrammation := st);
          assert db.Refers(db.programmations[id]);
          PutProgrammationValid(db, id, p);
          var db' := db.(programmations := db.programmations[id := p]);
          (Success(View(db', id)), db')
  }

  /**
   * The availability query never leaves out the booking being edited: an
   * update that names the booking's own room fails as unavailable, whatever
   * the new window.
   */
  lemma UpdateInSameRoomConflicts(db: Db, id: int, d: ProgrammationDto)
    requires db.Valid() && id in db.programmations
    requires d.dateProgrammation.Some? && d.finProgrammation.Some?
    requires d.codeSalle == Some(db.programmations[id].codeSalle)
    ensures UpdateProgrammationOutcome(db, id, d) == (Failure(SalleIndisponible), db)
  {
    var flushed := Flushed(db.programmations, id, d);
    assert Chevauche(flushed[id], d.dateProgrammation.value, d.finProgrammation.value);
  }

  /** Resubmitting a booking unchanged is refused. */
  lemma ResubmittingIsRefused(db: Db, id: int)
    requires db.Valid() && id in db.programmations
    ensures UpdateProgrammationOutcome(db, id, View(db, id)) == (Failure(SalleIndisponible), db)
  {
    ViewShowsRow(db, id);
    UpdateInSameRoomConflicts(db, id, View(db, id));
  }

  /**
   * `validerProgrammation`: an unknown id fails, then an unknown validator;
   * otherwise the status becomes VALIDER and the validator is set, whatever
   * the status was, and nothing else changes.
   */
  function ValiderProgrammationOutcome(db: Db, id: int, codePersonnelVal: string): (r: (Result<ProgrammationDto, Error>, Db))
    requires db.Valid()
    ensures r.1.Valid()
    ensures r.0.Failure? ==> r.1 == db
    ensures id !in db.programmations ==> r.0 == Failure(ProgrammationIntrouvable)
    ensures id in db.programmations && codePersonnelVal !in db.personnels ==> r.0 == Failure(ValidateurIntrouvable)
    ensures r.0.Success? <==> id in db.programmations && codePersonnelVal in db.personnels
    ensures r.0.Success? ==>
      && r.1 == db.(programmations := db.programmations[id :=
           db.programmations[id].(statutProgrammation := VALIDER, codePersonnelVal := Some(codePersonnelVal))])
      && r.0.value == View(r.1, id)
  {
    if id !in db.programmations then (Failure(ProgrammationIntrouvable), db)
    else if codePersonnelVal !in db.personnels then (Failure(ValidateurIntrouvable), db)
    else
      var p := db.programmations[id].(statutProgrammation := VALIDER, codePersonnelVal := Some(codePersonnelVal));
      assert db.Refers(db.programmations[id]);
      PutProgrammationValid(db, id, p);
      var db' := db.(programmations := db.programmations[id := p]);
      (Success(View(db', id)), db')
  }

  /** Validating twice with the same validator gives the same answer and the same store as validating once. */
  lemma ValidationIsIdempotent(db: Db, id: int, codePersonnelVal: string)
    requires db.Valid() && ValiderProgrammationOutcome(db, id, codePersonnelVal).0.Success?
    ensures var once := ValiderProgrammationOutcome(db, id, codePersonnelVal);
      ValiderProgrammationOutcome(once.1, id, codePersonnelVal) == once
  {
    var once := ValiderProgrammationOutcome(db, id, codePersonnelVal);
    var p := db.programmations[id].(statutProgrammation := VALIDER, codePersonnelVal := Some(codePersonnelVal));
    assert once.1.programmations[id := p] == once.1.programmations;
  }

  /** A validated booking is no longer awaiting validation and is listed under its validator. */
  lemma ValidatedBookingLeavesPending(db: Db, id: int, codePersonnelVal: string)
    requires db.Valid() && ValiderProgrammationOutcome(db, id, codePersonnelVal).0.Success?
    ensures var rows := ValiderProgrammationOutcome(db, id, codePersonnelVal).1.programmations;
      id !in FindEnAttenteValidation(rows) && id in FindByValidateur(rows, codePersonnelVal)
  {
  }

  /** `deleteProgrammation`: an unknown id fails; otherwise exactly that booking is removed. */
  function DeleteProgrammationOutcome(db: Db, id: int): (r: (Result<(), Error>, Db))
    requires db.Valid()
    ensures r.1.Valid()
    ensures r.0.Success? <==> id in db.programmations
    ensures r.0.Failure? ==> r.0.error == ProgrammationIntrouvable && r.1 == db
    ensures r.0.Success? ==> r.1 == db.(programmations := db.programmations - {id})
  {
    if id !in db.programmations then (Failure(ProgrammationIntrouvable), db)
    else (Success(()), db.(programmations := db.programmations - {id}))
  }

  /** `getProgrammationById`: the view of the booking, or an error quoting the id. */
  function GetProgrammationById(db: Db, id: int): (r: Result<ProgrammationDto, Error>)
    ensures r.Success? <==> id in db.programmations
    ensures r.Success? ==> r.value == View(db, id)
    ensures r.Failure? ==> r.error == ProgrammationIntrouvableId(id)
  {
    if id in db.programmations then Success(View(db, id)) else Failure(ProgrammationIntrouvableId(id))
  }

  /** `getByStatut`: the status name goes through `valueOf`, then the views of the bookings with that status. */
  function GetByStatut(db: Db, statut: Option<string>): (r: Result<map<int, ProgrammationDto>, Error>)
    ensures r.Failure? <==> StatutFromName(statut).Failure?
    ensures r.Failure? ==> r.error == StatutFromName(statut).error
    ensures r.Success? ==> forall id :: id in r.value <==>
      (id in db.programmations && db.programmations[id].statutProgrammation.Name() == statut.value)
    ensures r.Success? ==> forall id | id in r.value :: id in db.programmations && r.value[id] == View(db, id)
  {
    match StatutFromName(statut)
    case Failure(e) => Failure(e)
    case Success(st) => Success(Views(db, FindByStatutProgrammation(db.programmations, st)))
  }

  /** `getBySalle`: the views of the bookings of room `codeSalle`. */
  function GetBySalle(db: Db, codeSalle: string): (r: map<int, ProgrammationDto>)
    ensures forall id :: id in r <==> id in db.programmations && db.programmations[id].codeSalle == codeSalle
    ensures forall id | id in r :: id in db.programmations && r[id] == View(db, id)
  {
    Views(db, FindBySalle(db.programmations, codeSalle))
  }

  /** `getByCours`: the views of the bookings of course `codeCours`. */
  function GetByCours(db: Db, codeCours: string): (r: map<int, ProgrammationDto>)
    ensures forall id :: id in r <==> id in db.programmations && db.programmations[id].codeCours == codeCours
    ensures forall id | id in r :: id in db.programmations && r[id] == View(db, id)
  {
    Views(db, FindByCours(db.programmations, codeCours))
  }

  /** `getByPersonnel`: the views of the bookings organised by `codePersonnel`. */
  function GetByPersonnel(db: Db, codePersonnel: string): (r: map<int, ProgrammationDto>)
    ensures forall id :: id in r <==> id in db.programmations && db.programmations[id].codePersonnelProg == codePersonnel
    ensures forall id | id in r :: id in db.programmations && r[id] == View(db, id)
  {
    Views(db, FindByPersonnel(db.programmations, codePersonnel))
  }

  /** `getByValidateur`: the views of the bookings validated by `codePersonnel`; a booking without validator is never among them. */
  function GetByValidateur(db: Db, codePersonnel: string): (r: map<int, ProgrammationDto>)
    ensures forall id :: id in r <==> id in db.programmations && db.programmations[id].codePersonnelVal == Some(codePersonnel)
    ensures forall id | id in r :: id in db.programmations && r[id] == View(db, id)
  {
    Views(db, FindByValidateur(db.programmations, codePersonnel))
  }

  /** `getProgrammationsEntre`: the views of the bookings lying within [debut, fin]. */
  function GetProgrammationsEntre(db: Db, debut: int, fin: int): (r: map<int, ProgrammationDto>)
    ensures forall id :: id in r <==> (id in db.programmations
      && debut <= db.programmations[id].dateProgrammation && db.programmations[id].finProgrammation <= fin)
    ensures forall id | id in r :: id in db.programmations && r[id] == View(db, id)
  {
    Views(db, FindByDateRange(db.programmations, debut, fin))
  }

  /** `getEnAttenteValidation`: the views of the bookings with status PROGRAMMER and no validator. */
  function GetEnAttenteValidation(db: Db): (r: map<int, ProgrammationDto>)
    ensures forall id :: id in r <==> (id in db.programmations
      && db.programmations[id].statutProgrammation == PROGRAMMER && db.programmations[id].codePersonnelVal.None?)
    ensures forall id | id in r :: id in db.programmations && r[id] == View(db, id)
  {
    Views(db, FindEnAttenteValidation(db.programmations))
  }

  /** The views of the bookings `ids`, in the same order. */
  function ViewSeq(db: Db, ids: seq<int>): (r: seq<ProgrammationDto>)
    requires forall i | 0 <= i < |ids| :: ids[i] in db.programmations
    ensures |r| == |ids|
    ensures forall i | 0 <= i < |ids| :: r[i] == View(db, ids[i])
  {
    seq(|ids|, i requires 0 <= i < |ids| => View(db, ids[i]))
  }

  /**
   * `getProgrammationsFutures`: the views of the bookings that start at or
   * after `now`, in non-decreasing order of start, each booking once.
   */
  ghost function GetProgrammationsFutures(db: Db, now: int): (r: seq<ProgrammationDto>)
    requires db.Valid()
    ensures forall i | 0 <= i < |r| :: r[i].dateProgrammation.Some? && r[i].dateProgrammation.value >= now
    ensures forall i, j | 0 <= i < j < |r| :: r[i].dateProgrammation.value <= r[j].dateProgrammation.value
    ensures forall id | id in db.programmations && db.programmations[id].dateProgrammation >= now ::
      exists i | 0 <= i < |r| :: r[i] == View(db, id)
    ensures forall i, j | 0 <= i < j < |r| :: r[i].id != r[j].id
  {
    var ids := FindProgrammationsFutures(db.programmations, now);
    var r := ViewSeq(db, ids);
    FuturesShowRows(db, ids);
    FuturesComplete(db, now, ids);
    FuturesDistinct(db, now, ids);
    r
  }

  /** Each view of a listing shows the id and start of its booking. */
  lemma FuturesShowRows(db: Db, ids: seq<int>)
    requires db.Valid() && forall i | 0 <= i < |ids| :: ids[i] in db.programmations
    ensures forall i | 0 <= i < |ids| ::
      ViewSeq(db, ids)[i].id == Some(ids[i]) && ViewSeq(db, ids)[i].dateProgrammation == Some(db.programmations[ids[i]].dateProgrammation)
  {
    forall i | 0 <= i < |ids|
      ensures ViewSeq(db, ids)[i].id == Some(ids[i]) && ViewSeq(db, ids)[i].dateProgrammation == Some(db.programmations[ids[i]].dateProgrammation)
    {
      ViewShowsRow(db, ids[i]);
    }
  }

  /** Every future booking has its view in the listing. */
  lemma FuturesComplete(db: Db, now: int, ids: seq<int>)
    requires ids == FindProgrammationsFutures(db.programmations, now)
    ensures forall id | id in db.programmations && db.programmations[id].dateProgrammation >= now ::
      exists i | 0 <= i < |ids| :: ViewSeq(db, ids)[i] == View(db, id)
  {
    forall id | id in db.programmations && db.programmations[id].dateProgrammation >= now
      ensures exists i | 0 <= i < |ids| :: ViewSeq(db, ids)[i] == View(db, id)
    {
      assert multiset(ids)[id] == 1;
      var i :| 0 <= i < |ids| && ids[i] == id;
      assert ViewSeq(db, ids)[i] == View(db, id);
    }
  }

  /** No booking appears twice in the listing. */
  lemma FuturesDistinct(db: Db, now: int, ids: seq<int>)
    requires db.Valid() && ids == FindProgrammationsFutures(db.programmations, now)
    ensures forall i, j | 0 <= i < j < |ids| :: ViewSeq(db, ids)[i].id != ViewSeq(db, ids)[j].id
  {
    assert forall x :: multiset(ids)[x] <= 1;
    AtMostOnceDistinct(ids);
    FuturesShowRows(db, ids);
  }

  /** A sequence in which nothing occurs twice has distinct elements. */
  lemma AtMostOnceDistinct(s: seq<int>)
    requires forall x :: multiset(s)[x] <= 1
    ensures forall i, j | 0 <= i < j < |s| :: s[i] != s[j]
  {
    forall i, j | 0 <= i < j < |s| ensures s[i] != s[j] {
      if s[i] == s[j] {
        MultisetTwoIndices(s, i, j);
      }
    }
  }

  /** An element at two distinct positions of a sequence occurs in it at least twice. */
  lemma MultisetTwoIndices(s: seq<int>, i: int, j: int)
    requires 0 <= i < j < |s| && s[i] == s[j]
    ensures multiset(s)[s[i]] >= 2
  {
    assert s == s[..i] + [s[i]] + s[i + 1..j] + [s[j]] + s[j + 1..];
  }

  /** `countByStatut`: the status name goes through `valueOf`, then the number of bookings `getByStatut` lists. */
  function CountByStatutName(db: Db, statut: Option<string>): (r: Result<nat, Error>)
    ensures r.Failure? <==> GetByStatut(db, statut).Failure?
    ensures r.Success? ==> r.value == |GetByStatut(db, statut).value|
  {
    match StatutFromName(statut)
    case Failure(e) => Failure(e)
    case Success(st) =>
      var found := FindByStatutProgrammation(db.programmations, st);
      assert Views(db, found).Keys == found.Keys;
      Success(CountByStatut(db.programmations, st))
  }

  /** `getAllProgrammations`: the view of every booking. */
  function GetAllProgrammations(db: Db): (r: map<int, ProgrammationDto>)
    ensures r.Keys == db.programmations.Keys
    ensures forall id | id in r :: r[id] == View(db, id)
  {
    Views(db, db.programmations)
  }

  /** `creerProgrammation` on the store. */
  method CreerProgrammation(store: RecordStore, d: ProgrammationDto) returns (r: Result<ProgrammationDto, Error>)
    requires store.Valid()
    modifies store
    ensures store.Valid()
    ensures (r, store.Model()) == CreerProgrammationOutcome(old(store.Model()), d)
  {
    if Blank(d.codeCours) {
      return Failure(CodeCoursObligatoire);
    }
    if Blank(d.codeSalle) {
      return Failure(CodeSalleObligatoire);
    }
    if Blank(d.codePersonnelProg) {
      return Failure(ProgrammateurObligatoire);
    }
    if d.dateProgrammation.None? || d.finProgrammation.None? {
      return Failure(DatesObligatoires);
    }
    var debut, fin := d.dateProgrammation.value, d.finProgrammation.value;
    if debut > fin {
      return Failure(DebutApresFin);
    }
    var dispo := IsSalleDisponible(store.programmations, d.codeSalle, debut, fin);
    if !dispo {
      return Failure(SalleOccupee);
    }
    var entity := ProgrammationMapper.ToEntity(d);
    if entity.Failure? {
      return Failure(entity.error);
    }
    if d.codeSalle.value !in store.salles {
      return Failure(SalleIntrouvable);
    }
    if d.codeCours.value !in store.cours {
      return Failure(CoursIntrouvable);
    }
    if d.codePersonnelProg.value !in store.personnels {
      return Failure(ProgrammateurIntrouvable);
    }
    ghost var db := store.Model();
    var id := store.nextId;
    var p := ProgrammationRecord(d.nbHeure, debut, fin, PROGRAMMER, d.codeSalle.value, d.codeCours.value, d.codePersonnelProg.value, None);
    store.programmations := store.programmations[id := p];
    store.nextId := store.nextId + 1;
    AddProgrammationValid(db, p);
    r := Success(View(store.Model(), id));
  }

  /**
   * `updateProgrammation` on the store: the new times are written into the
   * booking before the availability query, and a later failure rolls the
   * booking back.
   */
  method UpdateProgrammation(store: RecordStore, id: int, d: ProgrammationDto) returns (r: Result<ProgrammationDto, Error>)
    requires store.Valid()
    modifies store
    ensures store.Valid()
    ensures (r, store.Model()) == UpdateProgrammationOutcome(old(store.Model()), id, d)
  {
    if id !in store.programmations {
      return Failure(ProgrammationIntrouvable);
    }
    if d.dateProgrammation.None? || d.finProgrammation.None? {
      // the flush before the query would write null into a non-optional column
      return Failure(NullColumn);
    }
    var snapshot := store.programmations;
    var debut, fin := d.dateProgrammation.value, d.finProgrammation.value;
    var prog := store.programmations[id].(nbHeure := d.nbHeure, dateProgrammation := debut, finProgrammation := fin);
    store.programmations := store.programmations[id := prog];
    var dispo := IsSalleDisponible(store.programmations, d.codeSalle, debut, fin);
    if !dispo {
      store.programmations := snapshot;
      return Failure(SalleIndisponible);
    }
    if d.codeSalle.None? {
      store.programmations := snapshot;
      return Failure(NullIdentifier);
    }
    if d.codeSalle.value !in store.salles {
      store.programmations := snapshot;
      return Failure(SalleIntrouvable);
    }
    if d.codeCours.None? {
      store.programmations := snapshot;
      return Failure(NullIdentifier);
    }
    if d.codeCours.value !in store.cours {
      store.programmations := snapshot;
      return Failure(CoursIntrouvable);
    }
    var statut := StatutFromName(d.statutProgrammation);
    if statut.Failure? {
      store.programmations := snapshot;
      return Failure(statut.error);
    }
    ghost var db := old(store.Model());
    prog := prog.(codeSalle := d.codeSalle.value, codeCours := d.codeCours.value, statutProgrammation := statut.value);
    store.programmations := snapshot[id := prog];
    assert db.Refers(db.programmations[id]);
    PutProgrammationValid(db, id, prog);
    r := Success(View(store.Model(), id));
  }

  /** `validerProgrammation` on the store: the changes reach the store by dirty checking, without a call to save. */
  method ValiderProgrammation(store: RecordStore, id: int, codePersonnelVal: string) returns (r: Result<ProgrammationDto, Error>)
    requires store.Valid()
    modifies store
    ensures store.Valid()
    ensures (r, store.Model()) == ValiderProgrammationOutcome(old(store.Model()), id, codePersonnelVal)
  {
    if id !in store.programmations {
      return Failure(ProgrammationIntrouvable);
    }
    if codePersonnelVal !in store.personnels {
      return Failure(ValidateurIntrouvable);
    }
    ghost var db := store.Model();
    var prog := store.programmations[id].(statutProgrammation := VALIDER, codePersonnelVal := Some(codePersonnelVal));
    store.programmations := store.programmations[id := prog];
    assert db.Refers(db.programmations[id]);
    PutProgrammationValid(db, id, prog);
    r := Success(View(store.Model(), id));
  }

  /** `deleteProgrammation` on the store. */
  method DeleteProgrammation(store: RecordStore, id: int) returns (r: Result<(), Error>)
    requires store.Valid()
    modifies store
    ensures store.Valid()
    ensures (r, store.Model()) == DeleteProgrammationOutcome(old(store.Model()), id)
  {
    if id !in store.programmations {
      return Failure(ProgrammationIntrouvable);
    }
    store.programmations := store.programmations - {id};
    r := Success(());
  }
}
