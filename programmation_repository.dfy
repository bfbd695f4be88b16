/**
 * The booking queries. A query that returns an unordered list is modelled as
 * the sub-map of matching rows keyed by id (each row once, order left
 * unspecified); a count is the number of matching rows; the one `ORDER BY`
 * query returns a sequence of ids.
 */
module ProgrammationRepository {
  import opened Wrappers
  import opened Enums
  import opened Store
  import opened Sorting
  import opened Tables

  type Rows = map<int, ProgrammationRecord>

  /** `findByStatutProgrammation`. */
  function FindByStatutProgrammation(rows: Rows, statut: StatutProgrammation): (r: Rows)
    ensures forall id :: id in r <==> id in rows && rows[id].statutProgrammation == statut
    ensures forall id | id in r :: r[id] == rows[id]
  {
    Where(rows, (p: ProgrammationRecord) => p.statutProgrammation == statut)
  }

  /** `findBySalle`: the bookings whose room code is `codeSalle`. */
  function FindBySalle(rows: Rows, codeSalle: string): (r: Rows)
    ensures forall id :: id in r <==> id in rows && rows[id].codeSalle == codeSalle
    ensures forall id | id in r :: r[id] == rows[id]
  {
    Where(rows, (p: ProgrammationRecord) => p.codeSalle == codeSalle)
  }

  /** `findByCours`: the bookings whose course code is `codeCours`. */
  function FindByCours(rows: Rows, codeCours: string): (r: Rows)
    ensures forall id :: id in r <==> id in rows && rows[id].codeCours == codeCours
    ensures forall id | id in r :: r[id] == rows[id]
  {
    Where(rows, (p: ProgrammationRecord) => p.codeCours == codeCours)
  }

  /** `findByPersonnel`: the bookings organised by `codePersonnel`. */
  function FindByPersonnel(rows: Rows, codePersonnel: string): (r: Rows)
    ensures forall id :: id in r <==> id in rows && rows[id].codePersonnelProg == codePersonnel
    ensures forall id | id in r :: r[id] == rows[id]
  {
    Where(rows, (p: ProgrammationRecord) => p.codePersonnelProg == codePersonnel)
  }

  /** `findByValidateur`: the bookings validated by `codePersonnel`; a booking without a validator never matches. */
  function FindByValidateur(rows: Rows, codePersonnel: string): (r: Rows)
    ensures forall id :: id in r <==> id in rows && rows[id].codePersonnelVal == Some(codePersonnel)
    ensures forall id | id in r :: r[id] == rows[id] && r[id].codePersonnelVal.Some?
  {
    Where(rows, (p: ProgrammationRecord) => p.codePersonnelVal == Some(codePersonnel))
  }

  /** `findByDateRange`: the bookings that start at or after `debut` and end at or before `fin`. */
  function FindByDateRange(rows: Rows, debut: int, fin: int): (r: Rows)
    ensures forall id :: id in r <==> id in rows && debut <= rows[id].dateProgrammation && rows[id].finProgrammation <= fin
    ensures forall id | id in r :: r[id] == rows[id]
  {
    Where(rows, (p: ProgrammationRecord) => p.dateProgrammation >= debut && p.finProgrammation <= fin)
  }

  /** `findEnAttenteValidation`: status PROGRAMMER and no validator. */
  function FindEnAttenteValidation(rows: Rows): (r: Rows)
    ensures forall id :: id in r <==> id in rows && rows[id].statutProgrammation == PROGRAMMER && rows[id].codePersonnelVal.None?
    ensures forall id | id in r :: r[id] == rows[id]
  {
    Where(rows, (p: ProgrammationRecord) => p.statutProgrammation == PROGRAMMER && p.codePersonnelVal.None?)
  }

  /** A booking that has a validator is never pending, and one that is not PROGRAMMER neither. */
  lemma ValidatedNotPending(rows: Rows, id: int)
    requires id in rows
    requires rows[id].codePersonnelVal.Some? || rows[id].statutProgrammation != PROGRAMMER
    ensures id !in FindEnAttenteValidation(rows)
  {
  }

  /** `countByStatut`: the number of rows with that status. */
  function CountByStatut(rows: Rows, statut: StatutProgrammation): (n: nat)
    ensures n == |FindByStatutProgrammation(rows, statut)|
  {
    var ids := set id | id in rows && rows[id].statutProgrammation == statut;
    assert ids == FindByStatutProgrammation(rows, statut).Keys;
    |ids|
  }

  /**
   * One of the three clauses of the availability query: the booking covers
   * the new start, or covers the new end, or lies inside the new window.
   * Every bound is inclusive.
   */
  predicate Chevauche(p: ProgrammationRecord, debut: int, fin: int) {
    || (p.dateProgrammation <= debut && p.finProgrammation >= debut)
    || (p.dateProgrammation <= fin && p.finProgrammation >= fin)
    || (p.dateProgrammation >= debut && p.finProgrammation <= fin)
  }

  /**
   * `isSalleDisponible`: false when the count of bookings in that room that
   * meet a clause is positive. A null room code equals no row's code (SQL
   * comparison with null), so it is always available.
   */
  function IsSalleDisponible(rows: Rows, codeSalle: Option<string>, debut: int, fin: int): (r: bool)
    ensures r <==> forall id | id in rows && Some(rows[id].codeSalle) == codeSalle :: !Chevauche(rows[id], debut, fin)
  {
    var conflits := Conflits(rows, codeSalle, debut, fin);
    ConflitsEmpty(rows, codeSalle, debut, fin);
    if |conflits| > 0 then false else true
  }

  /** The ids the availability query counts. */
  function Conflits(rows: Rows, codeSalle: Option<string>, debut: int, fin: int): set<int> {
    set id | id in rows && Some(rows[id].codeSalle) == codeSalle && Chevauche(rows[id], debut, fin)
  }

  lemma ConflitsEmpty(rows: Rows, codeSalle: Option<string>, debut: int, fin: int)
    ensures |Conflits(rows, codeSalle, debut, fin)| == 0
      <==> forall id | id in rows && Some(rows[id].codeSalle) == codeSalle :: !Chevauche(rows[id], debut, fin)
  {
    var c := Conflits(rows, codeSalle, debut, fin);
    if c == {} {
      forall id | id in rows && Some(rows[id].codeSalle) == codeSalle
        ensures !Chevauche(rows[id], debut, fin)
      {
        assert id !in c;
      }
    }
    if forall id | id in rows && Some(rows[id].codeSalle) == codeSalle :: !Chevauche(rows[id], debut, fin) {
      assert c == {};
    }
  }

  /** When both windows run forwards, the three clauses say exactly that the closed intervals intersect. */
  lemma ChevaucheIsIntersection(p: ProgrammationRecord, debut: int, fin: int)
    requires p.dateProgrammation <= p.finProgrammation && debut <= fin
    ensures Chevauche(p, debut, fin) <==> (p.dateProgrammation <= fin && debut <= p.finProgrammation)
  {
  }

  /** A booking stored with its end before its start (update does not forbid one) can conflict with a window it does not intersect. */
  lemma BackwardsBookingConflicts()
    ensures var p := ProgrammationRecord(0, 50, 30, PROGRAMMER, "S1", "C1", "P1", None);
      Chevauche(p, 40, 40) && !(p.dateProgrammation <= 40 && 40 <= p.finProgrammation)
  {
  }

  /** Inclusive bounds: a booking in the room that ends exactly at the new start, or starts exactly at the new end, makes the room unavailable. */
  lemma TouchingBookingConflicts(rows: Rows, id: int, debut: int, fin: int)
    requires id in rows && rows[id].dateProgrammation <= rows[id].finProgrammation
    requires rows[id].finProgrammation == debut || rows[id].dateProgrammation == fin
    ensures !IsSalleDisponible(rows, Some(rows[id].codeSalle), debut, fin)
  {
    assert Chevauche(rows[id], debut, fin);
  }

  /** Only the bookings of the room asked about matter. */
  lemma OtherRoomsIgnored(rows: Rows, codeSalle: string, debut: int, fin: int)
    ensures IsSalleDisponible(rows, Some(codeSalle), debut, fin) == IsSalleDisponible(FindBySalle(rows, codeSalle), Some(codeSalle), debut, fin)
  {
    var mine := FindBySalle(rows, codeSalle);
    if !IsSalleDisponible(rows, Some(codeSalle), debut, fin) {
      var id :| id in rows && Some(rows[id].codeSalle) == Some(codeSalle) && Chevauche(rows[id], debut, fin);
      assert id in mine;
    }
  }

  /** A room without bookings, or a null room code, is available for every window. */
  lemma EmptyRoomAvailable(rows: Rows, codeSalle: Option<string>, debut: int, fin: int)
    requires codeSalle.None? || FindBySalle(rows, codeSalle.value) == map[]
    ensures IsSalleDisponible(rows, codeSalle, debut, fin)
  {
  }

  /**
   * `findProgrammationsFutures`: the ids of the bookings that start at or
   * after `now` (the database's CURRENT_TIMESTAMP), each once, in
   * non-decreasing order of start; bookings with the same start come in
   * an unspecified order.
   */
  ghost function FindProgrammationsFutures(rows: Rows, now: int): (r: seq<int>)
    ensures forall id :: multiset(r)[id] == if id in rows && rows[id].dateProgrammation >= now then 1 else 0
    ensures forall i | 0 <= i < |r| :: r[i] in rows && rows[r[i]].dateProgrammation >= now
    ensures forall i, j | 0 <= i < j < |r| :: r[i] in rows && r[j] in rows && rows[r[i]].dateProgrammation <= rows[r[j]].dateProgrammation
  {
    var ids := set id | id in rows && rows[id].dateProgrammation >= now;
    var key := (id: int) => if id in rows then rows[id].dateProgrammation else 0;
    var r := SortBy(Listing(ids), key);
    assert forall i | 0 <= i < |r| :: r[i] in ids by {
      forall i | 0 <= i < |r| ensures r[i] in ids {
        assert r[i] in multiset(r);
      }
    }
    r
  }
}
