/** The room queries, over the rooms keyed by code. */
module SalleRepository {
  import opened Wrappers
  import opened Enums
  import opened Entities
  import opened Text
  import opened Tables

  type Salles = map<string, Salle>

  /** `existsByContenance`: some room has exactly this capacity. */
  function ExistsByContenance(m: Salles, contenance: int): (b: bool)
    ensures b <==> exists c | c in m :: m[c].contenance == contenance
  {
    ExistsWhere(m, (s: Salle) => s.contenance == contenance)
  }

  /** `findByContenanceGreaterThanEqual`. */
  function FindByContenanceGreaterThanEqual(m: Salles, contenance: int): (r: Salles)
    ensures forall c :: c in r <==> c in m && m[c].contenance >= contenance
    ensures forall c | c in r :: r[c] == m[c]
  {
    Where(m, (s: Salle) => s.contenance >= contenance)
  }

  /** `findByCodeSalleContaining`: the rooms whose code contains `fragment`. */
  function FindByCodeSalleContaining(m: Salles, fragment: string): (r: Salles)
    ensures forall c :: c in r <==> c in m && m[c].codeSalle.Some? && Contains(m[c].codeSalle.value, fragment)
    ensures forall c | c in r :: r[c] == m[c]
  {
    Where(m, (s: Salle) => s.codeSalle.Some? && Contains(s.codeSalle.value, fragment))
  }

  /** `findByStatutSalle`. */
  function FindByStatutSalle(m: Salles, statut: SalleStatus): (r: Salles)
    ensures forall c :: c in r <==> c in m && m[c].statutSalle == Some(statut)
    ensures forall c | c in r :: r[c] == m[c]
  {
    Where(m, (s: Salle) => s.statutSalle == Some(statut))
  }

  /** `findSallesLibres`: status LIBRE. */
  function FindSallesLibres(m: Salles): (r: Salles)
    ensures forall c :: c in r <==> c in m && m[c].statutSalle == Some(LIBRE)
    ensures forall c | c in r :: r[c] == m[c]
  {
    Where(m, (s: Salle) => s.statutSalle == Some(LIBRE))
  }

  /** `findSallesOccupees`: status OCCUPE. */
  function FindSallesOccupees(m: Salles): (r: Salles)
    ensures forall c :: c in r <==> c in m && m[c].statutSalle == Some(OCCUPE)
    ensures forall c | c in r :: r[c] == m[c]
  {
    Where(m, (s: Salle) => s.statutSalle == Some(OCCUPE))
  }

  /** `countByStatut`. */
  function CountByStatut(m: Salles, statut: SalleStatus): (n: nat)
    ensures n == |FindByStatutSalle(m, statut)|
  {
    var ks := set c | c in m && m[c].statutSalle == Some(statut);
    assert ks == FindByStatutSalle(m, statut).Keys;
    |ks|
  }

  /** `findByContenanceBetween`: both bounds inclusive. */
  function FindByContenanceBetween(m: Salles, min: int, max: int): (r: Salles)
    ensures forall c :: c in r <==> c in m && min <= m[c].contenance <= max
    ensures forall c | c in r :: r[c] == m[c]
  {
    Where(m, (s: Salle) => min <= s.contenance <= max)
  }

  /** `searchSalles`: each criterion that is null is ignored; the others must all hold. */
  function SearchSalles(m: Salles, statut: Option<SalleStatus>, minContenance: Option<int>, maxContenance: Option<int>): (r: Salles)
    ensures forall c :: c in r <==> (
      && c in m
      && (statut.None? || m[c].statutSalle == statut)
      && (minContenance.None? || m[c].contenance >= minContenance.value)
      && (maxContenance.None? || m[c].contenance <= maxContenance.value))
    ensures forall c | c in r :: r[c] == m[c]
  {
    Where(m, (s: Salle) =>
      && (statut.None? || s.statutSalle == statut)
      && (minContenance.None? || s.contenance >= minContenance.value)
      && (maxContenance.None? || s.contenance <= maxContenance.value))
  }

  /** `findSallesLibresAvecContenance`: LIBRE and at least `minContenance` places. */
  function FindSallesLibresAvecContenance(m: Salles, minContenance: int): (r: Salles)
    ensures forall c :: c in r <==> c in m && m[c].statutSalle == Some(LIBRE) && m[c].contenance >= minContenance
    ensures forall c | c in r :: r[c] == m[c]
  {
    Where(m, (s: Salle) => s.statutSalle == Some(LIBRE) && s.contenance >= minContenance)
  }

  /** With every criterion null the search returns every room. */
  lemma SearchWithoutCriteria(m: Salles)
    ensures SearchSalles(m, None, None, None) == m
  {
  }

  /** The fixed queries are searches with some criteria left null. */
  lemma QueriesAreSearches(m: Salles, min: int, max: int)
    ensures FindSallesLibresAvecContenance(m, min) == SearchSalles(m, Some(LIBRE), Some(min), None)
    ensures FindByContenanceBetween(m, min, max) == SearchSalles(m, None, Some(min), Some(max))
    ensures FindByContenanceGreaterThanEqual(m, min) == SearchSalles(m, None, Some(min), None)
    ensures FindByStatutSalle(m, LIBRE) == SearchSalles(m, Some(LIBRE), None, None)
  {
  }

  /** The free and occupied listings are the status filter with LIBRE and OCCUPE. */
  lemma FixedStatusQueries(m: Salles)
    ensures FindSallesLibres(m) == FindByStatutSalle(m, LIBRE)
    ensures FindSallesOccupees(m) == FindByStatutSalle(m, OCCUPE)
  {
  }
}
