/** The assignment queries, over the set of assignment keys. */
module AffectationRepository {
  import opened Entities

  /** `findByPersonnel`: the assignments of staff member `codePersonnel`. */
  function FindByPersonnel(affectations: set<AffectationId>, codePersonnel: string): (r: set<AffectationId>)
    ensures forall a :: a in r <==> a in affectations && a.codePersonnel == codePersonnel
  {
    set a | a in affectations && a.codePersonnel == codePersonnel
  }

  /** `findByCours`: the assignments to course `codeCours`. */
  function FindByCours(affectations: set<AffectationId>, codeCours: string): (r: set<AffectationId>)
    ensures forall a :: a in r <==> a in affectations && a.codeCours == codeCours
  {
    set a | a in affectations && a.codeCours == codeCours
  }

  /** `countByPersonnel`. */
  function CountByPersonnel(affectations: set<AffectationId>, codePersonnel: string): (n: nat)
    ensures n == |FindByPersonnel(affectations, codePersonnel)|
  {
    |set a | a in affectations && a.codePersonnel == codePersonnel|
  }

  /** `countByCours`. */
  function CountByCours(affectations: set<AffectationId>, codeCours: string): (n: nat)
    ensures n == |FindByCours(affectations, codeCours)|
  {
    |set a | a in affectations && a.codeCours == codeCours|
  }
}
