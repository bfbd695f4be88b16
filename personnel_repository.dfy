/** The staff queries, over the staff members keyed by code. */
module PersonnelRepository {
  import opened Wrappers
  import opened Enums
  import opened Errors
  import opened Entities
  import opened Text
  import opened Tables

  type Personnels = map<string, Personnel>

  /** `searchByName`: the staff whose name contains `token`. */
  function SearchByName(m: Personnels, token: string): (r: Personnels)
    ensures forall c :: c in r <==> c in m && Contains(m[c].nomPersonnel, token)
    ensures forall c | c in r :: r[c] == m[c]
  {
    Where(m, (p: Personnel) => Contains(p.nomPersonnel, token))
  }

  /** `countBySexe`: the number of staff whose sex column equals `sexe`. */
  function CountBySexe(m: Personnels, sexe: string): (n: nat)
    ensures n == |set c | c in m && m[c].sexePersonnel == sexe|
    ensures n <= |m|
  {
    var ks := set c | c in m && m[c].sexePersonnel == sexe;
    assert ks <= m.Keys;
    SubsetCard(ks, m.Keys);
    |ks|
  }

  lemma SubsetCard(a: set<string>, b: set<string>)
    requires a <= b
    ensures |a| <= |b|
  {
    assert b == a + (b - a);
  }

  /** `findByRolePersonnel`. */
  function FindByRolePersonnel(m: Personnels, role: RolePersonnel): (r: Personnels)
    ensures forall c :: c in r <==> c in m && m[c].rolePersonnel == Some(role)
    ensures forall c | c in r :: r[c] == m[c]
  {
    Where(m, (p: Personnel) => p.rolePersonnel == Some(role))
  }

  /** `countByRole`. */
  function CountByRole(m: Personnels, role: RolePersonnel): (n: nat)
    ensures n == |FindByRolePersonnel(m, role)|
  {
    var ks := set c | c in m && m[c].rolePersonnel == Some(role);
    assert ks == FindByRolePersonnel(m, role).Keys;
    |ks|
  }

  /** `findAllEnseignants`. */
  function FindAllEnseignants(m: Personnels): (r: Personnels)
    ensures forall c :: c in r <==> c in m && m[c].rolePersonnel == Some(ENSEIGNANT)
    ensures forall c | c in r :: r[c] == m[c]
  {
    Where(m, (p: Personnel) => p.rolePersonnel == Some(ENSEIGNANT))
  }

  /** `findAllResponsablesAcademiques`. */
  function FindAllResponsablesAcademiques(m: Personnels): (r: Personnels)
    ensures forall c :: c in r <==> c in m && m[c].rolePersonnel == Some(RESPONSABLE_ACADEMIQUE)
    ensures forall c | c in r :: r[c] == m[c]
  {
    Where(m, (p: Personnel) => p.rolePersonnel == Some(RESPONSABLE_ACADEMIQUE))
  }

  /** `findAllResponsablesPersonnel`. */
  function FindAllResponsablesPersonnel(m: Personnels): (r: Personnels)
    ensures forall c :: c in r <==> c in m && m[c].rolePersonnel == Some(RESPONSABLE_PERSONNEL)
    ensures forall c | c in r :: r[c] == m[c]
  {
    Where(m, (p: Personnel) => p.rolePersonnel == Some(RESPONSABLE_PERSONNEL))
  }

  /** The three fixed role listings are the role filter with their role. */
  lemma RoleListingsAreRoleFilters(m: Personnels)
    ensures FindAllEnseignants(m) == FindByRolePersonnel(m, ENSEIGNANT)
    ensures FindAllResponsablesAcademiques(m) == FindByRolePersonnel(m, RESPONSABLE_ACADEMIQUE)
    ensures FindAllResponsablesPersonnel(m) == FindByRolePersonnel(m, RESPONSABLE_PERSONNEL)
  {
  }

  /** The staff whose login is `login`. */
  function WithLogin(m: Personnels, login: string): (r: Personnels)
    ensures forall c :: c in r <==> c in m && m[c].loginPersonnel == login
    ensures forall c | c in r :: r[c] == m[c]
  {
    Where(m, (p: Personnel) => p.loginPersonnel == login)
  }

  /** The staff whose phone number is `phone`. */
  function WithPhone(m: Personnels, phone: string): (r: Personnels)
    ensures forall c :: c in r <==> c in m && m[c].phonePersonnel == phone
    ensures forall c | c in r :: r[c] == m[c]
  {
    Where(m, (p: Personnel) => p.phonePersonnel == phone)
  }

  /** `findByLoginPersonnel`: the staff member with that login, nothing, or an error when several share it. */
  function FindByLoginPersonnel(m: Personnels, login: string): (r: Result<Option<Personnel>, Error>)
    ensures r == Success(None) <==> forall c | c in m :: m[c].loginPersonnel != login
    ensures r.Failure? <==> |WithLogin(m, login)| > 1
    ensures r.Failure? ==> r.error == NonUniqueResult
    ensures r.Success? && r.value.Some? ==> exists c | c in m :: m[c] == r.value.value && m[c].loginPersonnel == login
  {
    var w := WithLogin(m, login);
    assert w == map[] <==> forall c | c in m :: m[c].loginPersonnel != login by {
      if w != map[] {
        assert w.Keys != {};
      }
    }
    Single(w)
  }

  /** `existsByLoginPersonnel`. */
  function ExistsByLoginPersonnel(m: Personnels, login: string): (b: bool)
    ensures b <==> exists c | c in m :: m[c].loginPersonnel == login
  {
    ExistsWhere(m, (p: Personnel) => p.loginPersonnel == login)
  }

  /** A login exists exactly when the login finder does not come back empty; when it exists once, the finder returns its owner. */
  lemma ExistsIffFound(m: Personnels, login: string)
    ensures ExistsByLoginPersonnel(m, login) <==> FindByLoginPersonnel(m, login) != Success(None)
    ensures forall c | c in m && m[c].loginPersonnel == login && |WithLogin(m, login)| == 1 ::
      FindByLoginPersonnel(m, login) == Success(Some(m[c]))
  {
    forall c | c in m && m[c].loginPersonnel == login && |WithLogin(m, login)| == 1
      ensures FindByLoginPersonnel(m, login) == Success(Some(m[c]))
    {
      var w := WithLogin(m, login);
      assert c in w;
      var r := FindByLoginPersonnel(m, login);
      assert r == Single(w);
      assert r.Success? && r.value.Some?;
      var k :| w.Keys == {k} && w[k] == r.value.value;
      assert k == c;
    }
  }

  /** `findByPhonePersonnel`: the staff member with that phone number, nothing, or an error when several share it. */
  function FindByPhonePersonnel(m: Personnels, phone: string): (r: Result<Option<Personnel>, Error>)
    ensures r == Success(None) <==> forall c | c in m :: m[c].phonePersonnel != phone
    ensures r.Failure? <==> |WithPhone(m, phone)| > 1
    ensures r.Failure? ==> r.error == NonUniqueResult
    ensures r.Success? && r.value.Some? ==> exists c | c in m :: m[c] == r.value.value && m[c].phonePersonnel == phone
  {
    var w := WithPhone(m, phone);
    assert w == map[] <==> forall c | c in m :: m[c].phonePersonnel != phone by {
      if w != map[] {
        assert w.Keys != {};
      }
    }
    Single(w)
  }
}
