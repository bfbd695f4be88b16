/**
 * The staff registry service: creation with a unique login and phone number
 * and a generated code, update, delete with its cascade, and the lookups
 * and listings. Each state-changing operation is a function giving its
 * outcome (the answer and the store afterwards) and a method that performs
 * it on a `RecordStore`; a failure leaves the store as it was, since the
 * service is transactional. An unordered listing is the map from code to
 * view. The password encoder, the year and the random draws are parameters.
 */
module PersonnelService {
  import opened Wrappers
  import opened Enums
  import opened Errors
  import opened Entities
  import opened Dtos
  import opened Text
  import opened Store
  import PersonnelMapper
  import opened PersonnelRepository
  import opened CodeGenerator

  /** Each login and each phone number belongs to at most one staff member. */
  predicate UniqueContacts(m: Personnels) {
    forall a, b | a in m && b in m && a != b ::
      m[a].loginPersonnel != m[b].loginPersonnel && m[a].phonePersonnel != m[b].phonePersonnel
  }

  /** The views of the staff members of `m`, under their codes. */
  function Views(m: Personnels): map<string, PersonnelDto> {
    map c | c in m :: PersonnelMapper.ToDto(m[c])
  }

  /**
   * `creerPersonnel`: a taken login fails first, then a taken phone number;
   * the code comes from the generator, the role name must be valid, and the
   * row saved holds the transfer object's fields, that code and the encoded
   * password.
   */
  function CreerPersonnelOutcome(db: Db, d: PersonnelDto, motDePasse: string, encode: string -> string, year: int, draws: seq<int>)
    : (r: (Result<PersonnelDto, Error>, Db))
    requires db.Valid()
    ensures r.1.Valid()
    ensures r.0.Failure? ==> r.1 == db
    ensures ExistsByLoginPersonnel(db.personnels, d.loginPersonnel) ==> r.0 == Failure(LoginExisteDeja)
    ensures !ExistsByLoginPersonnel(db.personnels, d.loginPersonnel)
      && (exists c | c in db.personnels :: db.personnels[c].phonePersonnel == d.phonePersonnel)
      ==> r.0 == Failure(TelephoneDejaUtilise) || r.0 == Failure(NonUniqueResult)
    ensures !ExistsByLoginPersonnel(db.personnels, d.loginPersonnel) && |WithPhone(db.personnels, d.phonePersonnel)| == 1
      ==> r.0 == Failure(TelephoneDejaUtilise)
    ensures !ExistsByLoginPersonnel(db.personnels, d.loginPersonnel) && |WithPhone(db.personnels, d.phonePersonnel)| > 1
      ==> r.0 == Failure(NonUniqueResult)
    ensures r.0.Success? <==>
      && !ExistsByLoginPersonnel(db.personnels, d.loginPersonnel)
      && (forall c | c in db.personnels :: db.personnels[c].phonePersonnel != d.phonePersonnel)
      && GenerateCode(db.personnels.Keys, d.rolePersonnel, year, draws).Success?
      && RoleValueOf(d.rolePersonnel.value).Some?
    ensures r.0.Success? ==>
      var code := GenerateCode(db.personnels.Keys, d.rolePersonnel, year, draws).value;
      && code !in db.personnels
      && r.1 == db.(personnels := db.personnels[code := Personnel(Some(code), d.nomPersonnel, d.loginPersonnel,
           Some(encode(motDePasse)), d.sexePersonnel, d.phonePersonnel, RoleValueOf(d.rolePersonnel.value))])
      && r.0.value == PersonnelMapper.ToDto(r.1.personnels[code])
  {
    if ExistsByLoginPersonnel(db.personnels, d.loginPersonnel) then (Failure(LoginExisteDeja), db)
    else match FindByPhonePersonnel(db.personnels, d.phonePersonnel)
      case Failure(e) => (Failure(e), db)
      case Success(Some(_)) => (Failure(TelephoneDejaUtilise), db)
      case Success(None) =>
        match GenerateCode(db.personnels.Keys, d.rolePersonnel, year, draws)
        case Failure(e) => (Failure(e), db)
        case Success(code) =>
          match PersonnelMapper.ToEntity(d)
          case Failure(e) => (Failure(e), db)
          case Success(p) =>
            var saved := p.(codePersonnel := Some(code), padPersonnel := Some(encode(motDePasse)));
            PutPersonnelValid(db, code, saved);
            (Success(PersonnelMapper.ToDto(saved)), db.(personnels := db.personnels[code := saved]))
  }

  /** The view `creerPersonnel` returns is the request with the generated code in place of the one it carried. */
  lemma CreatedViewIsRequest(db: Db, d: PersonnelDto, motDePasse: string, encode: string -> string, year: int, draws: seq<int>)
    requires db.Valid()
    requires CreerPersonnelOutcome(db, d, motDePasse, encode, year, draws).0.Success?
    ensures CreerPersonnelOutcome(db, d, motDePasse, encode, year, draws).0.value
      == d.(codePersonnel := Some(GenerateCode(db.personnels.Keys, d.rolePersonnel, year, draws).value))
  {
    var ro := RoleValueOf(d.rolePersonnel.value);
    assert ro.Some? && ro.value.Name() == d.rolePersonnel.value;
  }

  /** If logins and phone numbers were unique before a successful creation, they still are. */
  lemma CreationKeepsContactsUnique(db: Db, d: PersonnelDto, motDePasse: string, encode: string -> string, year: int, draws: seq<int>)
    requires db.Valid() && UniqueContacts(db.personnels)
    requires CreerPersonnelOutcome(db, d, motDePasse, encode, year, draws).0.Success?
    ensures UniqueContacts(CreerPersonnelOutcome(db, d, motDePasse, encode, year, draws).1.personnels)
  {
    var code := GenerateCode(db.personnels.Keys, d.rolePersonnel, year, draws).value;
    var p := Personnel(Some(code), d.nomPersonnel, d.loginPersonnel, Some(encode(motDePasse)), d.sexePersonnel,
      d.phonePersonnel, RoleValueOf(d.rolePersonnel.value));
    var m := CreerPersonnelOutcome(db, d, motDePasse, encode, year, draws).1.personnels;
    assert m == db.personnels[code := p];
    assert forall c | c in db.personnels :: db.personnels[c].loginPersonnel != d.loginPersonnel;
    assert forall c | c in db.personnels :: db.personnels[c].phonePersonnel != d.phonePersonnel;
    NewContactKeepsUnique(db.personnels, code, p);
  }

  /** Adding a staff member whose login and phone number nobody has keeps contacts unique. */
  lemma NewContactKeepsUnique(m: Personnels, code: string, p: Personnel)
    requires UniqueContacts(m) && code !in m
    requires forall c | c in m :: m[c].loginPersonnel != p.loginPersonnel && m[c].phonePersonnel != p.phonePersonnel
    ensures UniqueContacts(m[code := p])
  {
  }

  /**
   * A role string that names no role: the generator has produced an
   * XX-prefixed code, the mapper then fails, and nothing is stored.
   */
  lemma InvalidRoleStoresNothing(db: Db, d: PersonnelDto, motDePasse: string, encode: string -> string, year: int, draws: seq<int>)
    requires db.Valid()
    requires d.rolePersonnel.Some? && RoleValueOf(d.rolePersonnel.value).None?
    requires !ExistsByLoginPersonnel(db.personnels, d.loginPersonnel)
    requires forall c | c in db.personnels :: db.personnels[c].phonePersonnel != d.phonePersonnel
    requires GenerateCode(db.personnels.Keys, d.rolePersonnel, year, draws).Success?
    ensures GenerateCode(db.personnels.Keys, d.rolePersonnel, year, draws).value[..2] == "XX"
    ensures CreerPersonnelOutcome(db, d, motDePasse, encode, year, draws) == (Failure(IllegalEnumName(d.rolePersonnel.value)), db)
  {
    var name := d.rolePersonnel.value;
    assert FindByPhonePersonnel(db.personnels, d.phonePersonnel) == Success(None);
    assert PersonnelMapper.StringToRole(d.rolePersonnel).Failure?;
    assert PersonnelMapper.ToEntity(d) == Failure(IllegalEnumName(name));
  }

  /**
   * `updatePersonnel`: an unknown code fails; otherwise name, login, sex,
   * phone and role come from the transfer object (the role through
   * `valueOf`), the code and password hash are kept, and no uniqueness is
   * checked.
   */
  function UpdatePersonnelOutcome(db: Db, code: string, d: PersonnelDto): (r: (Result<PersonnelDto, Error>, Db))
    requires db.Valid()
    ensures r.1.Valid()
    ensures r.0.Failure? ==> r.1 == db
    ensures r.0.Success? <==> code in db.personnels && RoleFromName(d.rolePersonnel).Success?
    ensures code !in db.personnels ==> r.0 == Failure(PersonnelIntrouvable)
    ensures code in db.personnels && RoleFromName(d.rolePersonnel).Failure? ==> r.0 == Failure(RoleFromName(d.rolePersonnel).error)
    ensures r.0.Success? ==>
      && r.1 == db.(personnels := r.1.personnels)
      && r.1.personnels.Keys == db.personnels.Keys
      && (forall c | c in db.personnels && c != code :: r.1.personnels[c] == db.personnels[c])
      && var p, q := r.1.personnels[code], db.personnels[code];
      && p.codePersonnel == q.codePersonnel && p.padPersonnel == q.padPersonnel
      && p.nomPersonnel == d.nomPersonnel && p.loginPersonnel == d.loginPersonnel
      && p.sexePersonnel == d.sexePersonnel && p.phonePersonnel == d.phonePersonnel
      && p.rolePersonnel == Some(RoleFromName(d.rolePersonnel).value)
      && r.0.value == PersonnelMapper.ToDto(p)
  {
    if code !in db.personnels then (Failure(PersonnelIntrouvable), db)
    else match RoleFromName(d.rolePersonnel)
      case Failure(e) => (Failure(e), db)
      case Success(ro) =>
        var p := db.personnels[code].(nomPersonnel := d.nomPersonnel, loginPersonnel := d.loginPersonnel,
          sexePersonnel := d.sexePersonnel, phonePersonnel := d.phonePersonnel, rolePersonnel := Some(ro));
        PutPersonnelValid(db, code, p);
        (Success(PersonnelMapper.ToDto(p)), db.(personnels := db.personnels[code := p]))
  }

  /** Without a uniqueness check, an update can give a staff member another member's login. */
  lemma UpdateCanDuplicateLogin()
    ensures
      var a := Personnel(Some("A"), "Ngono", "ngono", Some("h1"), "F", "690000001", Some(ENSEIGNANT));
      var b := Personnel(Some("B"), "Abena", "abena", Some("h2"), "M", "690000002", Some(ENSEIGNANT));
      var db := Empty.(personnels := map["A" := a, "B" := b]);
      var r := UpdatePersonnelOutcome(db, "A", PersonnelDto(None, "Ngono", "abena", "F", "690000001", Some("ENSEIGNANT")));
      db.Valid() && UniqueContacts(db.personnels) && r.0.Success? && !UniqueContacts(r.1.personnels)
  {
    var a := Personnel(Some("A"), "Ngono", "ngono", Some("h1"), "F", "690000001", Some(ENSEIGNANT));
    var b := Personnel(Some("B"), "Abena", "abena", Some("h2"), "M", "690000002", Some(ENSEIGNANT));
    var db := Empty.(personnels := map["A" := a, "B" := b]);
    var r := UpdatePersonnelOutcome(db, "A", PersonnelDto(None, "Ngono", "abena", "F", "690000001", Some("ENSEIGNANT")));
    assert "A" != "B";
    assert r.1.personnels["A"].loginPersonnel == r.1.personnels["B"].loginPersonnel;
  }

  /** The booking row names `code` as its organiser or its validator. */
  predicate InvolvesMember(p: ProgrammationRecord, code: string) {
    p.codePersonnelProg == code || p.codePersonnelVal == Some(code)
  }

  /**
   * `deletePersonnel`: an unknown code fails; otherwise the staff member is
   * removed with, by cascade, the bookings they organised or validated.
   */
  function DeletePersonnelOutcome(db: Db, code: string): (r: (Result<(), Error>, Db))
    requires db.Valid()
    ensures r.1.Valid()
    ensures r.0.Success? <==> code in db.personnels
    ensures r.0.Failure? ==> r.0.error == PersonnelIntrouvable && r.1 == db
    ensures r.0.Success? ==>
      && r.1.personnels == db.personnels - {code}
      && (forall id :: id in r.1.programmations <==> id in db.programmations && !InvolvesMember(db.programmations[id], code))
      && (forall id | id in r.1.programmations :: r.1.programmations[id] == db.programmations[id])
      && r.1 == db.(personnels := r.1.personnels, programmations := r.1.programmations)
  {
    if code !in db.personnels then (Failure(PersonnelIntrouvable), db)
    else
      var kept := map id | id in db.programmations && !InvolvesMember(db.programmations[id], code) :: db.programmations[id];
      (Success(()), db.(personnels := db.personnels - {code}, programmations := kept))
  }

  /** `rechercherParNom`: the views of the staff whose name contains `token`. */
  function RechercherParNom(db: Db, token: string): (r: map<string, PersonnelDto>)
    ensures forall c :: c in r <==> c in db.personnels && Contains(db.personnels[c].nomPersonnel, token)
    ensures forall c | c in r :: r[c] == PersonnelMapper.ToDto(db.personnels[c])
  {
    Views(SearchByName(db.personnels, token))
  }

  /** `getByLogin`: the view of the staff member with that login; none fails, several is the finder's error. */
  function GetByLogin(db: Db, login: string): (r: Result<PersonnelDto, Error>)
    ensures (forall c | c in db.personnels :: db.personnels[c].loginPersonnel != login) <==> r == Failure(LoginIntrouvable)
    ensures r == Failure(NonUniqueResult) <==> |WithLogin(db.personnels, login)| > 1
    ensures r.Success? ==> exists c | c in db.personnels :: db.personnels[c].loginPersonnel == login && r.value == PersonnelMapper.ToDto(db.personnels[c])
  {
    match FindByLoginPersonnel(db.personnels, login)
    case Failure(e) => Failure(e)
    case Success(None) => Failure(LoginIntrouvable)
    case Success(Some(p)) => Success(PersonnelMapper.ToDto(p))
  }

  /** `getByPhone`: the view of the staff member with that phone number; none fails, several is the finder's error. */
  function GetByPhone(db: Db, phone: string): (r: Result<PersonnelDto, Error>)
    ensures (forall c | c in db.personnels :: db.personnels[c].phonePersonnel != phone) <==> r == Failure(TelephoneIntrouvable)
    ensures r == Failure(NonUniqueResult) <==> |WithPhone(db.personnels, phone)| > 1
    ensures r.Success? ==> exists c | c in db.personnels :: db.personnels[c].phonePersonnel == phone && r.value == PersonnelMapper.ToDto(db.personnels[c])
  {
    match FindByPhonePersonnel(db.personnels, phone)
    case Failure(e) => Failure(e)
    case Success(None) => Failure(TelephoneIntrouvable)
    case Success(Some(p)) => Success(PersonnelMapper.ToDto(p))
  }

  /** `getByRole`: the role name goes through `valueOf`, then the views of the staff with that role. */
  function GetByRole(db: Db, role: Option<string>): (r: Result<map<string, PersonnelDto>, Error>)
    ensures r.Failure? <==> RoleFromName(role).Failure?
    ensures r.Failure? ==> r.error == RoleFromName(role).error
    ensures r.Success? ==> forall c :: c in r.value <==>
      (c in db.personnels && db.personnels[c].rolePersonnel.Some? && db.personnels[c].rolePersonnel.value.Name() == role.value)
    ensures r.Success? ==> forall c | c in r.value :: r.value[c] == PersonnelMapper.ToDto(db.personnels[c])
  {
    match RoleFromName(role)
    case Failure(e) => Failure(e)
    case Success(ro) => Success(Views(FindByRolePersonnel(db.personnels, ro)))
  }

  /** `getEnseignants`: the views of the teachers. */
  function GetEnseignants(db: Db): (r: map<string, PersonnelDto>)
    ensures forall c :: c in r <==> c in db.personnels && db.personnels[c].rolePersonnel == Some(ENSEIGNANT)
    ensures forall c | c in r :: r[c] == PersonnelMapper.ToDto(db.personnels[c])
  {
    Views(FindAllEnseignants(db.personnels))
  }

  /** `getResponsablesAcademiques`: the views of the academic managers. */
  function GetResponsablesAcademiques(db: Db): (r: map<string, PersonnelDto>)
    ensures forall c :: c in r <==> c in db.personnels && db.personnels[c].rolePersonnel == Some(RESPONSABLE_ACADEMIQUE)
    ensures forall c | c in r :: r[c] == PersonnelMapper.ToDto(db.personnels[c])
  {
    Views(FindAllResponsablesAcademiques(db.personnels))
  }

  /** `getResponsablesPersonnel`: the views of the staff managers. */
  function GetResponsablesPersonnel(db: Db): (r: map<string, PersonnelDto>)
    ensures forall c :: c in r <==> c in db.personnels && db.personnels[c].rolePersonnel == Some(RESPONSABLE_PERSONNEL)
    ensures forall c | c in r :: r[c] == PersonnelMapper.ToDto(db.personnels[c])
  {
    Views(FindAllResponsablesPersonnel(db.personnels))
  }

  /** The fixed role listings are `getByRole` with the role's name. */
  lemma RoleListingsAreGetByRole(db: Db)
    ensures GetByRole(db, Some("ENSEIGNANT")) == Success(GetEnseignants(db))
    ensures GetByRole(db, Some("RESPONSABLE_ACADEMIQUE")) == Success(GetResponsablesAcademiques(db))
    ensures GetByRole(db, Some("RESPONSABLE_PERSONNEL")) == Success(GetResponsablesPersonnel(db))
  {
    RoleListingsAreRoleFilters(db.personnels);
  }

  /** `countByRole`: the role name goes through `valueOf`, then the number of staff with that role. */
  function CountByRoleName(db: Db, role: Option<string>): (r: Result<nat, Error>)
    ensures r.Failure? <==> GetByRole(db, role).Failure?
    ensures r.Success? ==> r.value == |GetByRole(db, role).value|
  {
    match RoleFromName(role)
    case Failure(e) => Failure(e)
    case Success(ro) =>
      var found := FindByRolePersonnel(db.personnels, ro);
      assert Views(found).Keys == found.Keys;
      Success(CountByRole(db.personnels, ro))
  }

  /** `getAll`: the view of every staff member. */
  function GetAll(db: Db): (r: map<string, PersonnelDto>)
    ensures r.Keys == db.personnels.Keys
    ensures forall c | c in r :: r[c] == PersonnelMapper.ToDto(db.personnels[c])
    ensures db.Valid() ==> forall c | c in r :: r[c].codePersonnel == Some(c)
  {
    Views(db.personnels)
  }

  /** `creerPersonnel` on the store. */
  method CreerPersonnel(store: RecordStore, d: PersonnelDto, motDePasse: string, encode: string -> string, year: int, draws: seq<int>)
    returns (r: Result<PersonnelDto, Error>)
    requires store.Valid()
    modifies store
    ensures store.Valid()
    ensures (r, store.Model()) == CreerPersonnelOutcome(old(store.Model()), d, motDePasse, encode, year, draws)
  {
    ghost var db := store.Model();
    if ExistsByLoginPersonnel(store.personnels, d.loginPersonnel) {
      return Failure(LoginExisteDeja);
    }
    var parTelephone := FindByPhonePersonnel(store.personnels, d.phonePersonnel);
    if parTelephone.Failure? {
      return Failure(parTelephone.error);
    }
    if parTelephone.value.Some? {
      return Failure(TelephoneDejaUtilise);
    }
    var code := Generate(store, d.rolePersonnel, year, draws);
    if code.Failure? {
      return Failure(code.error);
    }
    var personnel := PersonnelMapper.ToEntity(d);
    if personnel.Failure? {
      return Failure(personnel.error);
    }
    var saved := personnel.value.(codePersonnel := Some(code.value), padPersonnel := Some(encode(motDePasse)));
    store.personnels := store.personnels[code.value := saved];
    r := Success(PersonnelMapper.ToDto(saved));
    assert store.Model() == db.(personnels := db.personnels[code.value := saved]);
    PutPersonnelValid(db, code.value, saved);
  }

  /** `updatePersonnel` on the store. */
  method UpdatePersonnel(store: RecordStore, code: string, d: PersonnelDto) returns (r: Result<PersonnelDto, Error>)
    requires store.Valid()
    modifies store
    ensures store.Valid()
    ensures (r, store.Model()) == UpdatePersonnelOutcome(old(store.Model()), code, d)
  {
    if code !in store.personnels {
      return Failure(PersonnelIntrouvable);
    }
    var role := RoleFromName(d.rolePersonnel);
    if role.Failure? {
      return Failure(role.error);
    }
    var personnel := store.personnels[code].(nomPersonnel := d.nomPersonnel, loginPersonnel := d.loginPersonnel,
      sexePersonnel := d.sexePersonnel, phonePersonnel := d.phonePersonnel, rolePersonnel := Some(role.value));
    store.personnels := store.personnels[code := personnel];
    r := Success(PersonnelMapper.ToDto(personnel));
  }

  /** `deletePersonnel` on the store, with the cascade over the bookings. */
  method DeletePersonnel(store: RecordStore, code: string) returns (r: Result<(), Error>)
    requires store.Valid()
    modifies store
    ensures store.Valid()
    ensures (r, store.Model()) == DeletePersonnelOutcome(old(store.Model()), code)
  {
    if code !in store.personnels {
      return Failure(PersonnelIntrouvable);
    }
    store.programmations := map id | id in store.programmations && !InvolvesMember(store.programmations[id], code) :: store.programmations[id];
    store.personnels := store.personnels - {code};
    r := Success(());
  }
}
