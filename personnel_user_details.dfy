/**
 * The security principal built from a staff member: its username, its
 * password hash, its single authority and the account flags.
 */
module PersonnelUserDetails {
  import opened Wrappers
  import opened Errors
  import opened Enums
  import opened Entities
  import opened Dtos
  import opened Store
  import opened PersonnelRepository
  import opened CodeGenerator
  import opened PersonnelService

  /** The prefix Spring Security expects in front of a role name. */
  const RolePrefix := "ROLE_"

  /** Wraps the staff record given to the constructor; nothing changes it afterwards. */
  datatype UserDetails = UserDetails(personnel: Personnel) {

    /**
     * `getAuthorities`: one authority, the role's name behind `ROLE_`; a
     * staff record without a role fails when its name is asked for.
     */
    function GetAuthorities(): (r: Result<seq<string>, Error>)
      ensures personnel.rolePersonnel.None? ==> r == Failure(NullPointer)
      ensures personnel.rolePersonnel.Some? ==>
        && r.Success? && |r.value| == 1
        && |RolePrefix| <= |r.value[0]| && r.value[0][..|RolePrefix|] == RolePrefix
        && RoleValueOf(r.value[0][|RolePrefix|..]) == personnel.rolePersonnel
    {
      match personnel.rolePersonnel
      case None => Failure(NullPointer)
      case Some(role) =>
        var authority := RolePrefix + role.Name();
        assert authority[|RolePrefix|..] == role.Name();
        assert authority[..|RolePrefix|] == RolePrefix;
        Success([authority])
    }

    /** `getPassword`: the stored hash (null when the record has none). */
    function GetPassword(): (r: Option<string>)
      ensures r == personnel.padPersonnel
    {
      personnel.padPersonnel
    }

    /** `getUsername`: the login. */
    function GetUsername(): (r: string)
      ensures r == personnel.loginPersonnel
    {
      personnel.loginPersonnel
    }

    /** `isAccountNonExpired`: accounts never expire. */
    function IsAccountNonExpired(): (r: bool)
      ensures r
    {
      true
    }

    /** `isAccountNonLocked`: accounts are never locked. */
    function IsAccountNonLocked(): (r: bool)
      ensures r
    {
      true
    }

    /** `isCredentialsNonExpired`: credentials never expire. */
    function IsCredentialsNonExpired(): (r: bool)
      ensures r
    {
      true
    }

    /** `isEnabled`: accounts are always enabled. */
    function IsEnabled(): (r: bool)
      ensures r
    {
      true
    }

    /** `getPersonnel`: the record the principal was built from, which rebuilds the same principal. */
    function GetPersonnel(): (r: Personnel)
      ensures UserDetails(r) == this
    {
      personnel
    }
  }

  /** Two principals carry the same authority exactly when their staff have the same role. */
  lemma AuthorityDeterminesRole(a: UserDetails, b: UserDetails)
    requires a.personnel.rolePersonnel.Some? && b.personnel.rolePersonnel.Some?
    ensures a.GetAuthorities() == b.GetAuthorities() <==> a.personnel.rolePersonnel == b.personnel.rolePersonnel
  {
    if a.GetAuthorities() == b.GetAuthorities() {
      assert a.GetAuthorities().value[0] == b.GetAuthorities().value[0];
    }
  }

  /** The teacher role gives the authority `ROLE_ENSEIGNANT`. */
  lemma TeacherAuthority(p: Personnel)
    requires p.rolePersonnel == Some(ENSEIGNANT)
    ensures UserDetails(p).GetAuthorities() == Success(["ROLE_ENSEIGNANT"])
  {
    assert RolePrefix + ENSEIGNANT.Name() == "ROLE_ENSEIGNANT";
  }

  /**
   * The principal of a member that `creerPersonnel` just stored: its
   * username is the login that was sent, its password the encoded
   * password, its one authority the role name that was sent behind
   * `ROLE_`, and every account flag is set.
   */
  lemma CreatedMemberPrincipal(db: Db, d: PersonnelDto, motDePasse: string, encode: string -> string, year: int, draws: seq<int>)
    requires db.Valid() && CreerPersonnelOutcome(db, d, motDePasse, encode, year, draws).0.Success?
    ensures var code := GenerateCode(db.personnels.Keys, d.rolePersonnel, year, draws).value;
      var db' := CreerPersonnelOutcome(db, d, motDePasse, encode, year, draws).1;
      && code in db'.personnels
      && var u := UserDetails(db'.personnels[code]);
      && u.GetUsername() == d.loginPersonnel
      && u.GetPassword() == Some(encode(motDePasse))
      && u.GetAuthorities() == Success([RolePrefix + d.rolePersonnel.value])
      && u.IsAccountNonExpired() && u.IsAccountNonLocked() && u.IsCredentialsNonExpired() && u.IsEnabled()
  {
    var code := GenerateCode(db.personnels.Keys, d.rolePersonnel, year, draws).value;
    var db' := CreerPersonnelOutcome(db, d, motDePasse, encode, year, draws).1;
    var role := RoleValueOf(d.rolePersonnel.value).value;
    assert db'.personnels[code].rolePersonnel == Some(role);
    assert role.Name() == d.rolePersonnel.value;
  }

  /**
   * The principal built from the record the login finder returns carries
   * that login as its username, and the record it wraps is a stored one.
   */
  lemma FoundPrincipal(m: Personnels, login: string, p: Personnel)
    requires FindByLoginPersonnel(m, login) == Success(Some(p))
    ensures UserDetails(p).GetUsername() == login
    ensures UserDetails(p).GetPersonnel() in m.Values
    ensures exists c | c in m :: m[c].padPersonnel == UserDetails(p).GetPassword()
  {
    var c :| c in m && m[c] == p && m[c].loginPersonnel == login;
    assert m[c] in m.Values;
  }
}
