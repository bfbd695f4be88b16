/**
 * Staff-code generation: a role prefix, the current year and a random
 * number drawn until the code is not yet taken. The year and the random
 * draws come from outside (`LocalDate.now`, `ThreadLocalRandom`) and are
 * parameters; the draws are a finite sequence, each in [1000, 100000).
 */
module CodeGenerator {
  import opened Wrappers
  import opened Errors
  import opened Text
  import opened Store

  /** The role's prefix: ENS, RA, RD or RP for the four role names, XX for any other string. */
  function Prefix(role: string): (p: string)
    ensures p == "ENS" <==> role == "ENSEIGNANT"
    ensures p == "RA" <==> role == "RESPONSABLE_ACADEMIQUE"
    ensures p == "RD" <==> role == "RESPONSABLE_DISCIPLINE"
    ensures p == "RP" <==> role == "RESPONSABLE_PERSONNEL"
    ensures p == "XX" <==> role !in {"ENSEIGNANT", "RESPONSABLE_ACADEMIQUE", "RESPONSABLE_DISCIPLINE", "RESPONSABLE_PERSONNEL"}
  {
    match role
    case "ENSEIGNANT" => "ENS"
    case "RESPONSABLE_ACADEMIQUE" => "RA"
    case "RESPONSABLE_DISCIPLINE" => "RD"
    case "RESPONSABLE_PERSONNEL" => "RP"
    case _ => "XX"
  }

  /** A value `nextLong(1000, 100000)` can return. */
  predicate IsDraw(n: int) {
    1000 <= n < 100000
  }

  /** The candidate code: prefix, then the year and the draw in decimal. */
  function Candidate(prefix: string, year: int, n: int): (c: string)
    ensures |prefix| <= |c| && c[..|prefix|] == prefix
  {
    var rest := IntToString(year) + IntToString(n);
    assert (prefix + rest)[..|prefix|] == prefix;
    prefix + rest
  }

  /** `code` is built from draw `i`, and the candidates of all earlier draws are taken. */
  predicate IsFirstFree(taken: set<string>, prefix: string, year: int, draws: seq<int>, i: int, code: string) {
    0 <= i < |draws| && code == Candidate(prefix, year, draws[i])
    && forall j | 0 <= j < i :: Candidate(prefix, year, draws[j]) in taken
  }

  /** The first candidate built from `draws` that is not a key of `taken`; running out of draws is an error. */
  function FirstFree(taken: set<string>, prefix: string, year: int, draws: seq<int>): (r: Result<string, Error>)
    ensures r.Failure? <==> forall i | 0 <= i < |draws| :: Candidate(prefix, year, draws[i]) in taken
    ensures r.Failure? ==> r.error == DrawsExhausted
    ensures r.Success? ==> r.value !in taken && |prefix| <= |r.value| && r.value[..|prefix|] == prefix
    ensures r.Success? ==> exists i | 0 <= i < |draws| :: IsFirstFree(taken, prefix, year, draws, i, r.value)
  {
    if draws == [] then Failure(DrawsExhausted)
    else
      var code := Candidate(prefix, year, draws[0]);
      if code !in taken then
        assert IsFirstFree(taken, prefix, year, draws, 0, code);
        Success(code)
      else
        var r := FirstFree(taken, prefix, year, draws[1..]);
        assert forall i | 1 <= i < |draws| :: draws[1..][i - 1] == draws[i];
        if r.Success? then
          var i :| 0 <= i < |draws[1..]| && IsFirstFree(taken, prefix, year, draws[1..], i, r.value);
          assert IsFirstFree(taken, prefix, year, draws, i + 1, r.value);
          r
        else r
  }

  /**
   * `generate(roleString)`: a null role fails in the `switch`; otherwise the
   * first draw whose candidate is not the code of a stored staff member.
   */
  function GenerateCode(taken: set<string>, role: Option<string>, year: int, draws: seq<int>): (r: Result<string, Error>)
    ensures role.None? ==> r == Failure(NullPointer)
    ensures role.Some? ==> r == FirstFree(taken, Prefix(role.value), year, draws)
  {
    if role.None? then Failure(NullPointer) else FirstFree(taken, Prefix(role.value), year, draws)
  }

  /** A generated code is not taken and is the role's prefix, the year and one of the draws, in decimal. */
  lemma GeneratedCodeShape(taken: set<string>, role: string, year: int, draws: seq<int>)
    requires forall i | 0 <= i < |draws| :: IsDraw(draws[i])
    requires GenerateCode(taken, Some(role), year, draws).Success?
    ensures GenerateCode(taken, Some(role), year, draws).value !in taken
    ensures exists n | n in draws && IsDraw(n) :: GenerateCode(taken, Some(role), year, draws).value == Prefix(role) + IntToString(year) + IntToString(n)
  {
    var code := GenerateCode(taken, Some(role), year, draws).value;
    var i :| 0 <= i < |draws| && IsFirstFree(taken, Prefix(role), year, draws, i, code);
    assert code == Candidate(Prefix(role), year, draws[i]);
    assert draws[i] in draws;
  }

  /** The generator as written: draws until a free code comes up, reading the store only through `existsById`. */
  method Generate(store: RecordStore, role: Option<string>, year: int, draws: seq<int>) returns (r: Result<string, Error>)
    ensures r == GenerateCode(store.personnels.Keys, role, year, draws)
  {
    if role.None? {
      return Failure(NullPointer);
    }
    var prefix := Prefix(role.value);
    var i := 0;
    while i < |draws|
      invariant 0 <= i <= |draws|
      invariant FirstFree(store.personnels.Keys, prefix, year, draws) == FirstFree(store.personnels.Keys, prefix, year, draws[i..])
    {
      var code := Candidate(prefix, year, draws[i]);
      if code !in store.personnels {
        return Success(code);
      }
      assert draws[i..][1..] == draws[i + 1..];
      i := i + 1;
    }
    return Failure(DrawsExhausted);
  }
}
