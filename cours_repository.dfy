/** The course queries, over the courses keyed by code. Hours and credits are stored as text. */
module CoursRepository {
  import opened Wrappers
  import opened Errors
  import opened Entities
  import opened Text
  import opened Tables
  import opened Sorting

  type Courses = map<string, Cours>

  /** `findByLabelCoursContaining`: the courses whose label contains `labelCours`. */
  function FindByLabelCoursContaining(m: Courses, labelCours: string): (r: Courses)
    ensures forall c :: c in r <==> c in m && Contains(m[c].labelCours, labelCours)
    ensures forall c | c in r :: r[c] == m[c]
  {
    Where(m, (co: Cours) => Contains(co.labelCours, labelCours))
  }

  /** `findByNbCreditCours`: the courses whose credit text equals `credits`. */
  function FindByNbCreditCours(m: Courses, credits: string): (r: Courses)
    ensures forall c :: c in r <==> c in m && m[c].nbCreditCours == credits
    ensures forall c | c in r :: r[c] == m[c]
  {
    Where(m, (co: Cours) => co.nbCreditCours == credits)
  }

  /** `countByCredits`. */
  function CountByCredits(m: Courses, credits: string): (n: nat)
    ensures n == |FindByNbCreditCours(m, credits)|
  {
    var ks := set c | c in m && m[c].nbCreditCours == credits;
    assert ks == FindByNbCreditCours(m, credits).Keys;
    |ks|
  }

  /** `searchCours`: the courses whose label or description contains `keyword`. */
  function SearchCours(m: Courses, keyword: string): (r: Courses)
    ensures forall c :: c in r <==> c in m && (Contains(m[c].labelCours, keyword) || Contains(m[c].descCours, keyword))
    ensures forall c | c in r :: r[c] == m[c]
  {
    Where(m, (co: Cours) => Contains(co.labelCours, keyword) || Contains(co.descCours, keyword))
  }

  /** The keyword search finds at least what the label search finds. */
  lemma SearchCoursCoversLabelSearch(m: Courses, keyword: string)
    ensures FindByLabelCoursContaining(m, keyword).Keys <= SearchCours(m, keyword).Keys
  {
  }

  /** `existsByLabelCours`: some course's label is exactly `labelCours`. */
  function ExistsByLabelCours(m: Courses, labelCours: string): (b: bool)
    ensures b <==> exists c | c in m :: m[c].labelCours == labelCours
  {
    ExistsWhere(m, (co: Cours) => co.labelCours == labelCours)
  }

  /** Every stored hour text is an integer, so that `CAST(nbHeureCours AS int)` succeeds on every row. */
  predicate HoursAreIntegers(m: Courses) {
    forall c | c in m :: ParseInt(m[c].nbHeureCours).Some?
  }

  /** The hour count of a course whose hour text is an integer. */
  function Hours(co: Cours): int
    requires ParseInt(co.nbHeureCours).Some?
  {
    ParseInt(co.nbHeureCours).value
  }

  /** `findCoursAvecNbHeuresMin`: the courses with at least `nbHeures` hours; the cast fails if any stored hour text is not an integer. */
  function FindCoursAvecNbHeuresMin(m: Courses, nbHeures: int): (r: Result<Courses, Error>)
    ensures r.Failure? <==> !HoursAreIntegers(m)
    ensures r.Failure? ==> r.error == InvalidCast
    ensures r.Success? ==> forall c :: c in r.value <==> c in m && Hours(m[c]) >= nbHeures
    ensures r.Success? ==> forall c | c in r.value :: r.value[c] == m[c]
  {
    if !HoursAreIntegers(m) then Failure(InvalidCast)
    else Success(Where(m, (co: Cours) => ParseInt(co.nbHeureCours).Some? && ParseInt(co.nbHeureCours).value >= nbHeures))
  }

  /**
   * `findAllOrderByNbHeuresDesc`: every course once, in non-increasing order
   * of hours (courses with equal hours in an unspecified order); the cast
   * fails if any stored hour text is not an integer.
   */
  ghost function FindAllOrderByNbHeuresDesc(m: Courses): (r: Result<seq<string>, Error>)
    ensures r.Failure? <==> !HoursAreIntegers(m)
    ensures r.Failure? ==> r.error == InvalidCast
    ensures r.Success? ==> forall c :: multiset(r.value)[c] == if c in m then 1 else 0
    ensures r.Success? ==> forall i | 0 <= i < |r.value| :: r.value[i] in m
    ensures r.Success? ==> forall i, j | 0 <= i < j < |r.value| :: Hours(m[r.value[i]]) >= Hours(m[r.value[j]])
  {
    if !HoursAreIntegers(m) then Failure(InvalidCast)
    else
      var key := (c: string) => if c in m && ParseInt(m[c].nbHeureCours).Some? then 0 - ParseInt(m[c].nbHeureCours).value else 0;
      var r := SortBy(Listing(m.Keys), key);
      assert forall i | 0 <= i < |r| :: r[i] in m by {
        forall i | 0 <= i < |r| ensures r[i] in m {
          assert r[i] in multiset(r);
        }
      }
      Success(r)
  }

  /** A store holding the course of the controller fixture, whose hours read "45H", makes both hour queries fail. */
  lemma HoursFixtureBreaksHourQueries(m: Courses, code: string)
    requires code in m && m[code].nbHeureCours == "45H"
    ensures FindCoursAvecNbHeuresMin(m, 0) == Failure(InvalidCast)
    ensures FindAllOrderByNbHeuresDesc(m) == Failure(InvalidCast)
  {
    HoursFixtureIsNotAnInteger();
  }
}
