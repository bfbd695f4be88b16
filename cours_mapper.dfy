/** Conversions between the course entity and its transfer object: same-name field copies. */
module CoursMapper {
  import opened Wrappers
  import opened Entities
  import opened Dtos

  /** `toDto`: code, label, description, credits and hours unchanged. */
  function ToDto(c: Cours): (d: CoursDto)
    ensures d.codeCours == c.codeCours && d.labelCours == c.labelCours && d.descCours == c.descCours
    ensures d.nbCreditCours == c.nbCreditCours && d.nbHeureCours == c.nbHeureCours
  {
    CoursDto(c.codeCours, c.labelCours, c.descCours, c.nbCreditCours, c.nbHeureCours)
  }

  /** `toEntity`: the same five fields; the bookings of the course are not taken from the transfer object. */
  function ToEntity(d: CoursDto): (c: Cours)
    ensures c.codeCours == d.codeCours && c.labelCours == d.labelCours && c.descCours == d.descCours
    ensures c.nbCreditCours == d.nbCreditCours && c.nbHeureCours == d.nbHeureCours
  {
    Cours(d.codeCours, d.labelCours, d.descCours, d.nbCreditCours, d.nbHeureCours)
  }

  /** The two conversions are inverse to each other. */
  lemma RoundTrips(d: CoursDto, c: Cours)
    ensures ToDto(ToEntity(d)) == d
    ensures ToEntity(ToDto(c)) == c
  {
  }

  /** `toDtoList`: element by element, in order. */
  function ToDtoList(cs: seq<Cours>): (ds: seq<CoursDto>)
    ensures |ds| == |cs| && forall i | 0 <= i < |cs| :: ds[i] == ToDto(cs[i])
  {
    if cs == [] then [] else [ToDto(cs[0])] + ToDtoList(cs[1..])
  }

  /** `toEntityList`: element by element, in order. */
  function ToEntityList(ds: seq<CoursDto>): (cs: seq<Cours>)
    ensures |cs| == |ds| && forall i | 0 <= i < |ds| :: cs[i] == ToEntity(ds[i])
  {
    if ds == [] then [] else [ToEntity(ds[0])] + ToEntityList(ds[1..])
  }

  /** Converting a list there and back gives the list. */
  lemma {:induction false} ListRoundTrip(ds: seq<CoursDto>)
    ensures ToDtoList(ToEntityList(ds)) == ds
  {
    var back := ToDtoList(ToEntityList(ds));
    assert |back| == |ds|;
    forall i | 0 <= i < |ds|
      ensures back[i] == ds[i]
    {
      RoundTrips(ds[i], ToEntity(ds[i]));
    }
  }
}
