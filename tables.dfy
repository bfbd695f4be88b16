/** Selection and counting over a table held as a map from primary key to row. */
module Tables {
  import opened Wrappers
  import opened Errors
  /** `SELECT … WHERE keep`: the rows that satisfy `keep`, under their keys. */
  function Where<K(!new), V>(m: map<K, V>, keep: V -> bool): (r: map<K, V>)
    ensures forall k :: k in r <==> k in m && keep(m[k])
    ensures forall k | k in r :: r[k] == m[k]
  {
    map k | k in m && keep(m[k]) :: m[k]
  }

  /** `SELECT CASE WHEN COUNT(…) > 0 …` / `existsBy…`: whether some row satisfies `keep`. */
  function ExistsWhere<K(!new), V>(m: map<K, V>, keep: V -> bool): (b: bool)
    ensures b <==> exists k | k in m :: keep(m[k])
  {
    var r := Where(m, keep);
    if r == map[] then
      assert forall k | k in m :: !keep(m[k]) by {
        forall k | k in m ensures !keep(m[k]) {
          assert k !in r;
        }
      }
      false
    else
      assert exists k :: k in r by {
        assert r.Keys != {};
      }
      true
  }

  /**
   * A finder declared to return one optional row: nothing when no row
   * matched, the row when one did, and an incorrect-result-size error when
   * several did.
   */
  function Single<K(!new), V>(r: map<K, V>): (o: Result<Option<V>, Error>)
    ensures o == Success(None) <==> r == map[]
    ensures o.Failure? <==> |r| > 1
    ensures o.Failure? ==> o.error == NonUniqueResult
    ensures o.Success? && o.value.Some? ==> exists k :: r.Keys == {k} && r[k] == o.value.value
  {
    if |r| == 0 then Success(None)
    else if |r| > 1 then Failure(NonUniqueResult)
    else
      var k := TheOne(r.Keys);
      assert r.Keys == {k};
      Success(Some(r[k]))
  }

  /** The element of a one-element set. */
  function TheOne<K>(s: set<K>): (k: K)
    requires |s| == 1
    ensures s == {k}
  {
    SingletonElements(s);
    var k :| k in s; k
  }

  lemma SingletonElements<K>(s: set<K>)
    requires |s| == 1
    ensures forall a, b | a in s && b in s :: a == b
  {
    var x :| x in s;
    assert s == {x} by {
      assert |s - {x}| == 0;
    }
  }
}
