/**
 * The few `java.lang.String` operations the core relies on: substring search
 * (also SQL `LIKE '%t%'`), `isBlank`, `trim`, `split(",")`, decimal
 * formatting of integers (string concatenation) and the integer `CAST`
 * a query applies to a text column.
 */
module Text {
  import opened Wrappers

  /** `s.contains(t)`; also `LIKE CONCAT('%', t, '%')` when t holds no wildcard. */
  predicate Contains(s: string, t: string) {
    exists i | 0 <= i <= |s| - |t| :: OccursAt(s, t, i)
  }

  /** `t` appears in `s` starting at index `i`. */
  predicate OccursAt(s: string, t: string, i: int) {
    0 <= i && i + |t| <= |s| && s[i..i + |t|] == t
  }

  /** `Character.isWhitespace`: the characters `String.isBlank` skips. */
  predicate IsWhitespace(c: char) {
    c == ' ' || ('\t' <= c <= '\r') || ('\U{1C}' <= c <= '\U{1F}')
    || c == '\U{1680}' || ('\U{2000}' <= c <= '\U{2006}') || ('\U{2008}' <= c <= '\U{200A}')
    || c == '\U{2028}' || c == '\U{2029}' || c == '\U{205F}' || c == '\U{3000}'
  }

  /** `s.isBlank()`: empty, or whitespace only. */
  predicate IsBlank(s: string) {
    forall i | 0 <= i < |s| :: IsWhitespace(s[i])
  }

  /**
   * `trim()` scans forward from `i` past characters up to U+0020: the
   * result is the index of the first character kept, or `|s|`.
   */
  function TrimStart(s: string, i: nat): (n: nat)
    requires i <= |s|
    ensures i <= n <= |s|
    ensures forall k | i <= k < n :: s[k] <= ' '
    ensures n < |s| ==> s[n] > ' '
    decreases |s| - i
  {
    if i < |s| && s[i] <= ' ' then TrimStart(s, i + 1) else i
  }

  /**
   * `trim()` scans backward from `j`, not below `lo`, past characters up
   * to U+0020: the result is the index just after the last character kept.
   */
  function TrimEnd(s: string, lo: nat, j: nat): (n: nat)
    requires lo <= j <= |s|
    ensures lo <= n <= j
    ensures forall k | n <= k < j :: s[k] <= ' '
    ensures n > lo ==> s[n - 1] > ' '
    decreases j - lo
  {
    if j > lo && s[j - 1] <= ' ' then TrimEnd(s, lo, j - 1) else j
  }

  /**
   * `String.trim()`: a contiguous piece of `s` with no character up to
   * U+0020 at either end, all the characters cut off being such.
   */
  function Trim(s: string): (r: string)
    ensures exists i, j | 0 <= i <= j <= |s| :: r == s[i..j] && TrimmedAround(s, i, j)
    ensures |r| > 0 ==> r[0] > ' ' && r[|r| - 1] > ' '
  {
    var i := TrimStart(s, 0);
    var j := TrimEnd(s, i, |s|);
    assert TrimmedAround(s, i, j);
    s[i..j]
  }

  /** Every character of `s` before index `i` and from index `j` on is at most U+0020. */
  predicate TrimmedAround(s: string, i: int, j: int)
    requires 0 <= i <= j <= |s|
  {
    SpacesBefore(s, i) && SpacesFrom(s, j)
  }

  /** Every character of `s` before index `n` is at most U+0020. */
  predicate SpacesBefore(s: string, n: int)
    requires 0 <= n <= |s|
  {
    forall k | 0 <= k < n :: s[k] <= ' '
  }

  /** Every character of `s` from index `n` on is at most U+0020. */
  predicate SpacesFrom(s: string, n: int)
    requires 0 <= n <= |s|
  {
    forall k | n <= k < |s| :: s[k] <= ' '
  }

  /** The text before the first comma (all of `s` when it holds none). */
  function FirstField(s: string): (r: string)
    ensures |r| <= |s| && r == s[..|r|] && ',' !in r
    ensures |r| < |s| ==> s[|r|] == ','
  {
    if s == [] || s[0] == ',' then [] else [s[0]] + FirstField(s[1..])
  }

  /** The comma-separated fields of `s`, empty ones included (`split(",", -1)`). */
  function Fields(s: string): (r: seq<string>)
    ensures |r| >= 1
    ensures forall i | 0 <= i < |r| :: ',' !in r[i]
    decreases |s|
  {
    if s == [] then [""]
    else
      var rest := Fields(s[1..]);
      if s[0] == ',' then [""] + rest else [[s[0]] + rest[0]] + rest[1..]
  }

  lemma {:induction false} FieldsFirst(s: string)
    ensures Fields(s)[0] == FirstField(s)
    decreases |s|
  {
    if s != [] && s[0] != ',' {
      FieldsFirst(s[1..]);
    }
  }

  /** Every field is empty exactly when `s` is made of commas only. */
  lemma {:induction false} FieldsAllEmpty(s: string)
    ensures (forall i | 0 <= i < |Fields(s)| :: Fields(s)[i] == "") <==> (forall k | 0 <= k < |s| :: s[k] == ',')
    decreases |s|
  {
    if s != [] {
      FieldsAllEmpty(s[1..]);
      var rest := Fields(s[1..]);
      if s[0] == ',' {
        var fs := Fields(s);
        assert fs == [""] + rest;
        assert (forall i | 0 <= i < |fs| :: fs[i] == "") <==> (forall i | 0 <= i < |rest| :: rest[i] == "") by {
          assert forall i | 1 <= i < |fs| :: fs[i] == rest[i - 1];
          assert forall i | 0 <= i < |rest| :: rest[i] == fs[i + 1];
        }
        assert (forall k | 0 <= k < |s| :: s[k] == ',') <==> (forall k | 0 <= k < |s[1..]| :: s[1..][k] == ',') by {
          assert forall k | 1 <= k < |s| :: s[k] == s[1..][k - 1];
        }
      } else {
        assert Fields(s)[0] == [s[0]] + rest[0];
      }
    }
  }

  /** Drops the trailing empty strings, as `String.split` does. */
  function DropTrailingEmpty(fs: seq<string>): (r: seq<string>)
    ensures |r| <= |fs| && r == fs[..|r|]
    ensures |r| > 0 ==> r[|r| - 1] != ""
    ensures forall i | |r| <= i < |fs| :: fs[i] == ""
  {
    if |fs| > 0 && fs[|fs| - 1] == "" then DropTrailingEmpty(fs[..|fs| - 1]) else fs
  }

  /**
   * `s.split(",")`: a string without a comma gives itself back; otherwise the
   * fields between commas, with the trailing empty ones removed.
   */
  function Split(s: string): (r: seq<string>)
    ensures forall i | 0 <= i < |r| :: ',' !in r[i]
  {
    if ',' !in s then [s] else DropTrailingEmpty(Fields(s))
  }

  /** `split(",")` returns no element exactly for a non-empty string of commas; otherwise element 0 is the first field. */
  lemma SplitFirst(s: string)
    ensures |Split(s)| == 0 <==> (|s| > 0 && forall k | 0 <= k < |s| :: s[k] == ',')
    ensures |Split(s)| > 0 ==> Split(s)[0] == FirstField(s)
  {
    FieldsFirst(s);
    FieldsAllEmpty(s);
    if ',' !in s {
      assert FirstField(s) == s[..|FirstField(s)|];
    } else {
      var fs := Fields(s);
      var r := DropTrailingEmpty(fs);
      if |r| == 0 {
        assert forall i | 0 <= i < |fs| :: fs[i] == "";
      } else {
        assert r[0] == fs[0];
      }
    }
  }

  /** A character outside the Basic Multilingual Plane, which Java stores as a surrogate pair. */
  predicate IsSupplementary(c: char) {
    c as int > 0xFFFF
  }

  /**
   * Java's `String.length()`: the number of UTF-16 code units, one per
   * character of the Basic Multilingual Plane and two per supplementary
   * character.
   */
  function Utf16Length(s: string): (n: nat)
    ensures |s| <= n <= 2 * |s|
    ensures n == |s| <==> forall k | 0 <= k < |s| :: !IsSupplementary(s[k])
    decreases |s|
  {
    if s == [] then 0 else Utf16Length(s[..|s| - 1]) + (if IsSupplementary(s[|s| - 1]) then 2 else 1)
  }

  /** One supplementary character, such as U+1D538, is two code units long. */
  lemma SupplementaryCharacterLength()
    ensures Utf16Length("\U{1D538}") == 2
  {
    assert "\U{1D538}"[..0] == [];
  }

  /** The character of a decimal digit. */
  function DigitChar(d: int): (c: char)
    requires 0 <= d < 10
    ensures '0' <= c <= '9' && (c as int) - ('0' as int) == d
  {
    (('0' as int) + d) as char
  }

  predicate IsDigit(c: char) {
    '0' <= c <= '9'
  }

  predicate AllDigits(s: string) {
    forall i | 0 <= i < |s| :: IsDigit(s[i])
  }

  /** The decimal text of a natural number, without leading zeros. */
  function NatToString(n: nat): (r: string)
    ensures |r| >= 1 && AllDigits(r)
    ensures n >= 10 ==> r[0] != '0'
    decreases n
  {
    if n < 10 then [DigitChar(n)] else NatToString(n / 10) + [DigitChar(n % 10)]
  }

  /** Java's decimal rendering of an `int` or `long` in a string concatenation. */
  function IntToString(n: int): (r: string)
    ensures |r| >= 1
    ensures n < 0 <==> r[0] == '-'
  {
    if n < 0 then "-" + NatToString(-n) else NatToString(n)
  }

  /** The value of a string of decimal digits. */
  function DigitsValue(s: string): (v: nat)
    requires AllDigits(s)
    decreases |s|
  {
    if s == [] then 0 else DigitsValue(s[..|s| - 1]) * 10 + ((s[|s| - 1] as int) - ('0' as int))
  }

  /** The range of a 32-bit `int`, the range of the `INTEGER` type. */
  const IntMin := -0x8000_0000
  const IntMax := 0x7FFF_FFFF

  /** The text `Integer.parseInt` reads: an optional sign, then one or more decimal digits. */
  predicate IntegerText(t: string) {
    (|t| > 0 && AllDigits(t)) || (|t| > 1 && (t[0] == '-' || t[0] == '+') && AllDigits(t[1..]))
  }

  /** The value of an integer text. */
  function IntegerTextValue(t: string): int
    requires IntegerText(t)
  {
    if t[0] == '-' then 0 - DigitsValue(t[1..])
    else if t[0] == '+' then DigitsValue(t[1..])
    else DigitsValue(t)
  }

  /**
   * `CAST(t AS integer)` as the H2 database performs it: `Integer.parseInt`
   * of the trimmed text. Anything but an optional sign followed by digits,
   * or a value outside the `int` range, is a cast error.
   */
  function ParseInt(s: string): (r: Option<int>)
    ensures r.Some? <==> IntegerText(Trim(s)) && IntMin <= IntegerTextValue(Trim(s)) <= IntMax
    ensures r.Some? ==> r.value == IntegerTextValue(Trim(s)) && IntMin <= r.value <= IntMax
  {
    var t := Trim(s);
    if IntegerText(t) && IntMin <= IntegerTextValue(t) <= IntMax then Some(IntegerTextValue(t)) else None
  }

  /** Trimming a text that neither starts nor ends with a character up to U+0020 leaves it as it is. */
  lemma TrimUnpadded(s: string)
    requires |s| > 0 ==> s[0] > ' ' && s[|s| - 1] > ' '
    ensures Trim(s) == s
  {
    assert TrimStart(s, 0) == 0;
    assert TrimEnd(s, 0, |s|) == |s|;
    assert s[0..|s|] == s;
  }

  lemma {:induction false} NatToStringValue(n: nat)
    ensures DigitsValue(NatToString(n)) == n
    decreases n
  {
    if n >= 10 {
      NatToStringValue(n / 10);
      var s := NatToString(n);
      assert s[..|s| - 1] == NatToString(n / 10);
    } else {
      var s := NatToString(n);
      assert s[..|s| - 1] == [];
    }
  }

  /** Reading back the decimal text of any `int` gives the integer. */
  lemma ParseIntToString(n: int)
    requires IntMin <= n <= IntMax
    ensures ParseInt(IntToString(n)) == Some(n)
  {
    var t := IntToString(n);
    if n < 0 {
      NatToStringValue(-n);
      assert t[1..] == NatToString(-n);
      assert t[|t| - 1] == t[1..][|t| - 2];
    } else {
      NatToStringValue(n);
    }
    TrimUnpadded(t);
  }

  /** The hour text of the course fixture, "45H", is not an integer. */
  lemma HoursFixtureIsNotAnInteger()
    ensures ParseInt("45H") == None
  {
    TrimUnpadded("45H");
    assert !IsDigit("45H"[2]);
  }

  /** The cast reads a plus sign and ignores surrounding blanks: " +45 " is 45. */
  lemma SignedPaddedText()
    ensures ParseInt(" +45 ") == Some(45)
  {
    var s := " +45 ";
    assert TrimStart(s, 1) == 1;
    assert TrimStart(s, 0) == 1;
    assert TrimEnd(s, 1, 4) == 4;
    assert TrimEnd(s, 1, 5) == 4;
    assert Trim(s) == "+45";
    assert "+45"[1..] == "45" && "45"[..1] == "4" && "4"[..0] == [];
  }

  /** A value beyond the `int` range is a cast error. */
  lemma OutOfRangeFails()
    ensures ParseInt(IntToString(IntMax + 1)) == None
  {
    var t := IntToString(IntMax + 1);
    NatToStringValue(IntMax + 1);
    TrimUnpadded(t);
    assert t[0] != '-' && t[0] != '+';
  }
}
