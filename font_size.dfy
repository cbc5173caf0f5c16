/** fontSizeToPx and sortFontSizes: the approximate pixel size of a font-size token, and the
    in-place sort of font-size tokens from largest to smallest. */
module FontSize {
  import opened JsNumbers
  import opened ArraySort

  predicate EndsWith(s: string, suffix: string) {
    |suffix| <= |s| && s[|s| - |suffix|..] == suffix
  }

  /** The keyword table, as a map: the reference the `switch` of fontSizeToPx is checked against. */
  const KeywordPx: map<string, real> := map[
    "inherit" := 16.0, "xx-small" := 9.0, "x-small" := 10.0, "small" := 13.0, "medium" := 16.0,
    "large" := 18.0, "x-large" := 24.0, "xx-large" := 32.0, "larger" := 19.0]

  /** The unit suffixes are tested in the order `px`, `em`, `%`, each against the end of the
      token; then the keywords; any other token is given 1024. The second `small` test is the
      source's duplicate `case`, which no token can reach. */
  function FontSizeToPx(value: string): (r: JsNumber)
    ensures r.Finite? || r.NaN?
    ensures r.NaN? <==>
      ParseFloat(value).NaN? && (EndsWith(value, "px") || EndsWith(value, "em") || EndsWith(value, "%"))
  {
    var raw := ParseFloat(value);
    if EndsWith(value, "px") then raw
    else if EndsWith(value, "em") then Times(raw, 16.0)
    else if EndsWith(value, "%") then Times(raw, 0.16)
    else if value == "inherit" then Finite(16.0)
    else if value == "xx-small" then Finite(9.0)
    else if value == "x-small" then Finite(10.0)
    else if value == "small" then Finite(13.0)
    else if value == "medium" then Finite(16.0)
    else if value == "large" then Finite(18.0)
    else if value == "x-large" then Finite(24.0)
    else if value == "xx-large" then Finite(32.0)
    else if value == "small" then Finite(13.0)
    else if value == "larger" then Finite(19.0)
    else Finite(1024.0)
  }

  /** The unit suffixes, tested in order, for every token: `px` gives the numeric prefix as it
      is, `em` (and so `rem`) the prefix times 16, `%` the prefix times 0.16. A suffixed token
      whose prefix does not parse gives NaN. */
  lemma SuffixTable(value: string)
    ensures EndsWith(value, "px") ==> FontSizeToPx(value) == ParseFloat(value)
    ensures !EndsWith(value, "px") && EndsWith(value, "em") ==>
      FontSizeToPx(value) == Times(ParseFloat(value), 16.0)
    ensures !EndsWith(value, "px") && !EndsWith(value, "em") && EndsWith(value, "%") ==>
      FontSizeToPx(value) == Times(ParseFloat(value), 0.16)
  {
  }

  /** The last character of a token decides which unit suffixes it can end in. */
  lemma LastCharSuffixes(s: string)
    requires |s| > 0
    ensures s[|s| - 1] != 'x' ==> !EndsWith(s, "px")
    ensures s[|s| - 1] != 'm' ==> !EndsWith(s, "em")
    ensures s[|s| - 1] != '%' ==> !EndsWith(s, "%")
  {
  }

  /** A token made of any prefix and one of the units `px`, `em`, `rem` or `%` is converted by
      that unit's branch: its numeric prefix times 1, 16, 16 or 0.16. */
  lemma UnitEnding(x: string, unit: string)
    requires unit == "px" || unit == "em" || unit == "rem" || unit == "%"
    ensures FontSizeToPx(x + unit) == Times(ParseFloat(x + unit), UnitFactor(unit))
  {
    var s := x + unit;
    assert s[|s| - |unit|..] == unit;
    assert s[|s| - 1] == unit[|unit| - 1];
    if unit == "rem" {
      assert s[|s| - 2..] == "em";
    }
    LastCharSuffixes(s);
  }

  /** The scale of each unit suffix. */
  function UnitFactor(unit: string): real {
    if unit == "px" then 1.0 else if unit == "%" then 0.16 else 16.0
  }

  /** Sample conversions with a fraction, a missing integer part, a sign, leading zeros and an
      unparsable prefix. */
  lemma SampleFractionEm()
    ensures FontSizeToPx("1.5em") == Finite(24.0)
  {
  }

  lemma SampleRootEm()
    ensures FontSizeToPx(".875rem") == Finite(14.0)
  {
    ParseSevenEighths();
    UnitEnding(".875", "rem");
    assert ".875" + "rem" == ".875rem";
  }

  lemma ParseSevenEighths()
    ensures ParseFloat(".875rem") == Finite(0.875)
  {
    assert Magnitude(".875rem") == Finite(0.875) by {
      assert LeadingDigits(".875rem") == 0;
      assert ".875rem"[0..] == ".875rem" && ".875rem"[1..] == "875rem";
      LeadingDigitsOfAppend("875", "rem");
      assert "875" + "rem" == "875rem" && "875rem"[..3] == "875";
      assert DigitsValue("875") == 875 by {
        assert DigitsValue("8") == 8;
        assert DigitsValue("87") == 87;
      }
      assert NumeralValue("", "875") == 0.875;
    }
  }

  lemma SampleFractionPercent()
    ensures FontSizeToPx("12.5%") == Finite(2.0)
  {
    ParseTwelveAndAHalf();
    UnitEnding("12.5", "%");
    assert "12.5" + "%" == "12.5%";
  }

  lemma ParseTwelveAndAHalf()
    ensures ParseFloat("12.5%") == Finite(12.5)
  {
    assert Magnitude("12.5%") == Finite(12.5) by {
      assert LeadingDigits("12.5%") == 2;
      assert "12.5%"[..2] == "12" && "12.5%"[2..] == ".5%";
      assert ".5%"[1..] == "5%";
      assert LeadingDigits("5%") == 1;
      assert "5%"[..1] == "5";
      assert DigitsValue("12") == 12;
    }
  }

  lemma SampleSignedPx()
    ensures FontSizeToPx("-2px") == Finite(-2.0)
  {
  }

  lemma SampleLeadingZeroPx()
    ensures FontSizeToPx("012px") == Finite(12.0)
  {
    assert ParseFloat("012px") == Finite(12.0) by {
      assert DigitsValue("012") == 12 by {
        assert DigitsValue("0") == 0;
        assert DigitsValue("01") == 1;
      }
      ParseFloatOfInteger("", "012", "px");
      assert "" + ("012" + "px") == "012px";
    }
    UnitEnding("012", "px");
    assert "012" + "px" == "012px";
  }

  lemma SampleUnparsable()
    ensures FontSizeToPx("autopx").NaN?
  {
    assert ParseFloat("autopx").NaN?;
    assert EndsWith("autopx", "px");
  }

  /** A whole number of pixels, ems, root ems or percent is converted by its unit; `rem` ends in
      `em`, so it is scaled by 16 like `em`. */
  lemma UnitConversions(n: nat)
    ensures FontSizeToPx(NatToDigits(n) + "px") == Finite(n as real)
    ensures FontSizeToPx(NatToDigits(n) + "em") == Finite(n as real * 16.0)
    ensures FontSizeToPx(NatToDigits(n) + "rem") == Finite(n as real * 16.0)
    ensures FontSizeToPx(NatToDigits(n) + "%") == Finite(n as real * 0.16)
  {
    PxConversion(n);
    EmConversion(n, "em");
    EmConversion(n, "rem");
    PercentConversion(n);
  }

  lemma PxConversion(n: nat)
    ensures FontSizeToPx(NatToDigits(n) + "px") == Finite(n as real)
  {
    var d := NatToDigits(n);
    ParseFloatOfNat(n, "px");
    assert (d + "px")[|d + "px"| - 2..] == "px";
  }

  lemma EmConversion(n: nat, unit: string)
    requires unit == "em" || unit == "rem"
    ensures FontSizeToPx(NatToDigits(n) + unit) == Finite(n as real * 16.0)
  {
    var d := NatToDigits(n);
    ParseFloatOfNat(n, unit);
    assert (d + unit)[|d + unit| - 2..] == "em";
    assert !EndsWith(d + unit, "px") by { assert (d + unit)[|d + unit| - 1] == 'm'; }
  }

  lemma PercentConversion(n: nat)
    ensures FontSizeToPx(NatToDigits(n) + "%") == Finite(n as real * 0.16)
  {
    var d := NatToDigits(n);
    ParseFloatOfNat(n, "%");
    assert (d + "%")[|d + "%"| - 1..] == "%";
    assert !EndsWith(d + "%", "px") by { assert (d + "%")[|d + "%"| - 1] == '%'; }
    assert !EndsWith(d + "%", "em") by { assert (d + "%")[|d + "%"| - 1] == '%'; }
  }

  /** A token with none of the unit suffixes is looked up in the keyword table, and every token
      not in the table is given the sentinel 1024. */
  lemma KeywordFallback(value: string)
    requires !EndsWith(value, "px") && !EndsWith(value, "em") && !EndsWith(value, "%")
    ensures FontSizeToPx(value) == Finite(if value in KeywordPx then KeywordPx[value] else 1024.0)
  {
  }

  /** No keyword ends in a unit suffix, so every keyword reaches its entry in the table. */
  lemma KeywordsReachTable()
    ensures forall k :: k in KeywordPx ==> FontSizeToPx(k) == Finite(KeywordPx[k])
  {
    forall k | k in KeywordPx
      ensures FontSizeToPx(k) == Finite(KeywordPx[k])
    {
      var last := k[|k| - 1];
      assert last in {'t', 'l', 'm', 'e', 'r'};
      assert last == 'm' ==> k[|k| - 2] == 'u';
      KeywordFallback(k);
    }
  }

  /** Sample conversions: 16px, 1em, 50%, a keyword and an unknown token. */
  lemma SamplePx()
    ensures FontSizeToPx("16px") == Finite(16.0)
  {
    assert NatToDigits(16) == "16" by { assert NatToDigits(1) == "1"; }
    UnitConversions(16);
    assert "16" + "px" == "16px";
  }

  lemma SampleEm()
    ensures FontSizeToPx("1em") == Finite(16.0)
  {
    assert NatToDigits(1) == "1";
    UnitConversions(1);
    assert "1" + "em" == "1em";
  }

  lemma SamplePercent()
    ensures FontSizeToPx("50%") == Finite(8.0)
  {
    assert NatToDigits(50) == "50" by { assert NatToDigits(5) == "5"; }
    UnitConversions(50);
    assert "50" + "%" == "50%";
  }

  lemma SampleKeywords()
    ensures FontSizeToPx("medium") == Finite(16.0)
    ensures FontSizeToPx("unknown-token") == Finite(1024.0)
  {
    KeywordsReachTable();
    assert "medium" in KeywordPx;
    KeywordFallback("unknown-token");
  }

  /** The comparator of sortFontSizes: negative (keep `a` first) exactly when `a` is strictly
      larger than `b`, positive otherwise. It never answers 0, not even for equal sizes. */
  function SortBy(a: string, b: string): (r: real)
    ensures r == -1.0 || r == 1.0
    ensures r < 0.0 <==> Gt(FontSizeToPx(a), FontSizeToPx(b))
  {
    if Gt(FontSizeToPx(a), FontSizeToPx(b)) then -1.0 else 1.0
  }

  /** Every token converts to a finite pixel value (no NaN from an unparsable prefix). */
  ghost predicate AllNumeric(s: seq<string>) {
    forall i :: 0 <= i < |s| ==> FontSizeToPx(s[i]).Finite?
  }

  /** The pixel value of a numeric token (0 stands for NaN, which is never compared by it). */
  function Px(t: string): real {
    match FontSizeToPx(t)
    case Finite(v) => v
    case _ => 0.0
  }

  /** On numeric tokens the comparator asks for `a` to go after `b` exactly when `a` is not
      larger, so it agrees with the pixel value even though it breaks ties arbitrarily. */
  lemma {:induction false} SortByAgreesOnNumbers(s: seq<string>)
    requires AllNumeric(s)
    ensures CompatibleOn(SortBy, Px, s)
  {
    forall x, y | x in s && y in s
      ensures (SortBy(x, y) > 0.0 ==> Px(x) <= Px(y)) && (SortBy(x, y) <= 0.0 ==> Px(x) >= Px(y))
    {
      var i, j :| 0 <= i < |s| && s[i] == x && 0 <= j < |s| && s[j] == y;
      assert FontSizeToPx(x).Finite? && FontSizeToPx(y).Finite?;
    }
  }

  /** sortFontSizes sorts the array in place and answers `false` when there is no array. The
      result is a permutation of the input; it is ordered from the largest pixel value down
      whenever every token converts to a number (NaN compares as neither larger nor smaller,
      and then no order is promised). */
  method SortFontSizes(a: array?<string>) returns (ok: bool)
    modifies a
    ensures ok <==> a != null
    ensures a != null ==> multiset(a[..]) == multiset(old(a[..]))
    ensures a != null && AllNumeric(old(a[..])) ==> DescendingBy(a[..], Px)
  {
    if a == null {
      return false;
    }
    if AllNumeric(a[..]) {
      SortByAgreesOnNumbers(a[..]);
    }
    SortInPlace(a, SortBy, Px);
    return true;
  }
}
