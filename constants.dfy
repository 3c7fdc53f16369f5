/**
 * The option lists of the chart form: the season years and the player ages
 * offered for filtering, each built by a counting loop that pushes the
 * number's decimal rendering.
 */
module Constants {
  import opened Wrappers
  import opened JavaText

  const LatestYear: nat := 2025
  const EarliestYear: nat := 1985
  const YoungestAge: nat := 18
  const OldestAge: nat := 44

  /** The renderings of the end points of both lists. */
  lemma EndPoints()
    ensures DecimalString(2025) == "2025" && DecimalString(1985) == "1985"
    ensures DecimalString(18) == "18" && DecimalString(44) == "44"
  {
    assert DecimalString(20) == "20";
    assert DecimalString(202) == "202";
    assert DecimalString(19) == "19";
    assert DecimalString(198) == "198";
  }

  /** `generateYears`: "2025" down to "1985", one entry per year. */
  method GenerateYears() returns (years: seq<string>)
    ensures |years| == LatestYear - EarliestYear + 1
    ensures years[0] == "2025" && years[|years| - 1] == "1985"
    ensures forall i :: 0 <= i < |years| ==> years[i] == DecimalString(LatestYear - i)
    ensures forall i :: 0 <= i < |years| ==> ParseInt(years[i]) == Some(LatestYear - i)
    ensures forall i, j :: 0 <= i < j < |years| ==> years[i] != years[j]
  {
    years := [];
    var year: int := LatestYear;
    while year >= EarliestYear
      invariant EarliestYear - 1 <= year <= LatestYear
      invariant |years| == LatestYear - year
      invariant forall i :: 0 <= i < |years| ==> years[i] == DecimalString(LatestYear - i)
    {
      years := years + [DecimalString(year)];
      year := year - 1;
    }
    YearsReadBack(years);
  }

  /** The rendered years read back as the years, which are distinct, so the renderings are too. */
  lemma YearsReadBack(years: seq<string>)
    requires |years| == LatestYear - EarliestYear + 1
    requires forall i :: 0 <= i < |years| ==> years[i] == DecimalString(LatestYear - i)
    ensures years[0] == "2025" && years[|years| - 1] == "1985"
    ensures forall i :: 0 <= i < |years| ==> ParseInt(years[i]) == Some(LatestYear - i)
    ensures forall i, j :: 0 <= i < j < |years| ==> years[i] != years[j]
  {
    EndPoints();
    forall i | 0 <= i < |years| ensures ParseInt(years[i]) == Some(LatestYear - i) {
      ParseDecimal(LatestYear - i);
    }
    forall i, j | 0 <= i < j < |years| ensures years[i] != years[j] {
      assert ParseInt(years[i]) != ParseInt(years[j]);
    }
  }

  /** `generateAgeRanges`: "All", then "18" up to "44". */
  method GenerateAgeRanges() returns (ages: seq<string>)
    ensures |ages| == OldestAge - YoungestAge + 2
    ensures ages[0] == "All" && ages[1] == "18" && ages[|ages| - 1] == "44"
    ensures forall k :: 1 <= k < |ages| ==> ages[k] == DecimalString(YoungestAge + k - 1)
    ensures forall k :: 1 <= k < |ages| ==>
      ParseInt(ages[k]).Some? && YoungestAge <= ParseInt(ages[k]).value <= OldestAge
    ensures forall k :: 1 <= k < |ages| ==> ages[k] != "All"
  {
    ages := ["All"];
    var i: nat := YoungestAge;
    while i <= OldestAge
      invariant YoungestAge <= i <= OldestAge + 1
      invariant |ages| == i - YoungestAge + 1 && ages[0] == "All"
      invariant forall k :: 1 <= k < |ages| ==> ages[k] == DecimalString(YoungestAge + k - 1)
    {
      ages := ages + [DecimalString(i)];
      i := i + 1;
    }
    AgesReadBack(ages);
  }

  /** The rendered ages read back as ages from 18 to 44, and none of them is "All". */
  lemma AgesReadBack(ages: seq<string>)
    requires |ages| == OldestAge - YoungestAge + 2
    requires forall k :: 1 <= k < |ages| ==> ages[k] == DecimalString(YoungestAge + k - 1)
    ensures ages[1] == "18" && ages[|ages| - 1] == "44"
    ensures forall k :: 1 <= k < |ages| ==>
      ParseInt(ages[k]).Some? && YoungestAge <= ParseInt(ages[k]).value <= OldestAge
    ensures forall k :: 1 <= k < |ages| ==> ages[k] != "All"
  {
    EndPoints();
    forall k | 1 <= k < |ages|
      ensures ParseInt(ages[k]).Some? && YoungestAge <= ParseInt(ages[k]).value <= OldestAge
    {
      ParseDecimal(YoungestAge + k - 1);
    }
    forall k | 1 <= k < |ages| ensures ages[k] != "All" {
      assert IsDigit(ages[k][0]);
    }
  }
}
