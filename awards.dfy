/**
 * The award list of GraphService (`getAwards`): the distinct award tokens
 * of the store, without blank ones and without places beyond 5th, ordered
 * by award family (`getAwardOrder`) and then alphabetically.
 */
module Awards {
  import opened Wrappers
  import opened Seqs
  import opened JavaText
  import opened PlayerStore
  import opened Sorting

  /** The worst place still listed for a placed award. */
  const LastListedPlace: int := 5

  /** `Integer.parseInt(text) <= 5`, or `whenUnparseable` when `parseInt` throws. */
  predicate PlaceListed(text: string, whenUnparseable: bool) {
    var p := ParseInt(text);
    if p.Some? then p.value <= LastListedPlace else whenUnparseable
  }

  /** The filter of `getAwards`. */
  predicate KeepAward(award: Option<string>) {
    award.Some? && Trim(award.value) != "" && KeepTrimmed(Trim(award.value))
  }

  /** The filter of `getAwards` on a trimmed, non-blank award. */
  predicate KeepTrimmed(t: string) {
    if StartsWith(t, "MVP-") then PlaceListed(t[4..], false)
    else if StartsWith(t, "DPOY-") then PlaceListed(t[5..], false)
    else if StartsWith(t, "6MOY-") then PlaceListed(t[5..], false)
    else if Contains(t, "-") then
      var parts := Split(t, "-");
      if |parts| > 1 then PlaceListed(parts[|parts| - 1], true) else true
    else true
  }

  /** A placed award is listed exactly when its place is at most 5th. */
  lemma PlaceListedIff(place: nat)
    ensures PlaceListed(DecimalString(place), false) <==> place <= LastListedPlace
  {
    ParseDecimalAll(place);
  }

  /** An award text keeps its filter outcome under `trim` when it has no padding. */
  lemma KeepUnpadded(family: string, digits: string)
    requires family != [] && digits != [] && !IsTrimmable(family[0]) && AllDigits(digits)
    ensures KeepAward(Some(family + digits)) == KeepTrimmed(family + digits)
  {
    var t := family + digits;
    assert t[0] == family[0] && t[|t| - 1] == digits[|digits| - 1];
    TrimNoop(t);
  }

  /** A string does not start with a prefix whose first char differs from its own. */
  lemma NotPrefix(t: string, p: string)
    requires t != [] && p != [] && t[0] != p[0]
    ensures !StartsWith(t, p)
  {
  }

  /** `MVP-k` is listed exactly when k is at most 5. */
  lemma KeepMvpPlace(place: nat)
    ensures KeepAward(Some("MVP-" + DecimalString(place))) <==> place <= LastListedPlace
  {
    var t := "MVP-" + DecimalString(place);
    KeepUnpadded("MVP-", DecimalString(place));
    assert StartsWith(t, "MVP-") && t[4..] == DecimalString(place);
    PlaceListedIff(place);
  }

  /** `DPOY-k` is listed exactly when k is at most 5. */
  lemma KeepDpoyPlace(place: nat)
    ensures KeepAward(Some("DPOY-" + DecimalString(place))) <==> place <= LastListedPlace
  {
    var t := "DPOY-" + DecimalString(place);
    KeepUnpadded("DPOY-", DecimalString(place));
    NotPrefix(t, "MVP-");
    assert StartsWith(t, "DPOY-") && t[5..] == DecimalString(place);
    PlaceListedIff(place);
  }

  /** `6MOY-k` is listed exactly when k is at most 5. */
  lemma KeepSixthManPlace(place: nat)
    ensures KeepAward(Some("6MOY-" + DecimalString(place))) <==> place <= LastListedPlace
  {
    var t := "6MOY-" + DecimalString(place);
    KeepUnpadded("6MOY-", DecimalString(place));
    NotPrefix(t, "MVP-");
    NotPrefix(t, "DPOY-");
    assert StartsWith(t, "6MOY-") && t[5..] == DecimalString(place);
    PlaceListedIff(place);
  }

  /** A placed award whose place is not a number is dropped. */
  lemma DropUnparseablePlace()
    ensures !KeepAward(Some("MVP-X"))
  {
    var t := "MVP-X";
    assert Trim(t) == t by { TrimNoop(t); }
    assert ParseInt("X") == None by { assert !IsDigit("X"[0]); }
    assert KeepTrimmed(t) == PlaceListed("X", false) by {
      assert t[..4] == "MVP-" && t[4..] == "X";
    }
  }

  /** `getAwardOrder`: the family rank of an award; unknown families rank last. */
  function AwardOrder(award: string): (r: int)
    ensures r in {1, 2, 3, 4, 5, 6, 7, 8, 999}
  {
    var t := Trim(award);
    if StartsWith(t, "MVP-") then 1
    else if StartsWith(t, "AS") then 2
    else if StartsWith(t, "DPOY-") then 3
    else if StartsWith(t, "NBA") then 4
    else if StartsWith(t, "DEF") then 5
    else if t == "ROY" then 6
    else if StartsWith(t, "6MOY-") then 7
    else if t == "MIP" then 8
    else 999
  }

  // ------------------------------------------------------------ ordering

  /** Java `a.compareTo(b) <= 0`: lexicographic by char, a proper prefix first. */
  predicate LexLeq(a: string, b: string)
    decreases |a|
  {
    a == [] || (b != [] && (a[0] < b[0] || (a[0] == b[0] && LexLeq(a[1..], b[1..]))))
  }

  lemma {:induction false} LexTotal(a: string, b: string)
    ensures LexLeq(a, b) || LexLeq(b, a)
    decreases |a|
  {
    if a != [] && b != [] && a[0] == b[0] {
      LexTotal(a[1..], b[1..]);
    }
  }

  lemma {:induction false} LexAntisymmetric(a: string, b: string)
    requires LexLeq(a, b) && LexLeq(b, a)
    ensures a == b
    decreases |a|
  {
    if a != [] {
      LexAntisymmetric(a[1..], b[1..]);
      assert a == [a[0]] + a[1..] && b == [b[0]] + b[1..];
    }
  }

  lemma {:induction false} LexTransitive(a: string, b: string, c: string)
    requires LexLeq(a, b) && LexLeq(b, c)
    ensures LexLeq(a, c)
    decreases |a|
  {
    if a != [] && a[0] == b[0] && b[0] == c[0] {
      LexTransitive(a[1..], b[1..], c[1..]);
    }
  }

  /** The comparator of `getAwards`: family rank first, then `compareTo`. */
  predicate AwardLeq(a: string, b: string) {
    AwardOrder(a) < AwardOrder(b) || (AwardOrder(a) == AwardOrder(b) && LexLeq(a, b))
  }

  lemma AwardTotal(a: string, b: string)
    ensures AwardLeq(a, b) || AwardLeq(b, a)
  {
    LexTotal(a, b);
  }

  lemma AwardAntisymmetric(a: string, b: string)
    requires AwardLeq(a, b) && AwardLeq(b, a)
    ensures a == b
  {
    LexAntisymmetric(a, b);
  }

  lemma AwardTransitive(a: string, b: string, c: string)
    requires AwardLeq(a, b) && AwardLeq(b, c)
    ensures AwardLeq(a, c)
  {
    if AwardOrder(a) == AwardOrder(b) == AwardOrder(c) {
      LexTransitive(a, b, c);
    }
  }

  /** The comparator as a function value, for the generic sort. */
  function AwardCmp(): (leq: (string, string) -> bool)
    ensures forall a, b :: leq(a, b) == AwardLeq(a, b)
  {
    (a: string, b: string) => AwardLeq(a, b)
  }

  /** The comparator of `getAwards` is a total order on award strings. */
  lemma AwardCmpTotalOrder()
    ensures IsTotalOrder(AwardCmp())
  {
    var leq := AwardCmp();
    forall a, b ensures leq(a, b) || leq(b, a) {
      AwardTotal(a, b);
    }
    forall a, b, c | leq(a, b) && leq(b, c) ensures leq(a, c) {
      AwardTransitive(a, b, c);
    }
    forall a, b | leq(a, b) && leq(b, a) ensures a == b {
      AwardAntisymmetric(a, b);
    }
  }

  // ------------------------------------------------------------- getAwards

  /** The store tokens that pass the filter, in store order. */
  function KeptAwards(all: seq<Option<string>>): seq<string> {
    Somes(seq(|all|, i requires 0 <= i < |all| => if KeepAward(all[i]) then all[i] else None))
  }

  /** A token is kept exactly when the store has it and it passes the filter. */
  lemma KeptAwardsMembers(all: seq<Option<string>>, x: string)
    ensures x in KeptAwards(all) <==> Some(x) in all && KeepAward(Some(x))
  {
    var opts := seq(|all|, i requires 0 <= i < |all| => if KeepAward(all[i]) then all[i] else None);
    SomesOrigin(opts);
    SomesComplete(opts);
    if x in KeptAwards(all) {
      var j :| 0 <= j < |Somes(opts)| && Somes(opts)[j] == x;
      var k := SomeIndices(opts)[j];
      assert opts[k] == Some(x);
    }
    if Some(x) in all && KeepAward(Some(x)) {
      var k :| 0 <= k < |all| && all[k] == Some(x);
      assert opts[k] == Some(x);
    }
  }

  /** `getAwards`. */
  function GetAwards(st: Store): seq<string> {
    AwardCmpTotalOrder();
    Sort(KeptAwards(st.findFilteredAwards), AwardCmp())
  }

  /**
   * The award list is sorted by the comparator, holds the kept tokens each
   * as often as the store lists it, and is the only such list.
   */
  lemma GetAwardsSpec(st: Store, other: seq<string>, x: string)
    ensures forall i, j :: 0 <= i < j < |GetAwards(st)| ==> AwardLeq(GetAwards(st)[i], GetAwards(st)[j])
    ensures multiset(GetAwards(st)) == multiset(KeptAwards(st.findFilteredAwards))
    ensures x in GetAwards(st) <==> Some(x) in st.findFilteredAwards && KeepAward(Some(x))
    ensures ((forall i, j :: 0 <= i < j < |other| ==> AwardLeq(other[i], other[j]))
             && multiset(other) == multiset(KeptAwards(st.findFilteredAwards)))
      ==> other == GetAwards(st)
  {
    var kept := KeptAwards(st.findFilteredAwards);
    AwardCmpTotalOrder();
    KeptAwardsMembers(st.findFilteredAwards, x);
    assert x in GetAwards(st) <==> x in multiset(kept);
    if (forall i, j :: 0 <= i < j < |other| ==> AwardLeq(other[i], other[j])) && multiset(other) == multiset(kept) {
      assert SortedBy(other, AwardCmp());
      SortedUnique(other, GetAwards(st), AwardCmp());
    }
  }

  /** The family ranks of the four example tokens. */
  lemma ExampleRanks()
    ensures AwardOrder("MVP-2") == 1 && AwardOrder("AS") == 2
    ensures AwardOrder("DPOY-1") == 3 && AwardOrder("6MOY-3") == 7
  {
    MvpRank();
    AllStarRank();
    DpoyRank();
    SixthManRank();
  }

  lemma MvpRank()
    ensures AwardOrder("MVP-2") == 1
  {
    var t := "MVP-2";
    assert Trim(t) == t by { TrimNoop(t); }
    assert StartsWith(t, "MVP-") by { assert t[..4] == "MVP-"; }
  }

  lemma AllStarRank()
    ensures AwardOrder("AS") == 2
  {
    var t := "AS";
    assert Trim(t) == t by { TrimNoop(t); }
    assert !StartsWith(t, "MVP-") by { NotPrefix(t, "MVP-"); }
    assert StartsWith(t, "AS") by { assert t[..2] == "AS"; }
  }

  lemma DpoyRank()
    ensures AwardOrder("DPOY-1") == 3
  {
    var t := "DPOY-1";
    assert Trim(t) == t by { TrimNoop(t); }
    assert !StartsWith(t, "MVP-") && !StartsWith(t, "AS") by { NotPrefix(t, "MVP-"); NotPrefix(t, "AS"); }
    assert StartsWith(t, "DPOY-") by { assert t[..5] == "DPOY-"; }
  }

  lemma SixthManRank()
    ensures AwardOrder("6MOY-3") == 7
  {
    var t := "6MOY-3";
    assert Trim(t) == t by { TrimNoop(t); }
    assert !StartsWith(t, "MVP-") && !StartsWith(t, "AS") && !StartsWith(t, "DPOY-") by {
      NotPrefix(t, "MVP-"); NotPrefix(t, "AS"); NotPrefix(t, "DPOY-");
    }
    assert !StartsWith(t, "NBA") && !StartsWith(t, "DEF") && t != "ROY" by {
      NotPrefix(t, "NBA"); NotPrefix(t, "DEF"); assert t[0] != "ROY"[0];
    }
    assert StartsWith(t, "6MOY-") by { assert t[..5] == "6MOY-"; }
  }

  /** The family ranks of the remaining families and of an unknown token. */
  lemma LaterFamilyRanks()
    ensures AwardOrder("NBA1") == 4 && AwardOrder("DEF2") == 5 && AwardOrder("ROY") == 6
    ensures AwardOrder("MIP") == 8 && AwardOrder("CPOY") == 999
  {
    AllNbaRank();
    AllDefenseRank();
    RookieRank();
    MostImprovedRank();
    UnknownRank();
  }

  /** A token is not one of the first three families. */
  lemma NotTopFamily(t: string)
    requires |t| > 0 && t[0] != 'M' && t[0] != 'A' && t[0] != 'D'
    ensures !StartsWith(t, "MVP-") && !StartsWith(t, "AS") && !StartsWith(t, "DPOY-")
  {
    NotPrefix(t, "MVP-"); NotPrefix(t, "AS"); NotPrefix(t, "DPOY-");
  }

  lemma AllNbaRank()
    ensures AwardOrder("NBA1") == 4
  {
    var t := "NBA1";
    assert Trim(t) == t by { TrimNoop(t); }
    NotTopFamily(t);
    assert StartsWith(t, "NBA") by { assert t[..3] == "NBA"; }
  }

  lemma AllDefenseRank()
    ensures AwardOrder("DEF2") == 5
  {
    var t := "DEF2";
    assert Trim(t) == t by { TrimNoop(t); }
    assert !StartsWith(t, "MVP-") && !StartsWith(t, "AS") by { NotPrefix(t, "MVP-"); NotPrefix(t, "AS"); }
    assert !StartsWith(t, "DPOY-") by { assert t[1] != "DPOY-"[1]; }
    assert !StartsWith(t, "NBA") by { NotPrefix(t, "NBA"); }
    assert StartsWith(t, "DEF") by { assert t[..3] == "DEF"; }
  }

  lemma RookieRank()
    ensures AwardOrder("ROY") == 6
  {
    var t := "ROY";
    assert Trim(t) == t by { TrimNoop(t); }
    NotTopFamily(t);
    assert !StartsWith(t, "NBA") && !StartsWith(t, "DEF") by { NotPrefix(t, "NBA"); NotPrefix(t, "DEF"); }
  }

  lemma MostImprovedRank()
    ensures AwardOrder("MIP") == 8
  {
    var t := "MIP";
    assert Trim(t) == t by { TrimNoop(t); }
    assert !StartsWith(t, "MVP-") by { assert t[1] != "MVP-"[1]; }
    assert !StartsWith(t, "AS") && !StartsWith(t, "DPOY-") by { NotPrefix(t, "AS"); NotPrefix(t, "DPOY-"); }
    assert !StartsWith(t, "NBA") && !StartsWith(t, "DEF") && t != "ROY" by {
      NotPrefix(t, "NBA"); NotPrefix(t, "DEF"); assert t[0] != "ROY"[0];
    }
    assert !StartsWith(t, "6MOY-") by { NotPrefix(t, "6MOY-"); }
  }

  lemma UnknownRank()
    ensures AwardOrder("CPOY") == 999
  {
    var t := "CPOY";
    assert Trim(t) == t by { TrimNoop(t); }
    NotTopFamily(t);
    assert !StartsWith(t, "NBA") && !StartsWith(t, "DEF") && t != "ROY" by {
      NotPrefix(t, "NBA"); NotPrefix(t, "DEF"); assert t[0] != "ROY"[0];
    }
    assert !StartsWith(t, "6MOY-") && t != "MIP" by { NotPrefix(t, "6MOY-"); assert t[0] != "MIP"[0]; }
  }

  /** The comparator puts MVP places before All-Star, All-Star before DPOY places and DPOY before sixth-man places. */
  lemma RankExample()
    ensures AwardLeq("MVP-2", "AS") && AwardLeq("AS", "DPOY-1") && AwardLeq("DPOY-1", "6MOY-3")
    ensures !AwardLeq("AS", "MVP-2") && !AwardLeq("6MOY-3", "DPOY-1")
  {
    ExampleRanks();
  }
}
