/**
 * The pure helpers of the CSV import script: the season year read from a
 * file name, the cleaning of one CSV cell, and the rule that skips a file
 * whose year cannot be read.
 */
module SetupDatabase {
  import opened Wrappers
  import opened JavaText

  // ------------------------------------------------------ file-name year

  const Suffix: string := "_per_game_stats.csv"

  /** The pattern `NBA_(\d{4})_per_game_stats\.csv` matches at position `i` of `name`. */
  predicate MatchesAt(name: string, i: nat) {
    && i + 8 + |Suffix| <= |name|
    && name[i..i + 4] == "NBA_"
    && AllDigits(name[i + 4..i + 8])
    && name[i + 8..i + 8 + |Suffix|] == Suffix
  }

  /** `re.search` from `from` on: the leftmost position where the pattern matches. */
  function FirstMatchFrom(name: string, from: nat): (r: Option<nat>)
    requires from <= |name|
    ensures r.Some? ==> from <= r.value && MatchesAt(name, r.value)
    ensures r.Some? ==> forall i :: from <= i < r.value ==> !MatchesAt(name, i)
    ensures r.None? ==> forall i :: from <= i <= |name| ==> !MatchesAt(name, i)
    decreases |name| - from
  {
    if MatchesAt(name, from) then Some(from)
    else if from == |name| then None
    else FirstMatchFrom(name, from + 1)
  }

  /** The year that group 1 of a match at `i` denotes. */
  function YearAt(name: string, i: nat): nat
    requires MatchesAt(name, i)
  {
    DigitsValue(name[i + 4..i + 8])
  }

  /** `extract_year_from_filename`: the four digits of the first match anywhere in the name, else `None`. */
  function ExtractYear(filename: string): Option<nat> {
    match FirstMatchFrom(filename, 0)
    case None => None
    case Some(i) => Some(YearAt(filename, i))
  }

  /** There is no year exactly when the pattern matches nowhere in the name. */
  lemma ExtractYearNone(filename: string)
    ensures ExtractYear(filename).None? <==> forall i :: 0 <= i <= |filename| ==> !MatchesAt(filename, i)
  {
    if ExtractYear(filename).Some? {
      var i := FirstMatchFrom(filename, 0).value;
      assert MatchesAt(filename, i);
    }
  }

  /** The year comes from the leftmost match. */
  lemma ExtractYearLeftmost(filename: string, i: nat)
    requires MatchesAt(filename, i)
    requires forall j :: 0 <= j < i ==> !MatchesAt(filename, j)
    ensures ExtractYear(filename) == Some(YearAt(filename, i))
  {
    assert FirstMatchFrom(filename, 0) == Some(i);
  }

  /** A number from 1000 to 9999 is rendered with four digits. */
  lemma FourDigits(y: nat)
    requires 1000 <= y <= 9999
    ensures |DecimalString(y)| == 4
  {
    assert |DecimalString(y / 1000)| == 1;
    assert |DecimalString(y / 100)| == 2;
    assert |DecimalString(y / 10)| == 3;
  }

  /**
   * The name of a season file in a directory whose path holds no `N` (such
   * as `data/`) yields the season's year.
   */
  lemma {:induction false} SeasonFileYear(dir: string, y: nat)
    requires 1000 <= y <= 9999
    requires forall k :: 0 <= k < |dir| ==> dir[k] != 'N'
    ensures ExtractYear(dir + "NBA_" + DecimalString(y) + Suffix) == Some(y)
  {
    var name := dir + "NBA_" + DecimalString(y) + Suffix;
    var i := |dir|;
    FourDigits(y);
    assert name[i..i + 4] == "NBA_";
    assert name[i + 4..i + 8] == DecimalString(y);
    assert name[i + 8..i + 8 + |Suffix|] == Suffix;
    assert MatchesAt(name, i);
    forall j | 0 <= j < i ensures !MatchesAt(name, j) {
      assert name[j] == dir[j];
      if j + 4 <= |name| { assert name[j..j + 4][0] == name[j]; }
    }
    ExtractYearLeftmost(name, i);
    assert YearAt(name, i) == DigitsValue(DecimalString(y));
    DigitsValueOfDecimal(y);
  }

  // ------------------------------------------------------------- import

  /** `import_data` goes on with a file only when its year is truthy: present and not 0. */
  predicate ShouldImport(year: Option<nat>) {
    year.Some? && year.value != 0
  }

  /** A file is imported exactly when its year is read and is not the year 0. */
  lemma ImportIff(filename: string)
    ensures ShouldImport(ExtractYear(filename)) <==>
      (exists i :: 0 <= i <= |filename| && MatchesAt(filename, i)) && ExtractYear(filename) != Some(0)
  {
    ExtractYearNone(filename);
  }

  /** Season files of the data directory are imported. */
  lemma ImportSeasonFile(y: nat)
    requires 1000 <= y <= 9999
    ensures ShouldImport(ExtractYear("data/NBA_" + DecimalString(y) + Suffix))
  {
    SeasonFileYear("data/", y);
    assert "data/" + "NBA_" + DecimalString(y) + Suffix == "data/NBA_" + DecimalString(y) + Suffix;
  }

  /** The name with the digits `0000` matches, but its year is falsy and the file is skipped. */
  lemma SkipYearZero()
    ensures ExtractYear("NBA_0000_per_game_stats.csv") == Some(0)
    ensures !ShouldImport(ExtractYear("NBA_0000_per_game_stats.csv"))
  {
    var digits := "0000";
    var name := "NBA_" + digits + Suffix;
    assert name == "NBA_0000_per_game_stats.csv";
    assert name[0..4] == "NBA_" && name[4..8] == digits && name[8..8 + |Suffix|] == Suffix;
    assert MatchesAt(name, 0);
    ExtractYearLeftmost(name, 0);
    assert digits[..1] == "0" && digits[..1][..0] == "";
    assert DigitsValue(digits[..1]) == 0;
    assert digits[..2] == "00" && digits[..2][..1] == digits[..1];
    assert DigitsValue(digits[..2]) == 0;
    assert digits[..3] == "000" && digits[..3][..2] == digits[..2];
    assert DigitsValue(digits[..3]) == 0;
    assert digits[..3] == digits[..|digits| - 1];
    assert DigitsValue(digits) == 0;
  }

  // ----------------------------------------------------------- clean_value

  /** Python `str.isspace` for one character: the characters `str.strip()` removes. */
  predicate IsPySpace(c: char) {
    || '\t' <= c <= '\r'
    || '\U{001C}' <= c <= ' '
    || c == '\U{0085}' || c == '\U{00A0}' || c == '\U{1680}'
    || '\U{2000}' <= c <= '\U{200A}'
    || c == '\U{2028}' || c == '\U{2029}' || c == '\U{202F}' || c == '\U{205F}' || c == '\U{3000}'
  }

  /** The first position at or after `from` that does not hold whitespace. */
  function StripStartIndex(s: string, from: nat): (k: nat)
    requires from <= |s|
    ensures from <= k <= |s|
    ensures k < |s| ==> !IsPySpace(s[k])
    ensures forall i :: from <= i < k ==> IsPySpace(s[i])
    decreases |s| - from
  {
    if from < |s| && IsPySpace(s[from]) then StripStartIndex(s, from + 1) else from
  }

  /** The end of `s[lo..hi]` once its trailing whitespace is dropped. */
  function StripEndIndex(s: string, lo: nat, hi: nat): (e: nat)
    requires lo <= hi <= |s|
    ensures lo <= e <= hi
    ensures e > lo ==> !IsPySpace(s[e - 1])
    ensures forall i :: e <= i < hi ==> IsPySpace(s[i])
    decreases hi
  {
    if lo < hi && IsPySpace(s[hi - 1]) then StripEndIndex(s, lo, hi - 1) else hi
  }

  /** Python `s.strip()`: the infix left when whitespace is removed from both ends. */
  function PyStrip(s: string): (r: string)
    ensures r != [] ==> !IsPySpace(r[0]) && !IsPySpace(r[|r| - 1])
    ensures exists k :: StrippedAt(s, r, k)
  {
    var k := StripStartIndex(s, 0);
    var e := StripEndIndex(s, k, |s|);
    assert StrippedAt(s, s[k..e], k);
    s[k..e]
  }

  /** Stripping stripped text changes nothing. */
  lemma PyStripIdempotent(s: string)
    ensures PyStrip(PyStrip(s)) == PyStrip(s)
  {
    var r := PyStrip(s);
    if r != [] {
      assert StripStartIndex(r, 0) == 0;
      assert StripEndIndex(r, 0, |r|) == |r|;
      assert r[0..|r|] == r;
    }
  }

  /** `r` is the infix of `s` at `k` and everything around it is whitespace. */
  predicate StrippedAt(s: string, r: string, k: int) {
    && 0 <= k <= |s| - |r|
    && r == s[k..k + |r|]
    && (forall i :: 0 <= i < k ==> IsPySpace(s[i]))
    && (forall i :: k + |r| <= i < |s| ==> IsPySpace(s[i]))
  }

  /** A cell as pandas hands it over: missing (`pd.isna`), a string, or another value. */
  datatype Cell<V> = Missing | Text(text: string) | Value(value: V)

  /**
   * What `clean_value` returns: `None`, `float(text)`, `int(text)`, the
   * stripped string itself, or the non-string value unchanged.
   */
  datatype Cleaned<V> = NoValue | FloatOf(text: string) | IntOf(text: string) | Raw(text: string) | Same(value: V)

  /** The cleaning of a string once it is stripped to `t`. */
  function CleanStripped<V>(t: string, floatOk: string -> bool, intOk: string -> bool): (r: Cleaned<V>)
    ensures r.FloatOf? ==> r.text == t && floatOk(t)
    ensures r.IntOf? ==> r.text == t && intOk(t) && '.' !in t
    ensures r.Raw? ==> r.text == t && t != "" && t[0] != '.' && if '.' in t then !floatOk(t) else !intOk(t)
    ensures !r.Same?
  {
    if t == "" then NoValue
    else if t[0] == '.' then (if floatOk(t) then FloatOf(t) else NoValue)
    else if '.' in t then (if floatOk(t) then FloatOf(t) else Raw(t))
    else if intOk(t) then IntOf(t) else Raw(t)
  }

  /**
   * `clean_value`, with Python's `float()` and `int()` acceptance as the
   * predicates `floatOk` and `intOk`.
   */
  function CleanValue<V>(cell: Cell<V>, floatOk: string -> bool, intOk: string -> bool): (r: Cleaned<V>)
    ensures cell.Value? <==> r.Same?
    ensures cell.Value? ==> r == Same(cell.value)
    ensures r.FloatOf? ==> cell.Text? && r.text == PyStrip(cell.text) && floatOk(r.text)
    ensures r.IntOf? ==> cell.Text? && r.text == PyStrip(cell.text) && intOk(r.text) && '.' !in r.text
    ensures r.Raw? ==> cell.Text? && r.text == PyStrip(cell.text) && r.text != "" && r.text[0] != '.'
    ensures r.Raw? ==> if '.' in r.text then !floatOk(r.text) else !intOk(r.text)
  {
    match cell
    case Missing => NoValue
    case Value(v) => Same(v)
    case Text(s) => if s == "" then NoValue else CleanStripped(PyStrip(s), floatOk, intOk)
  }

  /**
   * `None` comes out exactly for a missing cell, a blank string, and a
   * stripped string starting with `.` that `float()` refuses.
   */
  lemma CleanValueNone<V>(cell: Cell<V>, floatOk: string -> bool, intOk: string -> bool)
    ensures CleanValue(cell, floatOk, intOk) == NoValue <==>
      || cell.Missing?
      || (cell.Text? && PyStrip(cell.text) == "")
      || (cell.Text? && PyStrip(cell.text) != "" && PyStrip(cell.text)[0] == '.' && !floatOk(PyStrip(cell.text)))
  {
    if cell.Text? && cell.text == "" {
      assert PyStrip(cell.text) == "";
    }
  }

  /** A stripped string starting with `.` becomes a float or `None`, never the string itself. */
  lemma LeadingDotNeverRaw<V>(s: string, floatOk: string -> bool, intOk: string -> bool)
    requires PyStrip(s) != "" && PyStrip(s)[0] == '.'
    ensures CleanValue(Cell<V>.Text(s), floatOk, intOk) == if floatOk(PyStrip(s)) then FloatOf(PyStrip(s)) else NoValue
  {
    assert s != "";
  }

  /** Surrounding whitespace does not affect the cleaned value: cleaning the stripped text is the same. */
  lemma CleanValueStripped<V>(s: string, floatOk: string -> bool, intOk: string -> bool)
    ensures CleanValue(Cell<V>.Text(PyStrip(s)), floatOk, intOk) == CleanValue(Cell<V>.Text(s), floatOk, intOk)
  {
    var t := PyStrip(s);
    PyStripIdempotent(s);
    if s == "" {
      assert t == "";
    } else if t == "" {
      assert CleanValue(Cell<V>.Text(t), floatOk, intOk) == NoValue;
    } else {
      assert CleanValue(Cell<V>.Text(t), floatOk, intOk) == CleanStripped(PyStrip(t), floatOk, intOk);
    }
  }
}
