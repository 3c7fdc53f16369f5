/**
 * The parts of java.lang.String (and Integer) that the services rely on:
 * trim, startsWith, indexOf/lastIndexOf, contains, split on a literal
 * separator, ASCII lower-casing, Integer.parseInt and decimal rendering.
 */
module JavaText {
  import opened Wrappers

  const MinInt: int := -0x8000_0000
  const MaxInt: int := 0x7fff_ffff

  // ---------------------------------------------------------------- trim

  /** `String.trim` removes every leading and trailing char whose code is at most U+0020. */
  predicate IsTrimmable(c: char) { c <= ' ' }

  function TrimStart(s: string): (r: string)
    ensures |r| <= |s| && r == s[|s| - |r|..]
    ensures r != [] ==> !IsTrimmable(r[0])
    ensures forall i :: 0 <= i < |s| - |r| ==> IsTrimmable(s[i])
  {
    if s != [] && IsTrimmable(s[0]) then TrimStart(s[1..]) else s
  }

  function TrimEnd(s: string): (r: string)
    ensures |r| <= |s| && r == s[..|r|]
    ensures r != [] ==> !IsTrimmable(r[|r| - 1])
    ensures forall i :: |r| <= i < |s| ==> IsTrimmable(s[i])
  {
    if s != [] && IsTrimmable(s[|s| - 1]) then TrimEnd(s[..|s| - 1]) else s
  }

  /** Java `s.trim()`: the longest infix that neither starts nor ends with a trimmable char. */
  function Trim(s: string): (r: string)
    ensures |r| <= |s|
    ensures r != [] ==> !IsTrimmable(r[0]) && !IsTrimmable(r[|r| - 1])
    ensures exists k :: TrimmedAt(s, r, k)
  {
    var t := TrimStart(s);
    var r := TrimEnd(t);
    var k := |s| - |t|;
    assert r == s[k..k + |r|];
    assert TrimmedAt(s, r, k);
    r
  }

  /** `r` is the infix of `s` at `k` and everything around it is trimmable. */
  predicate TrimmedAt(s: string, r: string, k: int) {
    && 0 <= k <= |s| - |r|
    && r == s[k..k + |r|]
    && (forall i :: 0 <= i < k ==> IsTrimmable(s[i]))
    && (forall i :: k + |r| <= i < |s| ==> IsTrimmable(s[i]))
  }

  /** Trimming a trimmed string changes nothing. */
  lemma TrimIdempotent(s: string)
    ensures Trim(Trim(s)) == Trim(s)
  {
  }

  /** A string that neither starts nor ends with a trimmable char is its own trim. */
  lemma TrimNoop(s: string)
    requires s != [] && !IsTrimmable(s[0]) && !IsTrimmable(s[|s| - 1])
    ensures Trim(s) == s
  {
    assert TrimStart(s) == s;
  }

  /** A string is blank after trimming exactly when every char of it is trimmable. */
  lemma TrimEmptyIff(s: string)
    ensures Trim(s) == "" <==> forall i :: 0 <= i < |s| ==> IsTrimmable(s[i])
  {
    if Trim(s) != "" {
      var t := TrimStart(s);
      assert t != [] && !IsTrimmable(t[0]);
      assert s[|s| - |t|] == t[0];
    }
  }

  // ------------------------------------------------------ prefix search

  /** Java `s.startsWith(p)`. */
  predicate StartsWith(s: string, p: string) {
    |p| <= |s| && s[..|p|] == p
  }

  /** Java `s.indexOf(p, from)`: the first position at or after `from` where `p` occurs, or -1. */
  function IndexOfFrom(s: string, p: string, from: nat): (r: int)
    requires from <= |s|
    ensures r == -1 || from <= r <= |s|
    ensures r >= 0 ==> StartsWith(s[r..], p)
    ensures r >= 0 ==> forall i :: from <= i < r ==> !StartsWith(s[i..], p)
    ensures r == -1 ==> forall i :: from <= i <= |s| ==> !StartsWith(s[i..], p)
    decreases |s| - from
  {
    if StartsWith(s[from..], p) then from
    else if from == |s| then -1
    else IndexOfFrom(s, p, from + 1)
  }

  /** Java `s.indexOf(p)`: the leftmost position where `p` occurs, or -1. */
  function IndexOf(s: string, p: string): (r: int)
    ensures -1 <= r <= |s|
    ensures r >= 0 ==> StartsWith(s[r..], p)
    ensures r >= 0 ==> forall i :: 0 <= i < r ==> !StartsWith(s[i..], p)
    ensures r == -1 ==> forall i :: 0 <= i <= |s| ==> !StartsWith(s[i..], p)
  {
    IndexOfFrom(s, p, 0)
  }

  /** Java `s.contains(p)`. */
  predicate Contains(s: string, p: string) {
    IndexOf(s, p) >= 0
  }

  /** `Contains` means that `p` occurs somewhere in `s`. */
  lemma ContainsIff(s: string, p: string)
    ensures Contains(s, p) <==> exists i :: 0 <= i <= |s| && StartsWith(s[i..], p)
  {
  }

  /** Java `s.lastIndexOf(p)` restricted to start positions at most `upTo`. */
  function LastIndexOfUpTo(s: string, p: string, upTo: int): (r: int)
    requires -1 <= upTo <= |s|
    ensures -1 <= r <= upTo
    ensures r >= 0 ==> StartsWith(s[r..], p)
    ensures forall i :: r < i <= upTo && 0 <= i ==> !StartsWith(s[i..], p)
    decreases upTo + 1
  {
    if upTo < 0 then -1
    else if StartsWith(s[upTo..], p) then upTo
    else LastIndexOfUpTo(s, p, upTo - 1)
  }

  /** Java `s.lastIndexOf(p)`: the last position where `p` occurs, or -1. */
  function LastIndexOf(s: string, p: string): (r: int)
    ensures -1 <= r <= |s|
    ensures r >= 0 ==> StartsWith(s[r..], p)
    ensures forall i :: r < i <= |s| ==> !StartsWith(s[i..], p)
  {
    LastIndexOfUpTo(s, p, |s|)
  }

  // ------------------------------------------------------------- split

  /**
   * All pieces of `s` between the leftmost non-overlapping occurrences of `sep`,
   * empty pieces included.
   */
  function SplitAll(s: string, sep: string): (parts: seq<string>)
    requires |sep| > 0
    ensures |parts| >= 1
    ensures Contains(s, sep) <==> |parts| >= 2
    decreases |s|
  {
    var i := IndexOf(s, sep);
    if i < 0 then [s] else [s[..i]] + SplitAll(s[i + |sep|..], sep)
  }

  /** Java `String.join(sep, parts)`. */
  function Join(parts: seq<string>, sep: string): string
    requires |parts| >= 1
  {
    if |parts| == 1 then parts[0] else parts[0] + sep + Join(parts[1..], sep)
  }

  /** SplitAll is undone by joining the pieces back with the separator. */
  lemma {:induction false} JoinSplitAll(s: string, sep: string)
    requires |sep| > 0
    ensures Join(SplitAll(s, sep), sep) == s
    decreases |s|
  {
    var i := IndexOf(s, sep);
    if i >= 0 {
      var rest := s[i + |sep|..];
      JoinSplitAll(rest, sep);
      assert s[i..i + |sep|] == sep;
      assert s == s[..i] + sep + rest;
    }
  }

  /** No piece of SplitAll contains the separator. */
  lemma {:induction false} SplitAllPiecesFree(s: string, sep: string)
    requires |sep| > 0
    ensures forall k :: 0 <= k < |SplitAll(s, sep)| ==> !Contains(SplitAll(s, sep)[k], sep)
    decreases |s|
  {
    var i := IndexOf(s, sep);
    if i >= 0 {
      SplitAllPiecesFree(s[i + |sep|..], sep);
      var head := s[..i];
      forall j | 0 <= j <= |head| ensures !StartsWith(head[j..], sep) {
        if StartsWith(head[j..], sep) {
          // `sep` would then occur in `s` at j, before its first occurrence i
          OccurrenceInPrefix(s, i, j, sep);
          assert false;
        }
      }
    }
  }

  /** An occurrence inside a prefix of `s` is an occurrence in `s`. */
  lemma OccurrenceInPrefix(s: string, i: nat, j: nat, p: string)
    requires j <= i <= |s| && StartsWith(s[..i][j..], p)
    ensures StartsWith(s[j..], p)
  {
    assert s[..i][j..][..|p|] == s[j..][..|p|];
  }

  /** Drops every empty string at the end of `parts`. */
  function DropTrailingEmpty(parts: seq<string>): (r: seq<string>)
    ensures |r| <= |parts| && r == parts[..|r|]
    ensures r != [] ==> r[|r| - 1] != ""
    ensures forall k :: |r| <= k < |parts| ==> parts[k] == ""
  {
    if parts == [] then []
    else if parts[|parts| - 1] == "" then DropTrailingEmpty(parts[..|parts| - 1])
    else parts
  }

  /**
   * Java `s.split(sep)` for a separator without regular-expression metacharacters:
   * when `sep` does not occur the result is `[s]`; otherwise trailing empty pieces
   * are removed.
   */
  function Split(s: string, sep: string): (r: seq<string>)
    requires |sep| > 0
    ensures !Contains(s, sep) ==> r == [s]
    ensures Contains(s, sep) ==> r == DropTrailingEmpty(SplitAll(s, sep))
  {
    var parts := SplitAll(s, sep);
    if |parts| == 1 then parts else DropTrailingEmpty(parts)
  }

  /** The text of `s` before the first `sep`, or all of `s` when there is none. */
  function FirstPiece(s: string, sep: string): (r: string)
    requires |sep| > 0
    ensures r == SplitAll(s, sep)[0]
    ensures !Contains(r, sep) && StartsWith(s, r)
  {
    SplitAllPiecesFree(s, sep);
    var i := IndexOf(s, sep);
    if i < 0 then s else s[..i]
  }

  /**
   * When `s.split(sep)` has at least two pieces, they are the text before the
   * first `sep` and the text between it and the next one (or the end).
   */
  lemma SplitFirstTwo(s: string, sep: string)
    requires |sep| > 0 && |Split(s, sep)| >= 2
    ensures Contains(s, sep)
    ensures Split(s, sep)[0] == s[..IndexOf(s, sep)]
    ensures Split(s, sep)[1] == FirstPiece(s[IndexOf(s, sep) + |sep|..], sep)
  {
    var parts := SplitAll(s, sep);
    var r := Split(s, sep);
    assert !Contains(s, sep) ==> |r| == 1;
    var i := IndexOf(s, sep);
    var rest := SplitAll(s[i + |sep|..], sep);
    assert parts == [s[..i]] + rest;
    assert r == parts[..|r|];
    assert r[0] == parts[0] == s[..i];
    assert r[1] == parts[1] == rest[0];
  }

  // --------------------------------------------------------- lower case

  /** `Character.toLowerCase` on the ASCII letters; other chars are left as they are. */
  function LowerChar(c: char): char {
    if 'A' <= c <= 'Z' then (c as int + 32) as char else c
  }

  /** Java `s.toLowerCase()`, restricted to ASCII letters. */
  function ToLower(s: string): (r: string)
    ensures |r| == |s|
    ensures forall i :: 0 <= i < |s| ==> r[i] == LowerChar(s[i])
  {
    seq(|s|, i requires 0 <= i < |s| => LowerChar(s[i]))
  }

  /** Lower-casing twice is lower-casing once. */
  lemma ToLowerIdempotent(s: string)
    ensures ToLower(ToLower(s)) == ToLower(s)
  {
  }

  // ----------------------------------------------------------- numbers

  predicate IsDigit(c: char) { '0' <= c <= '9' }

  predicate AllDigits(s: string) {
    forall i :: 0 <= i < |s| ==> IsDigit(s[i])
  }

  /** The value of a string of decimal digits (0 for the empty string). */
  function DigitsValue(s: string): nat
    requires AllDigits(s)
  {
    if s == [] then 0 else DigitsValue(s[..|s| - 1]) * 10 + (s[|s| - 1] as int - '0' as int)
  }

  /**
   * Java `Integer.parseInt(s)`: an optional sign followed by at least one decimal digit,
   * within the 32-bit range; anything else fails (NumberFormatException).
   */
  function ParseInt(s: string): (r: Option<int>)
    ensures r.Some? ==> MinInt <= r.value <= MaxInt
    ensures r.Some? ==> s != [] && AllDigits(s[1..]) && (IsDigit(s[0]) || s[0] == '-' || s[0] == '+')
  {
    if s == [] then None
    else if s[0] == '-' || s[0] == '+' then
      if |s| == 1 || !AllDigits(s[1..]) then None
      else
        var v: int := if s[0] == '-' then -(DigitsValue(s[1..]) as int) else DigitsValue(s[1..]);
        if MinInt <= v <= MaxInt then Some(v) else None
    else if !AllDigits(s) then None
    else
      var v := DigitsValue(s);
      assert s[1..] == s[1..];
      if v <= MaxInt then Some(v) else None
  }

  function DigitChar(d: nat): char
    requires d < 10
  {
    ('0' as int + d) as char
  }

  /** The decimal rendering of a natural number (Java `Integer.toString`, JavaScript `toString`). */
  function DecimalString(n: nat): (r: string)
    ensures |r| >= 1 && AllDigits(r)
    ensures (n < 10) == (|r| == 1)
    decreases n
  {
    if n < 10 then [DigitChar(n)] else DecimalString(n / 10) + [DigitChar(n % 10)]
  }

  /** Reading back a rendered number gives the number. */
  lemma {:induction false} DigitsValueOfDecimal(n: nat)
    ensures DigitsValue(DecimalString(n)) == n
    decreases n
  {
    if n >= 10 {
      DigitsValueOfDecimal(n / 10);
      var s := DecimalString(n);
      assert s[..|s| - 1] == DecimalString(n / 10);
    }
  }

  /** `Integer.parseInt` accepts the rendering of every non-negative int and returns it. */
  lemma ParseDecimal(n: nat)
    requires n <= MaxInt
    ensures ParseInt(DecimalString(n)) == Some(n)
  {
    DigitsValueOfDecimal(n);
  }

  /** `Integer.parseInt` of a rendered number: the number when it fits in an int, else a failure. */
  lemma ParseDecimalAll(n: nat)
    ensures ParseInt(DecimalString(n)) == if n <= MaxInt then Some(n) else None
  {
    DigitsValueOfDecimal(n);
    var s := DecimalString(n);
    assert IsDigit(s[0]);
  }

  /**
   * `Integer.parseInt` on an optional sign followed by a non-empty digit run:
   * the signed value of the digits when it fits in an int, else a failure.
   * Every such input within range is accepted.
   */
  lemma ParseSignedDigits(sign: string, d: string)
    requires sign == "" || sign == "-" || sign == "+"
    requires d != [] && AllDigits(d)
    ensures var v := if sign == "-" then -(DigitsValue(d) as int) else DigitsValue(d) as int;
      ParseInt(sign + d) == if MinInt <= v <= MaxInt then Some(v) else None
  {
    var s := sign + d;
    if sign == "" {
      assert s == d;
    } else {
      assert s[0] == sign[0] && s[1..] == d;
    }
  }

  /** A minus sign before a rendered number negates it, down to the int minimum. */
  lemma ParseNegativeDecimal(n: nat)
    ensures ParseInt("-" + DecimalString(n)) == if n <= -MinInt then Some(-(n as int)) else None
  {
    DigitsValueOfDecimal(n);
    ParseSignedDigits("-", DecimalString(n));
  }

  /** A plus sign before a rendered number changes nothing. */
  lemma ParsePlusDecimal(n: nat)
    ensures ParseInt("+" + DecimalString(n)) == ParseInt(DecimalString(n))
  {
    DigitsValueOfDecimal(n);
    ParseDecimalAll(n);
    ParseSignedDigits("+", DecimalString(n));
  }

  /** A leading zero does not change the value of a digit run. */
  lemma {:induction false} DigitsValueLeadingZero(d: string)
    requires AllDigits(d)
    ensures AllDigits("0" + d) && DigitsValue("0" + d) == DigitsValue(d)
    decreases |d|
  {
    var z := "0" + d;
    if d != [] {
      DigitsValueLeadingZero(d[..|d| - 1]);
      assert z[..|z| - 1] == "0" + d[..|d| - 1];
    }
  }

  /** `Integer.parseInt` ignores leading zeros: "03" reads as 3. */
  lemma ParseLeadingZero(d: string)
    requires d != [] && AllDigits(d)
    ensures ParseInt("0" + d) == ParseInt(d)
  {
    DigitsValueLeadingZero(d);
    ParseSignedDigits("", "0" + d);
    ParseSignedDigits("", d);
    assert "" + ("0" + d) == "0" + d;
    assert "" + d == d;
  }

  /** Different numbers have different renderings. */
  lemma DecimalStringInjective(a: nat, b: nat)
    requires DecimalString(a) == DecimalString(b)
    ensures a == b
  {
    DigitsValueOfDecimal(a);
    DigitsValueOfDecimal(b);
  }
}
