/**
 * The C and C++ library string conversions the editor relies on, written out
 * character by character: `std::istringstream >> unsigned int`, `atoi`,
 * `std::ostringstream << unsigned`, and substring search.
 */
module Text {
  import opened Exceptions

  const UINT_LIMIT: int := 0x1_0000_0000   // one more than the largest unsigned int

  /** isspace() in the C locale. */
  predicate IsSpace(c: char) {
    c == ' ' || c == '\t' || c == '\n' || c == '\r' || c == 11 as char || c == 12 as char
  }

  predicate IsDigit(c: char) { '0' <= c <= '9' }

  function DigitValue(c: char): nat
    requires IsDigit(c)
  {
    c as int - '0' as int
  }

  function DigitChar(d: nat): char
    requires d < 10
  {
    (d + '0' as int) as char
  }

  predicate AllDigits(s: string) { forall i :: 0 <= i < |s| ==> IsDigit(s[i]) }

  /** The text left once leading white space is skipped. */
  function SkipSpaces(s: string): (r: string)
    ensures |r| <= |s| && r == s[|s| - |r|..]
    ensures r == [] || !IsSpace(r[0])
  {
    if |s| > 0 && IsSpace(s[0]) then SkipSpaces(s[1..]) else s
  }

  /** The number of leading decimal digits of s. */
  function DigitRun(s: string): (n: nat)
    ensures n <= |s| && AllDigits(s[..n])
    ensures n < |s| ==> !IsDigit(s[n])
  {
    if |s| > 0 && IsDigit(s[0]) then
      assert forall i :: 0 < i < 1 + DigitRun(s[1..]) ==> s[i] == s[1..][i - 1];
      1 + DigitRun(s[1..])
    else 0
  }

  /** The value of a string of decimal digits, most significant first. */
  function DigitsValue(s: string): nat
    requires AllDigits(s)
  {
    if s == [] then 0 else 10 * DigitsValue(s[..|s| - 1]) + DigitValue(s[|s| - 1])
  }

  /** Decimal digits and the value they stand for, after an optional sign. */
  datatype Numeral = Numeral(negative: bool, magnitude: nat)

  /**
   * The optional sign and the maximal run of digits at the head of s (after
   * white space), or None when no digit follows.
   */
  function ScanNumeral(s: string): Option<Numeral>
  {
    var t := SkipSpaces(s);
    var signed := |t| > 0 && (t[0] == '+' || t[0] == '-');
    var body := if signed then t[1..] else t;
    var n := DigitRun(body);
    if n == 0 then None
    else Some(Numeral(signed && t[0] == '-', DigitsValue(body[..n])))
  }

  /**
   * `std::istringstream(s) >> unsigned int`: white space is skipped, a sign is
   * accepted, at least one digit must follow, the text after the digits is
   * ignored; a magnitude above the largest unsigned int sets the fail bit, and a
   * minus sign negates modulo 2^32.
   */
  function ParseUnsigned(s: string): (r: Option<nat>)
    ensures r.Some? ==> r.value < UINT_LIMIT
  {
    match ScanNumeral(s)
    case None => None
    case Some(Numeral(neg, m)) =>
      if m >= UINT_LIMIT then None
      else if neg then Some((UINT_LIMIT - m) % UINT_LIMIT)
      else Some(m)
  }

  /**
   * atoi(): like the stream read, but a missing number reads as 0. The
   * magnitudes this editor passes fit an int; overflow (undefined in C) is
   * not modelled.
   */
  function Atoi(s: string): int
  {
    match ScanNumeral(s)
    case None => 0
    case Some(Numeral(neg, m)) => if neg then -(m as int) else m
  }

  /** `std::ostringstream << n` for a non-negative number: its decimal digits. */
  function NatToString(n: nat): (r: string)
    ensures |r| > 0 && AllDigits(r)
  {
    if n < 10 then [DigitChar(n)]
    else NatToString(n / 10) + [DigitChar(n % 10)]
  }

  /** `std::ostringstream << i` for any int. */
  function IntToString(i: int): string
  {
    if i < 0 then "-" + NatToString(-i) else NatToString(i)
  }

  lemma {:induction false} DigitsValueOfNatToString(n: nat)
    ensures DigitsValue(NatToString(n)) == n
  {
    if n >= 10 {
      var s := NatToString(n);
      assert s[..|s| - 1] == NatToString(n / 10);
      DigitsValueOfNatToString(n / 10);
    }
  }

  /** Scanning the digits of a number reads the number back, unsigned. */
  lemma ScanNatToString(n: nat)
    ensures ScanNumeral(NatToString(n)) == Some(Numeral(false, n))
  {
    var s := NatToString(n);
    assert s[0] != '+' && s[0] != '-' && !IsSpace(s[0]);
    assert SkipSpaces(s) == s;
    assert DigitRun(s) == |s|;
    assert s[..|s|] == s;
    DigitsValueOfNatToString(n);
  }

  /** Reading back what was written gives the number: the DSM id rollback relies on it. */
  lemma ParseUnsignedOfNatToString(n: nat)
    requires n < UINT_LIMIT
    ensures ParseUnsigned(NatToString(n)) == Some(n)
    ensures Atoi(NatToString(n)) == n
  {
    ScanNatToString(n);
  }

  /** atoi reads back any int that was written out, negative ones included. */
  lemma AtoiOfIntToString(i: int)
    ensures Atoi(IntToString(i)) == i
  {
    if i >= 0 {
      ScanNatToString(i);
    } else {
      ScanNegatedNatToString(-i);
    }
  }

  /** Scanning a minus sign and the digits of a number reads the number back, negative. */
  lemma ScanNegatedNatToString(n: nat)
    ensures ScanNumeral("-" + NatToString(n)) == Some(Numeral(true, n))
  {
    var s := NatToString(n);
    var t := "-" + s;
    assert !IsSpace(t[0]);
    assert SkipSpaces(t) == t;
    assert t[1..] == s;
    assert DigitRun(s) == |s|;
    assert s[..|s|] == s;
    DigitsValueOfNatToString(n);
  }

  /** The digits of a number determine it: different numbers print differently. */
  lemma NatToStringInjective(m: nat, n: nat)
    requires NatToString(m) == NatToString(n)
    ensures m == n
  {
    DigitsValueOfNatToString(m);
    DigitsValueOfNatToString(n);
  }

  /** A number the stream reads as other than 0 is one atoi reads as other than 0. */
  lemma AtoiOfNonZero(s: string)
    requires ParseUnsigned(s).Some? && ParseUnsigned(s) != Some(0)
    ensures Atoi(s) != 0
  {
  }

  predicate OccursAt(s: string, pat: string, k: int) {
    0 <= k && k + |pat| <= |s| && s[k..k + |pat|] == pat
  }

  /** `std::string::find` / `strstr`: the first position where pat occurs, at or after `from`. */
  function FindFrom(s: string, pat: string, from: nat): (r: Option<nat>)
    requires from <= |s|
    ensures r.Some? ==> from <= r.value && OccursAt(s, pat, r.value)
    ensures r.Some? ==> forall k :: from <= k < r.value ==> !OccursAt(s, pat, k)
    ensures r.None? ==> forall k :: from <= k <= |s| ==> !OccursAt(s, pat, k)
    decreases |s| - from
  {
    if OccursAt(s, pat, from) then Some(from)
    else if from == |s| then None
    else FindFrom(s, pat, from + 1)
  }

  function Find(s: string, pat: string): (r: Option<nat>)
    ensures r.Some? ==> OccursAt(s, pat, r.value) && forall k :: 0 <= k < r.value ==> !OccursAt(s, pat, k)
    ensures r.None? <==> forall k :: 0 <= k <= |s| ==> !OccursAt(s, pat, k)
  {
    FindFrom(s, pat, 0)
  }

  predicate Contains(s: string, pat: string) { Find(s, pat).Some? }

  predicate StartsWith(s: string, p: string) { |p| <= |s| && s[..|p|] == p }
}
