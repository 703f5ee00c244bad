/**
 * The string helpers the table engine relies on: the null-tolerant
 * `StringUtils` predicates of commons-lang (`isBlank`, `isEmpty`,
 * `contains`, `replace`), `String.trim`, `String.toLowerCase`,
 * `Integer.parseInt` and `new BigDecimal(String)`.
 */
module Text {
  import opened Wrappers

  /**
   * `Character.isWhitespace`: the ASCII blanks and separators, and the
   * Unicode space, line and paragraph separators other than the
   * non-breaking ones (U+00A0, U+2007, U+202F).
   */
  predicate IsWhitespace(c: char) {
    var k := c as int;
    || k == 0x20 || 0x09 <= k <= 0x0D || 0x1C <= k <= 0x1F
    || k == 0x1680 || 0x2000 <= k <= 0x2006 || 0x2008 <= k <= 0x200A
    || k == 0x2028 || k == 0x2029 || k == 0x205F || k == 0x3000
  }

  /** `StringUtils.isBlank`: null, empty, or whitespace only. */
  predicate IsBlank(s: Option<string>) {
    s.None? || forall i :: 0 <= i < |s.value| ==> IsWhitespace(s.value[i])
  }

  /** `StringUtils.isEmpty`: null or of length zero. */
  predicate IsEmpty(s: Option<string>) {
    s.None? || |s.value| == 0
  }

  lemma NotBlankIsNotEmpty(s: Option<string>)
    requires !IsBlank(s)
    ensures !IsEmpty(s) && s.Some? && |s.value| > 0
  {
  }

  predicate StartsWith(s: string, prefix: string) {
    |prefix| <= |s| && s[..|prefix|] == prefix
  }

  /** What follows `prefix` in `s`. */
  function After(s: string, prefix: string): (r: string)
    requires StartsWith(s, prefix)
    ensures s == prefix + r
  {
    s[|prefix|..]
  }

  predicate EndsWith(s: string, suffix: string) {
    |suffix| <= |s| && s[|s| - |suffix|..] == suffix
  }

  /** `p` occurs in `s` starting at index `i`. */
  predicate OccursAt(s: string, p: string, i: int) {
    0 <= i && i + |p| <= |s| && s[i..i + |p|] == p
  }

  /** `StringUtils.contains` on two non-null strings. */
  predicate Contains(s: string, p: string) {
    exists i :: 0 <= i <= |s| - |p| && OccursAt(s, p, i)
  }

  lemma StartsWithContains(s: string, p: string)
    requires StartsWith(s, p)
    ensures Contains(s, p)
  {
    assert OccursAt(s, p, 0);
  }

  /** `Character.toLowerCase` restricted to the ASCII letters. */
  function LowerChar(c: char): char {
    if 'A' <= c <= 'Z' then (c as int + 32) as char else c
  }

  /** `String.toLowerCase`, character by character. */
  function ToLower(s: string): (r: string)
    ensures |r| == |s|
    ensures forall i :: 0 <= i < |s| ==> r[i] == LowerChar(s[i])
  {
    seq(|s|, i requires 0 <= i < |s| => LowerChar(s[i]))
  }

  /** A character `String.trim` removes: any at or below U+0020. */
  predicate IsTrimmable(c: char) {
    c <= ' '
  }

  /** Where `String.trim` starts: the first index at or after `i` holding a kept character. */
  function TrimStartIndex(s: string, i: nat): (r: nat)
    requires i <= |s|
    ensures i <= r <= |s|
    ensures forall k :: i <= k < r ==> IsTrimmable(s[k])
    ensures r < |s| ==> !IsTrimmable(s[r])
    decreases |s| - i
  {
    if i < |s| && IsTrimmable(s[i]) then TrimStartIndex(s, i + 1) else i
  }

  /** Where `String.trim` ends: the last kept character before `j`, but never before `lo`. */
  function TrimEndIndex(s: string, lo: nat, j: nat): (r: nat)
    requires lo <= j <= |s|
    ensures lo <= r <= j
    ensures forall k :: r <= k < j ==> IsTrimmable(s[k])
    ensures r > lo ==> !IsTrimmable(s[r - 1])
  {
    if j > lo && IsTrimmable(s[j - 1]) then TrimEndIndex(s, lo, j - 1) else j
  }

  /** A string `String.trim` leaves as it is: empty, or kept characters at both ends. */
  predicate IsTrimmed(s: string) {
    |s| > 0 ==> !IsTrimmable(s[0]) && !IsTrimmable(s[|s| - 1])
  }

  /** Every character of `s` is one `String.trim` removes. */
  predicate AllTrimmable(s: string) {
    forall k :: 0 <= k < |s| ==> IsTrimmable(s[k])
  }

  /** `String.trim`. */
  function Trim(s: string): (r: string)
    ensures IsTrimmed(r)
    ensures exists lo, hi :: 0 <= lo <= hi <= |s| && r == s[lo..hi]
                             && AllTrimmable(s[..lo]) && AllTrimmable(s[hi..])
  {
    var lo := TrimStartIndex(s, 0);
    var hi := TrimEndIndex(s, lo, |s|);
    assert AllTrimmable(s[..lo]) && AllTrimmable(s[hi..]);
    s[lo..hi]
  }

  /** `trim` removes exactly the blank padding: `a + m + b` trims to `m` when `a` and `b` are blank and `m` is trimmed. */
  lemma TrimOfPadded(a: string, m: string, b: string)
    requires AllTrimmable(a) && AllTrimmable(b) && IsTrimmed(m)
    ensures Trim(a + m + b) == m
  {
    var s := a + m + b;
    if m == [] {
      assert AllTrimmable(s) by {
        forall k | 0 <= k < |s| ensures IsTrimmable(s[k]) {
          if k < |a| { assert s[k] == a[k]; } else { assert s[k] == b[k - |a|]; }
        }
      }
      assert TrimStartIndex(s, 0) == |s|;
    } else {
      assert s[|a|] == m[0] && s[|a| + |m| - 1] == m[|m| - 1];
      var lo := TrimStartIndex(s, 0);
      assert lo == |a|;
      var hi := TrimEndIndex(s, lo, |s|);
      assert hi == |a| + |m|;
      assert s[lo..hi] == m;
    }
  }

  lemma AllTrimmableConcat(a: string, b: string)
    requires AllTrimmable(a) && AllTrimmable(b)
    ensures AllTrimmable(a + b)
  {
    forall k | 0 <= k < |a + b| ensures IsTrimmable((a + b)[k]) {
      if k < |a| { assert (a + b)[k] == a[k]; } else { assert (a + b)[k] == b[k - |a|]; }
    }
  }

  lemma SliceSplit(s: string, lo: nat, hi: nat)
    requires lo <= hi <= |s|
    ensures s == s[..lo] + s[lo..hi] + s[hi..]
  {
  }

  lemma Regroup(a: string, p: string, m: string, q: string, b: string)
    ensures a + (p + m + q) + b == (a + p) + m + (q + b)
  {
  }

  /** Extra blank padding around `s` does not change `trim(s)`. */
  lemma TrimIgnoresPadding(a: string, s: string, b: string)
    requires AllTrimmable(a) && AllTrimmable(b)
    ensures Trim(a + s + b) == Trim(s)
  {
    var m := Trim(s);
    var lo, hi :| 0 <= lo <= hi <= |s| && m == s[lo..hi] && AllTrimmable(s[..lo]) && AllTrimmable(s[hi..]);
    var p, q := s[..lo], s[hi..];
    AllTrimmableConcat(a, p);
    AllTrimmableConcat(q, b);
    SliceSplit(s, lo, hi);
    Regroup(a, p, m, q, b);
    TrimOfPadded(a + p, m, q + b);
  }

  /** `StringUtils.replace(s, [c], "")`: every occurrence of `c` removed. */
  function RemoveAll(s: string, c: char): (r: string)
    ensures |r| <= |s|
    ensures forall i :: 0 <= i < |r| ==> r[i] != c
  {
    if s == [] then [] else (if s[0] == c then [] else [s[0]]) + RemoveAll(s[1..], c)
  }

  // ---------------------------------------------------------------------
  // Decimal digits

  predicate IsDigit(c: char) {
    '0' <= c <= '9'
  }

  predicate AllDigits(s: string) {
    forall i :: 0 <= i < |s| ==> IsDigit(s[i])
  }

  /** The value of a string of decimal digits, read left to right. */
  function DigitsValue(s: string): nat
    requires AllDigits(s)
  {
    if s == [] then 0 else DigitsValue(s[..|s| - 1]) * 10 + (s[|s| - 1] as int - '0' as int)
  }

  /** The decimal representation of `n`, without leading zeros. */
  function NatToString(n: nat): (r: string)
    ensures |r| > 0 && AllDigits(r)
  {
    if n < 10 then [('0' as int + n) as char]
    else NatToString(n / 10) + [('0' as int + n % 10) as char]
  }

  /** `String.valueOf(int)`. */
  function IntToString(n: int): string {
    if n < 0 then "-" + NatToString(-n) else NatToString(n)
  }

  lemma {:induction false} DigitsOfNatToString(n: nat)
    ensures DigitsValue(NatToString(n)) == n
  {
    var s := NatToString(n);
    if n >= 10 {
      DigitsOfNatToString(n / 10);
      assert s[..|s| - 1] == NatToString(n / 10);
    }
  }

  const IntMin: int := -0x8000_0000
  const IntMax: int := 0x7fff_ffff

  /**
   * `Integer.parseInt(s)`: an optional sign followed by at least one
   * decimal digit, within the 32-bit range; anything else is a
   * `NumberFormatException`, modelled as `None`. No trimming.
   */
  function ParseInt(s: Option<string>): (r: Option<int>)
    ensures r.Some? ==> IntMin <= r.value <= IntMax
    ensures r.Some? ==> s.Some? && |s.value| > 0
  {
    if s.None? || |s.value| == 0 then None
    else
      var t := s.value;
      if t[0] == '-' || t[0] == '+' then
        if |t| == 1 || !AllDigits(t[1..]) then None
        else
          var v: int := if t[0] == '-' then -(DigitsValue(t[1..]) as int) else DigitsValue(t[1..]);
          if IntMin <= v <= IntMax then Some(v) else None
      else if !AllDigits(t) then None
      else if DigitsValue(t) <= IntMax then Some(DigitsValue(t))
      else None
  }

  /** Printing a 32-bit integer and parsing it back gives the integer again. */
  lemma ParseIntRoundTrip(n: int)
    requires IntMin <= n <= IntMax
    ensures ParseInt(Some(IntToString(n))) == Some(n)
  {
    if n < 0 {
      var t := IntToString(n);
      assert t[1..] == NatToString(-n);
      DigitsOfNatToString(-n);
    } else {
      DigitsOfNatToString(n);
    }
  }

  // ---------------------------------------------------------------------
  // new BigDecimal(String)

  /** `10^e` for any integer exponent. */
  function Pow10(e: int): (r: real)
    ensures r > 0.0
    decreases if e < 0 then -e else e
  {
    if e == 0 then 1.0 else if e > 0 then 10.0 * Pow10(e - 1) else Pow10(e + 1) / 10.0
  }

  /** Index of the first occurrence of `c` in `s`, or `|s|`. */
  function IndexOf(s: string, c: char): (i: nat)
    ensures i <= |s|
    ensures i < |s| ==> s[i] == c
    ensures forall j :: 0 <= j < i ==> s[j] != c
  {
    if s == [] then 0 else if s[0] == c then 0 else 1 + IndexOf(s[1..], c)
  }

  /** Index of the first exponent indicator `e` or `E`, or `|s|`. */
  function IndexOfExponent(s: string): (i: nat)
    ensures i <= |s|
    ensures i < |s| ==> s[i] == 'e' || s[i] == 'E'
  {
    if s == [] then 0 else if s[0] == 'e' || s[0] == 'E' then 0 else 1 + IndexOfExponent(s[1..])
  }

  /** `IntegerPart`, `IntegerPart . FractionPart?` or `. FractionPart`. */
  function ParseSignificand(s: string): Option<real> {
    var d := IndexOf(s, '.');
    if d == |s| then
      if |s| > 0 && AllDigits(s) then Some(DigitsValue(s) as real) else None
    else
      var whole, fraction := s[..d], s[d + 1..];
      if |whole| + |fraction| > 0 && AllDigits(whole) && AllDigits(fraction) then
        Some(DigitsValue(whole) as real + DigitsValue(fraction) as real / Pow10(|fraction|))
      else None
  }

  /** An optionally signed, non-empty run of digits. */
  function ParseSignedDigits(s: string): Option<int> {
    if |s| > 0 && (s[0] == '+' || s[0] == '-') then
      if |s| > 1 && AllDigits(s[1..]) then
        Some(if s[0] == '-' then -(DigitsValue(s[1..]) as int) else DigitsValue(s[1..]))
      else None
    else if |s| > 0 && AllDigits(s) then Some(DigitsValue(s))
    else None
  }

  /**
   * `new BigDecimal(s)`: sign, significand and optional exponent;
   * `None` stands for the `NumberFormatException`.
   */
  function ParseDecimal(s: string): Option<real> {
    var negative := |s| > 0 && s[0] == '-';
    var body := if |s| > 0 && (s[0] == '-' || s[0] == '+') then s[1..] else s;
    var e := IndexOfExponent(body);
    var significand := ParseSignificand(body[..e]);
    var exponent := if e == |body| then Some(0) else ParseSignedDigits(body[e + 1..]);
    if significand.None? || exponent.None? then None
    else
      var magnitude := significand.value * Pow10(exponent.value);
      Some(if negative then -magnitude else magnitude)
  }

  lemma {:induction false} DigitsHaveNoMarks(s: string)
    requires AllDigits(s)
    ensures IndexOf(s, '.') == |s| && IndexOfExponent(s) == |s|
  {
    if s != [] {
      DigitsHaveNoMarks(s[1..]);
    }
  }

  /** A printed natural number reads back as the same decimal. */
  lemma ParseDecimalOfNat(n: nat)
    ensures ParseDecimal(NatToString(n)) == Some(n as real)
  {
    var s := NatToString(n);
    DigitsHaveNoMarks(s);
    assert s[..|s|] == s;
    DigitsOfNatToString(n);
  }
}
