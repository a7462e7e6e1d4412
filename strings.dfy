/**
 * The .NET string operations the labelling engine relies on, stated on
 * `string` (a sequence of characters): invariant lower-casing, the
 * whitespace test behind `string.IsNullOrWhiteSpace`, ordinal
 * `string.Replace`, decimal formatting of integers and `int.TryParse` /
 * `uint.TryParse` with `NumberStyles.Integer`.
 */
module Strings {
  import opened Wrappers

  /** `char.IsWhiteSpace`: the Unicode space separators plus the control characters U+0009..U+000D and U+0085. */
  predicate IsWhiteSpaceChar(c: char)
  {
    ('\U{9}' <= c <= '\U{D}') || c == ' ' || c == '\U{85}' || c == '\U{A0}' || c == '\U{1680}'
    || ('\U{2000}' <= c <= '\U{200A}') || c == '\U{2028}' || c == '\U{2029}' || c == '\U{202F}'
    || c == '\U{205F}' || c == '\U{3000}'
  }

  /** `string.IsNullOrWhiteSpace` for a non-null string: empty or whitespace only. */
  predicate IsBlank(s: string)
  {
    forall i :: 0 <= i < |s| ==> IsWhiteSpaceChar(s[i])
  }

  /** `char.ToLowerInvariant` on the ASCII letters; every other character is kept. */
  function LowerChar(c: char): char
  {
    if 'A' <= c <= 'Z' then (c as int + 32) as char else c
  }

  /** `string.ToLowerInvariant`, character by character. */
  function ToLowerInvariant(s: string): (r: string)
    ensures |r| == |s|
    ensures forall i :: 0 <= i < |s| ==> r[i] == LowerChar(s[i])
  {
    seq(|s|, i requires 0 <= i < |s| => LowerChar(s[i]))
  }

  // ---------------------------------------------------------------------
  // Ordinal `string.Replace(pattern, replacement)`
  // ---------------------------------------------------------------------

  /** The pattern starts at position `i` of `s`. */
  predicate OccursAt(s: string, pat: string, i: nat)
  {
    i + |pat| <= |s| && s[i..i + |pat|] == pat
  }

  /** The pattern occurs somewhere in `s`. */
  ghost predicate Contains(s: string, pat: string)
  {
    exists i: nat :: OccursAt(s, pat, i)
  }

  /**
   * `s.Replace(pat, rep)`: scans left to right and replaces every
   * non-overlapping occurrence of `pat`; the scan resumes after the
   * inserted replacement, so the replacement is never rescanned.
   */
  function Replace(s: string, pat: string, rep: string): string
    requires |pat| > 0
    decreases |s|
  {
    if |s| < |pat| then s
    else if s[..|pat|] == pat then rep + Replace(s[|pat|..], pat, rep)
    else [s[0]] + Replace(s[1..], pat, rep)
  }

  /** A string in which the pattern does not occur comes back unchanged. */
  lemma {:induction false} ReplaceAbsent(s: string, pat: string, rep: string)
    requires |pat| > 0
    requires !Contains(s, pat)
    ensures Replace(s, pat, rep) == s
    decreases |s|
  {
    if |s| >= |pat| {
      assert !OccursAt(s, pat, 0);
      assert s[..|pat|] != pat;
      if Contains(s[1..], pat) {
        var i: nat :| OccursAt(s[1..], pat, i);
        assert s[1..][i..i + |pat|] == s[i + 1..i + 1 + |pat|];
        assert OccursAt(s, pat, i + 1);
        assert false;
      }
      ReplaceAbsent(s[1..], pat, rep);
      assert [s[0]] + s[1..] == s;
    }
  }

  /** A character that does not occur in `s` does not occur as a one-character pattern either. */
  lemma AbsentCharNotContained(s: string, c: char)
    requires c !in s
    ensures !Contains(s, [c])
  {
    forall i: nat | i + 1 <= |s|
      ensures !OccursAt(s, [c], i)
    {
      assert s[i..i + 1][0] == s[i];
    }
  }

  /** With a one-character pattern, `Replace` works character by character. */
  lemma ReplaceCharCons(x: char, t: string, c: char, rep: string)
    ensures Replace([x] + t, [c], rep) == (if x == c then rep else [x]) + Replace(t, [c], rep)
  {
    var s := [x] + t;
    assert s[..1] == [x];
    assert s[1..] == t;
  }

  /** With a one-character pattern, `Replace` distributes over concatenation. */
  lemma {:induction false} ReplaceCharAppend(a: string, b: string, c: char, rep: string)
    ensures Replace(a + b, [c], rep) == Replace(a, [c], rep) + Replace(b, [c], rep)
    decreases |a|
  {
    if a == [] {
      assert a + b == b;
    } else {
      var h := if a[0] == c then rep else [a[0]];
      ReplaceCharAppend(a[1..], b, c, rep);
      ReplaceCharCons(a[0], a[1..] + b, c, rep);
      ReplaceCharCons(a[0], a[1..], c, rep);
      assert [a[0]] + a[1..] == a;
      assert [a[0]] + (a[1..] + b) == a + b;
      calc {
        Replace(a + b, [c], rep);
        h + Replace(a[1..] + b, [c], rep);
        h + (Replace(a[1..], [c], rep) + Replace(b, [c], rep));
        (h + Replace(a[1..], [c], rep)) + Replace(b, [c], rep);
        Replace(a, [c], rep) + Replace(b, [c], rep);
      }
    }
  }

  /** Replacing a one-character pattern by text free of that character removes it entirely. */
  lemma {:induction false} ReplaceRemovesChar(s: string, c: char, rep: string)
    requires c !in rep
    ensures c !in Replace(s, [c], rep)
    decreases |s|
  {
    if |s| >= 1 {
      ReplaceRemovesChar(s[1..], c, rep);
      if s[..1] != [c] {
        assert s[0] != c;
      }
    }
  }

  /** A character absent from both the input and the replacement stays absent. */
  lemma {:induction false} ReplaceKeepsAbsent(s: string, pat: string, rep: string, c: char)
    requires |pat| > 0
    requires c !in s && c !in rep
    ensures c !in Replace(s, pat, rep)
    decreases |s|
  {
    if |s| >= |pat| {
      if s[..|pat|] == pat {
        ReplaceKeepsAbsent(s[|pat|..], pat, rep, c);
      } else {
        ReplaceKeepsAbsent(s[1..], pat, rep, c);
      }
    }
  }

  // ---------------------------------------------------------------------
  // Decimal text of integers (`"" + n`, string interpolation of an int)
  // ---------------------------------------------------------------------

  function DigitChar(d: nat): char
    requires d < 10
  {
    ('0' as int + d) as char
  }

  predicate IsDigit(c: char)
  {
    '0' <= c <= '9'
  }

  function DigitValue(c: char): nat
    requires IsDigit(c)
  {
    c as int - '0' as int
  }

  /** Decimal digits of a natural number, without leading zeros. */
  function NatToString(n: nat): (r: string)
    ensures |r| > 0
    ensures forall i :: 0 <= i < |r| ==> IsDigit(r[i])
  {
    if n < 10 then [DigitChar(n)] else NatToString(n / 10) + [DigitChar(n % 10)]
  }

  /** Decimal text of an integer, with a leading '-' when negative. */
  function IntToString(n: int): string
  {
    if n < 0 then "-" + NatToString(-n) else NatToString(n)
  }

  // ---------------------------------------------------------------------
  // `int.TryParse` / `uint.TryParse` with `NumberStyles.Integer`
  // ---------------------------------------------------------------------

  /** The white space `NumberStyles.AllowLeadingWhite/AllowTrailingWhite` accept. */
  predicate IsNumberWhite(c: char)
  {
    ('\U{9}' <= c <= '\U{D}') || c == ' '
  }

  /** Value of a run of decimal digits, most significant first. */
  function DigitsValue(d: string): nat
    requires forall i :: 0 <= i < |d| ==> IsDigit(d[i])
  {
    if d == [] then 0 else DigitsValue(d[..|d| - 1]) * 10 + DigitValue(d[|d| - 1])
  }

  /** Number of leading characters of `s` that satisfy the number-white test. */
  function LeadingWhite(s: string): (n: nat)
    ensures n <= |s|
    ensures forall i :: 0 <= i < n ==> IsNumberWhite(s[i])
    ensures n < |s| ==> !IsNumberWhite(s[n])
  {
    if s != [] && IsNumberWhite(s[0]) then 1 + LeadingWhite(s[1..]) else 0
  }

  /** Number of leading decimal digits of `s`. */
  function LeadingDigits(s: string): (n: nat)
    ensures n <= |s|
    ensures forall i :: 0 <= i < n ==> IsDigit(s[i])
    ensures n < |s| ==> !IsDigit(s[n])
  {
    if s != [] && IsDigit(s[0]) then 1 + LeadingDigits(s[1..]) else 0
  }

  /** A recognised integer: its sign and its digits. */
  datatype Numeral = Numeral(negative: bool, digits: string)

  /**
   * The shape `NumberStyles.Integer` accepts: optional white space, an
   * optional '+' or '-', at least one digit, optional white space, and
   * nothing else.
   */
  function ScanInteger(s: string): (r: Option<Numeral>)
    ensures r.Some? ==> |r.value.digits| > 0
    ensures r.Some? ==> forall i :: 0 <= i < |r.value.digits| ==> IsDigit(r.value.digits[i])
  {
    var t := s[LeadingWhite(s)..];
    var negative := t != [] && t[0] == '-';
    var u := if t != [] && (t[0] == '-' || t[0] == '+') then t[1..] else t;
    var k := LeadingDigits(u);
    var rest := u[k..];
    if k > 0 && LeadingWhite(rest) == |rest| then Some(Numeral(negative, u[..k])) else None
  }

  const Int32Min: int := -0x8000_0000
  const Int32Max: int := 0x7FFF_FFFF
  const UInt32Max: int := 0xFFFF_FFFF

  /** `int.TryParse(s, NumberStyles.Integer, null, out v)`: the value when it fits in 32 bits. */
  function ParseInt32(s: string): (r: Option<int>)
    ensures r.Some? ==> Int32Min <= r.value <= Int32Max
  {
    match ScanInteger(s)
    case None => None
    case Some(Numeral(negative, digits)) =>
      var v: int := if negative then 0 - DigitsValue(digits) as int else DigitsValue(digits);
      if Int32Min <= v <= Int32Max then Some(v) else None
  }

  /** `uint.TryParse(s, NumberStyles.Integer, null, out v)`: a '-' sign is accepted only on a zero value. */
  function ParseUInt32(s: string): (r: Option<nat>)
    ensures r.Some? ==> r.value <= UInt32Max
  {
    match ScanInteger(s)
    case None => None
    case Some(Numeral(negative, digits)) =>
      var v := DigitsValue(digits);
      if v <= UInt32Max && (!negative || v == 0) then Some(v) else None
  }

  lemma {:induction false} DigitsOfNat(n: nat)
    ensures DigitsValue(NatToString(n)) == n
  {
    if n >= 10 {
      var d := NatToString(n);
      assert d[..|d| - 1] == NatToString(n / 10);
      DigitsOfNat(n / 10);
    }
  }

  lemma ScanDigits(negative: bool, d: string)
    requires |d| > 0 && forall i :: 0 <= i < |d| ==> IsDigit(d[i])
    ensures ScanInteger((if negative then "-" else "") + d) == Some(Numeral(negative, d))
  {
    var s := (if negative then "-" else "") + d;
    assert !IsNumberWhite(s[0]);
    assert s[LeadingWhite(s)..] == s;
    assert (s[0] == '-') == negative;
    var u := if s[0] == '-' || s[0] == '+' then s[1..] else s;
    assert u == d;
    LeadingDigitsAll(d);
    assert u[|d|..] == [];
    assert u[..|d|] == d;
  }

  lemma {:induction false} LeadingDigitsAll(d: string)
    requires forall i :: 0 <= i < |d| ==> IsDigit(d[i])
    ensures LeadingDigits(d) == |d|
  {
    if d != [] {
      LeadingDigitsAll(d[1..]);
    }
  }

  /** Parsing a scanned numeral of a value in range gives that value. */
  lemma ParseScanned(s: string, negative: bool, d: string, n: int)
    requires |d| > 0 && forall i :: 0 <= i < |d| ==> IsDigit(d[i])
    requires ScanInteger(s) == Some(Numeral(negative, d))
    requires Int32Min <= n <= Int32Max
    requires n == if negative then 0 - DigitsValue(d) as int else DigitsValue(d) as int
    ensures ParseInt32(s) == Some(n)
  {
  }

  /** The decimal text written for a 32-bit integer parses back to that integer. */
  lemma IntRoundTrip(n: int)
    requires Int32Min <= n <= Int32Max
    ensures ParseInt32(IntToString(n)) == Some(n)
  {
    var negative := n < 0;
    var m: nat := if negative then -n else n;
    var d := NatToString(m);
    assert IntToString(n) == (if negative then "-" else "") + d;
    ScanDigits(negative, d);
    DigitsOfNat(m);
    ParseScanned(IntToString(n), negative, d, n);
  }

  /** The decimal text written for an unsigned 32-bit value parses back to that value. */
  lemma UIntRoundTrip(n: nat)
    requires n <= UInt32Max
    ensures ParseUInt32(NatToString(n)) == Some(n)
  {
    ScanDigits(false, NatToString(n));
    assert "" + NatToString(n) == NatToString(n);
    DigitsOfNat(n);
  }

  /** Lower-casing leaves text made of digits and '-' unchanged. */
  lemma LowerKeepsDigits(s: string)
    requires forall i :: 0 <= i < |s| ==> IsDigit(s[i]) || s[i] == '-'
    ensures ToLowerInvariant(s) == s
  {
  }

  lemma LowerIntToString(n: int)
    ensures ToLowerInvariant(IntToString(n)) == IntToString(n)
  {
    LowerKeepsDigits(IntToString(n));
  }
}
