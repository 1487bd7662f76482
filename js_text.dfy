/**
  The two JavaScript string built-ins the core relies on: `parseInt(s)`
  without a radix (the controller's id, severity, limit and offset
  arguments) and `String.prototype.toLowerCase` (the HubSpot priority).
  `NaN` is `None`.
*/
module JsText {
  import opened Wrappers

  // ---------------------------------------------------------------------------
  // toLowerCase
  // ---------------------------------------------------------------------------

  function LowerChar(c: char): (d: char)
    ensures 'A' <= c <= 'Z' ==> 'a' <= d <= 'z'
    ensures !('A' <= c <= 'Z') ==> d == c
  {
    if 'A' <= c <= 'Z' then (c as int - 'A' as int + 'a' as int) as char else c
  }

  /** `s.toLowerCase()` on the ASCII letters. */
  function ToLower(s: string): (r: string)
    ensures |r| == |s|
    ensures forall i :: 0 <= i < |s| ==> r[i] == LowerChar(s[i])
  {
    seq(|s|, i requires 0 <= i < |s| => LowerChar(s[i]))
  }

  /** Lower-casing twice is lower-casing once. */
  lemma ToLowerIdempotent(s: string)
    ensures ToLower(ToLower(s)) == ToLower(s)
  {
  }

  /** Strings that differ only in the case of their letters lower-case alike. */
  lemma ToLowerIgnoresCase(s: string, i: nat)
    requires i < |s| && 'a' <= s[i] <= 'z'
    ensures ToLower(s[i := (s[i] as int - 'a' as int + 'A' as int) as char]) == ToLower(s)
  {
    var u := s[i := (s[i] as int - 'a' as int + 'A' as int) as char];
    forall j | 0 <= j < |s| ensures ToLower(u)[j] == ToLower(s)[j] {
      if j == i {
        assert LowerChar(u[j]) == s[i];
      }
    }
  }

  // ---------------------------------------------------------------------------
  // parseInt
  // ---------------------------------------------------------------------------

  /** The white space `parseInt` skips before the number (the Unicode space separators are not modelled). */
  predicate IsSpace(c: char) {
    || c == ' ' || c == '\t' || c == '\n' || c == '\r' || c == '\U{000B}' || c == '\U{000C}'
    || c == '\U{00A0}' || c == '\U{FEFF}' || c == '\U{2028}' || c == '\U{2029}'
  }

  function TrimStart(s: string): (r: string)
    ensures |r| <= |s| && r == s[|s| - |r|..]
    ensures r == [] || !IsSpace(r[0])
    ensures forall i :: 0 <= i < |s| - |r| ==> IsSpace(s[i])
  {
    if s != [] && IsSpace(s[0]) then TrimStart(s[1..]) else s
  }

  /** The value of a digit in radix 10 or 16 (letters of either case), if it is one. */
  function DigitValue(c: char, radix: nat): (v: Option<nat>)
    ensures v.Some? ==> v.value < radix
  {
    if '0' <= c <= '9' && (c as int - '0' as int) < radix then Some(c as int - '0' as int)
    else if radix == 16 && 'a' <= c <= 'f' then Some(c as int - 'a' as int + 10)
    else if radix == 16 && 'A' <= c <= 'F' then Some(c as int - 'A' as int + 10)
    else None
  }

  predicate AllDigits(s: string, radix: nat) {
    forall i :: 0 <= i < |s| ==> DigitValue(s[i], radix).Some?
  }

  /** The length of the longest prefix of digits: `parseInt` ignores everything after it. */
  function DigitRun(s: string, radix: nat): (n: nat)
    ensures n <= |s|
    ensures AllDigits(s[..n], radix)
    ensures n < |s| ==> DigitValue(s[n], radix).None?
  {
    if s == [] || DigitValue(s[0], radix).None? then 0
    else
      var n := 1 + DigitRun(s[1..], radix);
      assert forall i :: 1 <= i < n ==> s[..n][i] == s[1..][..n - 1][i - 1];
      n
  }

  /** The number a string of digits denotes, most significant first. */
  function DigitsValue(s: string, radix: nat): nat
    requires AllDigits(s, radix)
    decreases |s|
  {
    if s == [] then 0
    else
      var init := s[..|s| - 1];
      assert AllDigits(init, radix) by {
        forall i | 0 <= i < |init| ensures DigitValue(init[i], radix).Some? {
          assert init[i] == s[i];
        }
      }
      DigitsValue(init, radix) * radix + DigitValue(s[|s| - 1], radix).value
  }

  /** Strips a leading sign: whether it was a minus, and the rest. */
  function SplitSign(s: string): (res: (bool, string)) {
    if s != [] && s[0] == '-' then (true, s[1..])
    else if s != [] && s[0] == '+' then (false, s[1..])
    else (false, s)
  }

  /** Strips a leading `0x`/`0X`: the radix and the rest. */
  function SplitRadix(s: string): (res: (nat, string)) {
    if |s| >= 2 && s[0] == '0' && (s[1] == 'x' || s[1] == 'X') then (16, s[2..]) else (10, s)
  }

  /**
    `parseInt(s)`: leading white space, an optional sign, an optional `0x`,
    then the longest run of digits; `NaN` when that run is empty.
  */
  function ParseInt(s: string): (r: Option<int>)
    ensures r.None? <==>
      var unsigned := SplitRadix(SplitSign(TrimStart(s)).1);
      DigitRun(unsigned.1, unsigned.0) == 0
  {
    var signed := SplitSign(TrimStart(s));
    var unsigned := SplitRadix(signed.1);
    var (radix, digits) := (unsigned.0, unsigned.1);
    var n := DigitRun(digits, radix);
    if n == 0 then None
    else
      var v: int := DigitsValue(digits[..n], radix);
      Some(if signed.0 then -v else v)
  }

  // ---------------------------------------------------------------------------
  // Decimal rendering, the inverse of parseInt
  // ---------------------------------------------------------------------------

  function DigitChar(d: nat): (c: char)
    requires d < 10
    ensures DigitValue(c, 10) == Some(d)
  {
    ('0' as int + d) as char
  }

  /** The decimal numeral of `n`, without leading zeros. */
  function NatToDecimal(n: nat): (s: string)
    ensures |s| > 0 && AllDigits(s, 10)
    ensures s[0] == '0' ==> n == 0 && s == "0"
  {
    if n < 10 then [DigitChar(n)]
    else
      var init := NatToDecimal(n / 10);
      var s := init + [DigitChar(n % 10)];
      assert forall i :: 0 <= i < |init| ==> s[i] == init[i];
      s
  }

  function IntToDecimal(i: int): string {
    if i < 0 then "-" + NatToDecimal(-i) else NatToDecimal(i)
  }

  lemma {:induction false} DecimalValue(n: nat)
    ensures DigitsValue(NatToDecimal(n), 10) == n
  {
    if n >= 10 {
      DecimalValue(n / 10);
      var s := NatToDecimal(n);
      assert s[..|s| - 1] == NatToDecimal(n / 10);
    }
  }

  lemma DigitRunOfDigits(s: string, radix: nat)
    requires AllDigits(s, radix)
    ensures DigitRun(s, radix) == |s|
  {
  }

  /** `parseInt` reads back every integer the decimal rendering writes. */
  lemma ParseIntRoundTrip(i: int)
    ensures ParseInt(IntToDecimal(i)) == Some(i)
  {
    if i < 0 {
      assert IntToDecimal(i) == "-" + NatToDecimal(-i);
      ParseNegativeDecimal(-i);
    } else {
      assert IntToDecimal(i) == NatToDecimal(i);
      ParseDecimal(i);
    }
  }

  /** The rendering of a natural number reads back as that number. */
  lemma ParseDecimal(n: nat)
    ensures ParseInt(NatToDecimal(n)) == Some(n)
  {
    assert NatToDecimal(n) + [] == NatToDecimal(n);
    ParseIntIgnoresTrailing(n, []);
  }

  /** The rendering of a negative number reads back as that number. */
  lemma ParseNegativeDecimal(n: nat)
    requires n > 0
    ensures ParseInt("-" + NatToDecimal(n)) == Some(-(n as int))
  {
    var d := NatToDecimal(n);
    DecimalValue(n);
    NegativeStart(d);
    DigitRunOfDigits(d, 10);
    assert d[..|d|] == d;
    ParseSettled("-" + d, true, d, d, n);
  }

  /** A digit string followed by a non-digit has no white space, sign or radix prefix to strip. */
  lemma DecimalStart(d: string, rest: string)
    requires |d| > 0 && AllDigits(d, 10)
    requires rest == [] || DigitValue(rest[0], 10).None?
    requires d[0] == '0' && rest != [] ==> |d| > 1 || (rest[0] != 'x' && rest[0] != 'X')
    ensures var s := d + rest; TrimStart(s) == s && SplitSign(s) == (false, s) && SplitRadix(s) == (10, s)
  {
    var s := d + rest;
    assert s[0] == d[0] && DigitValue(d[0], 10).Some?;
    assert !IsSpace(s[0]);
    if |s| >= 2 && s[0] == '0' {
      assert |d| > 1 ==> s[1] == d[1] && DigitValue(d[1], 10).Some?;
      assert |d| == 1 ==> s[1] == rest[0];
    }
  }

  /** A minus sign and a digit string without a radix prefix: only the sign is stripped. */
  lemma NegativeStart(d: string)
    requires |d| > 0 && AllDigits(d, 10)
    requires d[0] == '0' ==> |d| == 1
    ensures var s := "-" + d; TrimStart(s) == s && SplitSign(s) == (true, d) && SplitRadix(d) == (10, d)
  {
    var s := "-" + d;
    assert s[0] == '-' && s[1..] == d;
    assert |d| >= 2 ==> DigitValue(d[1], 10).Some?;
  }

  /** Digits followed by anything that is not a digit parse as the digits' value. */
  lemma ParseDigitsThen(d: string, rest: string)
    requires |d| > 0 && AllDigits(d, 10)
    requires rest == [] || DigitValue(rest[0], 10).None?
    requires d[0] == '0' && rest != [] ==> |d| > 1 || (rest[0] != 'x' && rest[0] != 'X')
    ensures ParseInt(d + rest) == Some(DigitsValue(d, 10))
  {
    DecimalStart(d, rest);
    DigitRunPrefix(d, rest, 10);
    assert (d + rest)[..|d|] == d;
    ParseSettled(d + rest, false, d + rest, d, DigitsValue(d, 10));
  }

  /** Once the white space, sign and radix prefix are settled, the value is that of the decimal digit run. */
  lemma ParseSettled(s: string, negative: bool, unsigned: string, d: string, v: int)
    requires TrimStart(s) == s && SplitSign(s) == (negative, unsigned) && SplitRadix(unsigned) == (10, unsigned)
    requires |d| > 0 && AllDigits(d, 10) && DigitRun(unsigned, 10) == |d| && unsigned[..|d|] == d
    requires DigitsValue(d, 10) == v
    ensures ParseInt(s) == Some(if negative then -v else v)
  {
  }

  /**
    `parseInt` stops at the first character that is not a digit: `"42abc"` is
    42 (but `"0x1"` is read as hexadecimal, so an `x` may not follow a lone 0).
  */
  lemma ParseIntIgnoresTrailing(n: nat, rest: string)
    requires rest == [] || DigitValue(rest[0], 10).None?
    requires n == 0 && rest != [] ==> rest[0] != 'x' && rest[0] != 'X'
    ensures ParseInt(NatToDecimal(n) + rest) == Some(n)
  {
    DecimalValue(n);
    ParseDigitsThen(NatToDecimal(n), rest);
  }

  lemma {:induction false} DigitRunPrefix(d: string, rest: string, radix: nat)
    requires AllDigits(d, radix)
    requires rest == [] || DigitValue(rest[0], radix).None?
    ensures DigitRun(d + rest, radix) == |d|
    decreases |d|
  {
    if d != [] {
      assert (d + rest)[1..] == d[1..] + rest;
      DigitRunPrefix(d[1..], rest, radix);
    } else {
      assert d + rest == rest;
    }
  }

  /** A string with no digit after the white space and sign is `NaN`: `parseInt("abc")`, `parseInt("")`. */
  lemma ParseIntNaN(s: string)
    requires TrimStart(s) == [] || (DigitValue(TrimStart(s)[0], 10).None? && TrimStart(s)[0] != '-' && TrimStart(s)[0] != '+')
    ensures ParseInt(s).None?
  {
  }
}
