/** JavaScript's global `parseInt(string)` without a radix argument, as the
    resolvers apply it to GraphQL `ID` arguments: leading whitespace is skipped,
    one optional sign is read, a `0x`/`0X` prefix switches to base 16, and the
    longest run of digits that follows is converted. No digit at all gives NaN. */
module JsParseInt {
  import opened Wrappers
  import opened Text

  datatype Number = NaN | Int(value: int)

  predicate IsDecimalDigit(c: char) {
    '0' <= c <= '9'
  }

  /** Value of `c` as a digit, or -1 if it is not one (any base up to 16). */
  function DigitValue(c: char): int {
    if '0' <= c <= '9' then c as int - '0' as int
    else if 'a' <= c <= 'f' then c as int - 'a' as int + 10
    else if 'A' <= c <= 'F' then c as int - 'A' as int + 10
    else -1
  }

  predicate IsDigit(c: char, radix: int) {
    0 <= DigitValue(c) < radix
  }

  /** The longest prefix of `s` made of digits of `radix`. */
  function DigitPrefix(s: string, radix: int): (r: string)
    ensures |r| <= |s| && r == s[..|r|]
    ensures forall i | 0 <= i < |r| :: IsDigit(r[i], radix)
    ensures |r| < |s| ==> !IsDigit(s[|r|], radix)
  {
    if s != [] && IsDigit(s[0], radix) then [s[0]] + DigitPrefix(s[1..], radix) else []
  }

  /** Value of a run of digits, most significant first. */
  function DigitsValue(ds: string, radix: int): int {
    if ds == [] then 0 else DigitsValue(ds[..|ds| - 1], radix) * radix + DigitValue(ds[|ds| - 1])
  }

  /** The magnitude read after the sign: an optional `0x`/`0X` prefix selects
      base 16, then the longest run of digits is converted; no digit, no value. */
  function Magnitude(u: string): Option<int> {
    var hex := |u| >= 2 && u[0] == '0' && (u[1] == 'x' || u[1] == 'X');
    var radix := if hex then 16 else 10;
    var digits := DigitPrefix(if hex then u[2..] else u, radix);
    if digits == [] then None else Some(DigitsValue(digits, radix))
  }

  function ParseInt(s: string): Number {
    var t := TrimStart(s);
    var negative := t != [] && t[0] == '-';
    var u := if t != [] && (t[0] == '-' || t[0] == '+') then t[1..] else t;
    match Magnitude(u)
    case None => NaN
    case Some(v) => Int(if negative then -v else v)
  }

  /** Decimal spelling of a natural number, as `String(n)` writes it. */
  function Decimal(n: nat): (r: string)
    ensures r != [] && forall i | 0 <= i < |r| :: IsDecimalDigit(r[i])
  {
    if n < 10 then ['0' + n as char] else Decimal(n / 10) + ['0' + (n % 10) as char]
  }

  lemma {:induction false} DecimalValue(n: nat)
    ensures DigitsValue(Decimal(n), 10) == n
  {
    if n >= 10 {
      var d := Decimal(n);
      assert d[..|d| - 1] == Decimal(n / 10);
      DecimalValue(n / 10);
    }
  }

  lemma {:induction false} DecimalLeadingZero(n: nat)
    ensures Decimal(n)[0] == '0' ==> n == 0
  {
    if n >= 10 {
      DecimalLeadingZero(n / 10);
    }
  }

  lemma {:induction false} DigitPrefixOfDigits(ds: string, rest: string, radix: int)
    requires forall i | 0 <= i < |ds| :: IsDigit(ds[i], radix)
    requires rest == [] || !IsDigit(rest[0], radix)
    ensures DigitPrefix(ds + rest, radix) == ds
  {
    if ds != [] {
      assert (ds + rest)[1..] == ds[1..] + rest;
      DigitPrefixOfDigits(ds[1..], rest, radix);
    }
  }

  lemma StartsWithoutSpace(m: string)
    requires m != [] && (IsDecimalDigit(m[0]) || m[0] == '-')
    ensures TrimStart(m) == m
  {
    assert !IsSpace(m[0]);
  }

  lemma MagnitudeOfDecimal(n: nat, rest: string)
    requires rest == [] || !IsDecimalDigit(rest[0])
    requires n > 0 || rest == [] || (rest[0] != 'x' && rest[0] != 'X')
    ensures Magnitude(Decimal(n) + rest) == Some(n)
  {
    var d := Decimal(n);
    DecimalValue(n);
    DecimalLeadingZero(n);
    assert forall i | 0 <= i < |d| :: IsDigit(d[i], 10);
    DigitPrefixOfDigits(d, rest, 10);
  }

  /** `parseInt` reads back the decimal spelling of a number, ignoring whatever
      non-digit text follows it (`parseInt("12abc") == 12`), except that "0"
      followed by "x" or "X" is read as a hexadecimal prefix. */
  lemma DecimalRoundTrip(n: nat, rest: string)
    requires rest == [] || !IsDecimalDigit(rest[0])
    requires n > 0 || rest == [] || (rest[0] != 'x' && rest[0] != 'X')
    ensures ParseInt(Decimal(n) + rest) == Int(n)
  {
    var m := Decimal(n) + rest;
    MagnitudeOfDecimal(n, rest);
    assert IsDecimalDigit(m[0]);
    StartsWithoutSpace(m);
  }

  /** With a leading minus sign the same number comes back negated. */
  lemma NegativeDecimalRoundTrip(n: nat, rest: string)
    requires rest == [] || !IsDecimalDigit(rest[0])
    requires n > 0 || rest == [] || (rest[0] != 'x' && rest[0] != 'X')
    ensures ParseInt("-" + Decimal(n) + rest) == Int(-(n as int))
  {
    MagnitudeOfDecimal(n, rest);
    assert "-" + Decimal(n) + rest == "-" + (Decimal(n) + rest);
    ParseNegative(Decimal(n) + rest, n);
  }

  /** A minus sign followed by a magnitude `v` parses to `-v`. */
  lemma ParseNegative(u: string, v: int)
    requires Magnitude(u) == Some(v)
    ensures ParseInt("-" + u) == Int(-v)
  {
    var m := "-" + u;
    assert m[1..] == u;
    ParseNegativeAt(m, v);
  }

  lemma ParseNegativeAt(m: string, v: int)
    requires m != [] && m[0] == '-' && Magnitude(m[1..]) == Some(v)
    ensures ParseInt(m) == Int(-v)
  {
    StartsWithoutSpace(m);
  }

  /** Text without a single decimal digit is not a number. */
  lemma NoDigitIsNaN(s: string)
    requires forall i | 0 <= i < |s| :: !IsDecimalDigit(s[i])
    ensures ParseInt(s) == NaN
  {
    var t := TrimStart(s);
    var u := if t != [] && (t[0] == '-' || t[0] == '+') then t[1..] else t;
    forall i | 0 <= i < |u| ensures !IsDecimalDigit(u[i]) {
      assert u[i] == s[|s| - |u| + i];
    }
    MagnitudeOfNoDigit(u);
  }

  /** After the sign, text without a decimal digit has no magnitude: it
      cannot start with the `0x` prefix, and its digit prefix is empty. */
  lemma MagnitudeOfNoDigit(u: string)
    requires forall i | 0 <= i < |u| :: !IsDecimalDigit(u[i])
    ensures Magnitude(u) == None
  {
    if u != [] {
      assert !IsDigit(u[0], 10);
    }
  }
}
