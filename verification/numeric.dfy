/**
 Numeric text conversion as the C library performs it: `strtoul` (through
 `std::stoul`) for shred ids and `atoi` for command-line values. A target
 with 64-bit `unsigned long` is assumed.
 */
module Numeric {
  import opened Wrappers

  /** `ULONG_MAX` of a 64-bit `unsigned long`. */
  const ULongMax: nat := 0xFFFF_FFFF_FFFF_FFFF

  type ULong = n: nat | n <= ULongMax

  /** The two radixes the host asks for. */
  datatype Base = Decimal | Hex

  function Radix(b: Base): nat {
    match b
    case Decimal => 10
    case Hex => 16
  }

  /** `isspace` in the "C" locale. */
  predicate IsSpace(c: char) {
    c == ' ' || c == '\t' || c == '\n' || c == '\U{B}' || c == '\U{C}' || c == '\r'
  }

  /** The value of a digit or letter in a radix up to 16, either letter case. */
  function DigitValue(c: char): Option<nat> {
    if '0' <= c <= '9' then Some(c as nat - '0' as nat)
    else if 'a' <= c <= 'f' then Some(c as nat - 'a' as nat + 10)
    else if 'A' <= c <= 'F' then Some(c as nat - 'A' as nat + 10)
    else None
  }

  predicate IsDigit(c: char, b: Base) {
    DigitValue(c).Some? && DigitValue(c).value < Radix(b)
  }

  predicate AllDigits(ds: string, b: Base) {
    forall i :: 0 <= i < |ds| ==> IsDigit(ds[i], b)
  }

  /** The lower-case character for digit `d`. */
  function DigitChar(d: nat): (c: char)
    requires d < 16
    ensures DigitValue(c) == Some(d)
  {
    if d < 10 then ('0' as int + d) as char else ('a' as int + d - 10) as char
  }

  /** The number a string of digits denotes, most significant digit first. */
  function Value(ds: string, b: Base): nat
    requires AllDigits(ds, b)
  {
    if |ds| == 0 then 0
    else Value(ds[..|ds| - 1], b) * Radix(b) + DigitValue(ds[|ds| - 1]).value
  }

  /** The shortest digit string for `n`, lower-case letters for radix 16. */
  function ToDigits(n: nat, b: Base): (ds: string)
    ensures |ds| >= 1 && AllDigits(ds, b)
  {
    if n < Radix(b) then [DigitChar(n)]
    else ToDigits(n / Radix(b), b) + [DigitChar(n % Radix(b))]
  }

  /** The length of the longest prefix of `s` made of digits. */
  function DigitSpan(s: string, b: Base): (n: nat)
    ensures n <= |s| && AllDigits(s[..n], b)
    ensures n < |s| ==> !IsDigit(s[n], b)
  {
    if |s| == 0 || !IsDigit(s[0], b) then 0
    else
      var n := 1 + DigitSpan(s[1..], b);
      assert s[..n] == [s[0]] + s[1..][..n - 1];
      n
  }

  /** The length of the longest prefix of `s` made of white space. */
  function SpaceSpan(s: string): (n: nat)
    ensures n <= |s| && (forall i :: 0 <= i < n ==> IsSpace(s[i]))
    ensures n < |s| ==> !IsSpace(s[n])
  {
    if |s| == 0 || !IsSpace(s[0]) then 0 else 1 + SpaceSpan(s[1..])
  }

  /** Why `std::stoul` throws: no digits at all, or a value above `ULONG_MAX`. */
  datatype ConversionError = NoDigits | OutOfRange

  /** The text after an optional `+` or `-`, and whether that sign was `-`. */
  function SplitSign(t: string): (bool, string) {
    if |t| > 0 && (t[0] == '-' || t[0] == '+') then (t[0] == '-', t[1..]) else (false, t)
  }

  /**
   The text where the digits start: in radix 16 an `0x` or `0X` is skipped,
   but only when a hex digit follows it (otherwise the `0` is the number).
   */
  function SkipHexPrefix(u: string, b: Base): string {
    if b == Hex && |u| >= 3 && u[0] == '0' && (u[1] == 'x' || u[1] == 'X') && IsDigit(u[2], Hex)
    then u[2..] else u
  }

  /**
   Where `strtoul` looks for digits: after white space, an optional sign
   and, in radix 16, an optional `0x`. Also says whether the sign was `-`.
   */
  function Subject(s: string, b: Base): (bool, string) {
    var (negative, u) := SplitSign(s[SpaceSpan(s)..]);
    (negative, SkipHexPrefix(u, b))
  }

  /** The conversion of the digits at the start of `body`. */
  function Convert(negative: bool, body: string, b: Base): (r: Result<ULong, ConversionError>)
    ensures r.Success? ==> |body| > 0 && IsDigit(body[0], b)
  {
    var n := DigitSpan(body, b);
    if n == 0 then Failure(NoDigits)
    else
      var v := Value(body[..n], b);
      if v > ULongMax then Failure(OutOfRange)
      else Success(if negative then (ULongMax + 1 - v) % (ULongMax + 1) else v)
  }

  /**
   `std::stoul(s, nullptr, base)`, that is `strtoul`: skip white space, take
   an optional sign and, in radix 16, an optional `0x`; convert the longest
   run of digits; fail when there is none or when the value exceeds
   `ULONG_MAX`; a `-` negates the value modulo 2^64.
   */
  function StrToUL(s: string, b: Base): (r: Result<ULong, ConversionError>)
    ensures r.Success? ==> exists i :: 0 <= i < |s| && IsDigit(s[i], b)
  {
    var (negative, body) := Subject(s, b);
    var r := Convert(negative, body, b);
    assert r.Success? ==> body[0] in s;
    r
  }

  /**
   `atoi(s)`: white space, an optional sign and the longest run of decimal
   digits; 0 when there are no digits.
   */
  function Atoi(s: string): (r: int)
    ensures r != 0 ==> exists i :: 0 <= i < |s| && IsDigit(s[i], Decimal)
  {
    var (negative, u) := SplitSign(s[SpaceSpan(s)..]);
    var v: int := Value(u[..DigitSpan(u, Decimal)], Decimal);
    assert v != 0 ==> u[0] in s;
    if negative then -v else v
  }

  lemma {:induction false} ValueOfToDigits(n: nat, b: Base)
    ensures Value(ToDigits(n, b), b) == n
  {
    var ds := ToDigits(n, b);
    if n >= Radix(b) {
      assert ds[..|ds| - 1] == ToDigits(n / Radix(b), b);
      ValueOfToDigits(n / Radix(b), b);
    }
  }

  /** Digits followed by a non-digit: the run of digits is exactly them. */
  lemma {:induction false} DigitSpanOfDigits(ds: string, rest: string, b: Base)
    requires AllDigits(ds, b)
    requires |rest| == 0 || !IsDigit(rest[0], b)
    ensures DigitSpan(ds + rest, b) == |ds|
  {
    if |ds| > 0 {
      assert (ds + rest)[1..] == ds[1..] + rest;
      DigitSpanOfDigits(ds[1..], rest, b);
    }
  }

  lemma DigitIsNotSpaceOrSign(c: char, b: Base)
    requires IsDigit(c, b)
    ensures !IsSpace(c) && c != '-' && c != '+' && c != 'x' && c != 'X'
  {
  }

  /** Digits and what follows them: the digits and their value. */
  lemma DigitsThenRest(n: nat, rest: string, b: Base)
    requires |rest| == 0 || !IsDigit(rest[0], b)
    ensures var s := ToDigits(n, b) + rest;
      DigitSpan(s, b) == |ToDigits(n, b)| && s[..|ToDigits(n, b)|] == ToDigits(n, b)
      && Value(s[..DigitSpan(s, b)], b) == n
  {
    DigitSpanOfDigits(ToDigits(n, b), rest, b);
    ValueOfToDigits(n, b);
    assert (ToDigits(n, b) + rest)[..|ToDigits(n, b)|] == ToDigits(n, b);
  }

  /** The conversion of a digit string followed by a non-digit. */
  lemma ConvertOfDigits(negative: bool, n: nat, rest: string, b: Base)
    requires |rest| == 0 || !IsDigit(rest[0], b)
    ensures Convert(negative, ToDigits(n, b) + rest, b)
      == if n > ULongMax then Failure(OutOfRange)
         else if negative then Success((ULongMax + 1 - n) % (ULongMax + 1))
         else Success(n)
  {
    DigitsThenRest(n, rest, b);
  }

  /**
   `rest` cannot continue a numeral: it is empty, or starts with neither a
   digit nor the `x` that would turn a leading `0` into a radix-16 prefix.
   */
  predicate EndsNumeral(rest: string, b: Base) {
    |rest| == 0 || (!IsDigit(rest[0], b) && rest[0] != 'x' && rest[0] != 'X')
  }

  /** A digit string starts where `strtoul` looks for digits. */
  lemma SubjectOfDigits(n: nat, rest: string, b: Base)
    requires EndsNumeral(rest, b)
    ensures Subject(ToDigits(n, b) + rest, b) == (false, ToDigits(n, b) + rest)
  {
    var s := ToDigits(n, b) + rest;
    DigitIsNotSpaceOrSign(s[0], b);
    assert SpaceSpan(s) == 0;
    assert s[0..] == s;
    assert SplitSign(s) == (false, s);
    if |s| >= 2 {
      var d := ToDigits(n, b);
      if |d| >= 2 {
        DigitIsNotSpaceOrSign(d[1], b);
        assert s[1] == d[1];
      } else {
        assert s[1] == rest[0];
      }
    }
  }

  /**
   Any run of digits, leading zeros included, followed by something that
   cannot extend it, converts to the value the whole run denotes.
   */
  lemma StrToULOfDigitRun(ds: string, rest: string, b: Base)
    requires |ds| > 0 && AllDigits(ds, b) && EndsNumeral(rest, b)
    ensures StrToUL(ds + rest, b)
      == if Value(ds, b) <= ULongMax then Success(Value(ds, b)) else Failure(OutOfRange)
  {
    var s := ds + rest;
    DigitIsNotSpaceOrSign(s[0], b);
    assert SpaceSpan(s) == 0;
    assert s[0..] == s;
    assert SplitSign(s) == (false, s);
    if |s| >= 2 {
      if |ds| >= 2 {
        DigitIsNotSpaceOrSign(ds[1], b);
        assert s[1] == ds[1];
      } else {
        assert s[1] == rest[0];
      }
    }
    assert SkipHexPrefix(s, b) == s;
    DigitSpanOfDigits(ds, rest, b);
    assert s[..|ds|] == ds;
  }

  /** `007` is 7: leading zeros are part of the digit run. */
  lemma StrToULOfLeadingZeros()
    ensures StrToUL("007", Decimal) == Success(7)
  {
    assert Value("007", Decimal) == 7 by {
      assert "007"[..2] == "00" && "00"[..1] == "0" && "0"[..0] == "";
    }
    assert "007" + [] == "007";
    StrToULOfDigitRun("007", [], Decimal);
  }

  /**
   The digits of any value up to `ULONG_MAX`, followed by anything that is
   not a digit, convert back to that value; above `ULONG_MAX` they fail.
   */
  lemma StrToULOfDigits(n: nat, rest: string, b: Base)
    requires EndsNumeral(rest, b)
    ensures StrToUL(ToDigits(n, b) + rest, b)
      == if n <= ULongMax then Success(n) else Failure(OutOfRange)
  {
    StrToULOfDigitRun(ToDigits(n, b), rest, b);
    ValueOfToDigits(n, b);
  }

  /** The conversion of any digit run followed by a non-digit is the value of the whole run. */
  lemma ConvertOfDigitRun(ds: string, rest: string, b: Base)
    requires |ds| > 0 && AllDigits(ds, b)
    requires |rest| == 0 || !IsDigit(rest[0], b)
    ensures Convert(false, ds + rest, b)
      == if Value(ds, b) <= ULongMax then Success(Value(ds, b)) else Failure(OutOfRange)
  {
    DigitSpanOfDigits(ds, rest, b);
    assert (ds + rest)[..|ds|] == ds;
  }

  /** In radix 16 a `0x` before any run of hex digits, leading zeros included, is skipped. */
  lemma StrToULOfPrefixedHexRun(ds: string, rest: string)
    requires |ds| > 0 && AllDigits(ds, Hex)
    requires |rest| == 0 || !IsDigit(rest[0], Hex)
    ensures StrToUL("0x" + ds + rest, Hex)
      == if Value(ds, Hex) <= ULongMax then Success(Value(ds, Hex)) else Failure(OutOfRange)
  {
    SubjectOfPrefixedHex(ds + rest);
    assert "0x" + ds + rest == "0x" + (ds + rest);
    ConvertOfDigitRun(ds, rest, Hex);
  }

  /** The `0x` in front of a hex digit is where radix-16 digits start. */
  lemma SubjectOfPrefixedHex(t: string)
    requires |t| > 0 && IsDigit(t[0], Hex)
    ensures Subject("0x" + t, Hex) == (false, t)
  {
    var s := "0x" + t;
    assert SpaceSpan(s) == 0;
    assert s[0..] == s;
    assert SplitSign(s) == (false, s);
    assert s[2] == t[0];
    assert s[2..] == t;
  }

  /** In radix 16 the `0x` prefix in front of the digits is skipped. */
  lemma StrToULOfPrefixedHex(n: nat, rest: string)
    requires |rest| == 0 || !IsDigit(rest[0], Hex)
    ensures StrToUL("0x" + ToDigits(n, Hex) + rest, Hex)
      == if n <= ULongMax then Success(n) else Failure(OutOfRange)
  {
    var d := ToDigits(n, Hex);
    var s := "0x" + d + rest;
    assert SpaceSpan(s) == 0;
    assert s[0..] == s;
    assert SplitSign(s) == (false, s);
    assert s[2] == d[0] && IsDigit(d[0], Hex);
    assert s[2..] == d + rest;
    assert SkipHexPrefix(s, Hex) == d + rest;
    ConvertOfDigits(false, n, rest, Hex);
  }

  /** `0x` not followed by a hex digit converts as the number 0. */
  lemma StrToULOfBareHexPrefix(rest: string)
    requires |rest| == 0 || !IsDigit(rest[0], Hex)
    ensures StrToUL("0x" + rest, Hex) == Success(0)
  {
    var s := "0x" + rest;
    assert SpaceSpan(s) == 0;
    assert s[0..] == s;
    assert Subject(s, Hex) == (false, s);
    assert DigitSpan(s, Hex) == 1;
    assert s[..1] == "0";
    assert Value(s[..1], Hex) == Value([], Hex) * 16 + 0;
  }

  /** A minus sign yields the value negated modulo 2^64. */
  lemma StrToULOfNegated(n: nat, b: Base)
    requires n <= ULongMax
    ensures StrToUL("-" + ToDigits(n, b), b) == Success((ULongMax + 1 - n) % (ULongMax + 1))
  {
    var s := "-" + ToDigits(n, b);
    assert SpaceSpan(s) == 0;
    assert s[0..] == s;
    assert s[1..] == ToDigits(n, b) + [];
    var d := ToDigits(n, b);
    DigitIsNotSpaceOrSign(d[0], b);
    if b == Hex && |d| >= 2 {
      DigitIsNotSpaceOrSign(d[1], b);
    }
    assert Subject(s, b) == (true, ToDigits(n, b) + []);
    ConvertOfDigits(true, n, [], b);
  }

  /** Text with no digit at all fails to convert. */
  lemma StrToULWithoutDigits(s: string, b: Base)
    requires forall i :: 0 <= i < |s| ==> !IsDigit(s[i], b)
    ensures StrToUL(s, b) == Failure(NoDigits)
  {
  }

  /** Leading white space is skipped. */
  lemma StrToULSkipsSpace(c: char, s: string, b: Base)
    requires IsSpace(c)
    ensures StrToUL([c] + s, b) == StrToUL(s, b)
  {
    assert ([c] + s)[1..] == s;
    assert ([c] + s)[SpaceSpan([c] + s)..] == s[SpaceSpan(s)..];
  }

  /** `atoi` reads back any decimal numeral, negative or not. */
  lemma AtoiOfDigits(n: nat, rest: string)
    requires |rest| == 0 || !IsDigit(rest[0], Decimal)
    ensures Atoi(ToDigits(n, Decimal) + rest) == n
    ensures Atoi("-" + ToDigits(n, Decimal) + rest) == -(n as int)
  {
    var s := ToDigits(n, Decimal) + rest;
    DigitIsNotSpaceOrSign(s[0], Decimal);
    assert SpaceSpan(s) == 0;
    assert s[0..] == s;
    DigitsThenRest(n, rest, Decimal);
    var m := "-" + ToDigits(n, Decimal) + rest;
    assert SpaceSpan(m) == 0;
    assert m[0..] == m;
    assert m[1..] == s;
  }

  /** `atoi` of text without digits is 0. */
  lemma AtoiWithoutDigits(s: string)
    requires forall i :: 0 <= i < |s| ==> !IsDigit(s[i], Decimal)
    ensures Atoi(s) == 0
  {
    var u := SplitSign(s[SpaceSpan(s)..]).1;
    assert DigitSpan(u, Decimal) == 0 by {
      if |u| > 0 {
        assert u[0] in s;
      }
    }
  }
}
