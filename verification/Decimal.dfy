/** Decimal text for 64-bit integers: the canonical form, the parser, and the hand-written printers. */
module Decimal {

  const MIN_INT64: int := -0x8000_0000_0000_0000
  const MAX_INT64: int := 0x7FFF_FFFF_FFFF_FFFF

  type int64 = n: int | MIN_INT64 <= n <= MAX_INT64

  datatype Parsed = Bad | Number(value: int64)

  /** Negation wraps: the least value has no positive counterpart. */
  function Negate(n: int64): int64 {
    if n == MIN_INT64 then MIN_INT64 else -n
  }

  function DigitChar(d: nat): char
    requires d < 10
  {
    '0' + d as char
  }

  predicate IsDigit(c: char) {
    '0' <= c <= '9'
  }

  predicate AllDigits(s: string) {
    forall i :: 0 <= i < |s| ==> IsDigit(s[i])
  }

  /** The digits of n, none for zero. */
  function Digits(n: nat): (r: string)
    ensures AllDigits(r) && (n > 0 ==> r != "" && r[0] != '0')
  {
    if n == 0 then "" else Digits(n / 10) + [DigitChar(n % 10)]
  }

  /** What fmt prints for %d. */
  function Canonical(n: int): string {
    if n == 0 then "0" else if n < 0 then "-" + Digits(-n) else Digits(n)
  }

  function Value(s: string): nat
    requires AllDigits(s)
  {
    if s == "" then 0 else Value(s[..|s| - 1]) * 10 + (s[|s| - 1] - '0') as nat
  }

  /** strconv.ParseInt with base 10 and 64 bits. */
  function ParseInt(s: string): Parsed {
    var signed := s != "" && (s[0] == '-' || s[0] == '+');
    var digits := if signed then s[1..] else s;
    if digits == "" || !AllDigits(digits) then Bad
    else
      var v: int := if signed && s[0] == '-' then -(Value(digits) as int) else Value(digits);
      if MIN_INT64 <= v <= MAX_INT64 then Number(v) else Bad
  }

  /** The shape of a canonical number: no plus sign, no leading zero, no negative zero. */
  predicate IsCanonical(s: string) {
    s == "0" || (s != "" && if s[0] == '-' then |s| > 1 && s[1] != '0' else s[0] != '0' && s[0] != '+')
  }

  // ----- digits and values are inverse

  lemma {:induction false} ValueOfDigits(n: nat)
    ensures Value(Digits(n)) == n
  {
    if n != 0 {
      ValueOfDigits(n / 10);
      assert Digits(n)[..|Digits(n)| - 1] == Digits(n / 10);
    }
  }

  lemma {:induction false} DigitsOfValue(s: string)
    requires AllDigits(s) && (s != "" ==> s[0] != '0')
    ensures Digits(Value(s)) == s
  {
    if s != "" {
      var front := s[..|s| - 1];
      DigitsOfValue(front);
      PositiveValue(s);
      assert Value(s) / 10 == Value(front);
      assert s == front + [s[|s| - 1]];
    }
  }

  lemma {:induction false} PositiveValue(s: string)
    requires AllDigits(s) && s != "" && s[0] != '0'
    ensures Value(s) > 0
  {
    if |s| > 1 {
      PositiveValue(s[..|s| - 1]);
    }
  }

  /** Every 64-bit integer survives printing with %d and parsing. */
  lemma ParseCanonical(n: int64)
    ensures ParseInt(Canonical(n)) == Number(n)
  {
    if n == 0 {
      assert "0"[..0] == "" && Value("0") == 0;
    } else if n > 0 {
      ParseUnsigned(n);
    } else {
      ParseNegative(n);
    }
  }

  lemma ParseUnsigned(n: int64)
    requires n > 0
    ensures ParseInt(Digits(n)) == Number(n)
  {
    ValueOfDigits(n);
    assert IsDigit(Digits(n)[0]);
  }

  lemma ParseNegative(n: int64)
    requires n < 0
    ensures ParseInt("-" + Digits(-(n as int))) == Number(n)
  {
    var m: nat := -(n as int);
    ValueOfDigits(m);
    hide Digits, Value;
    assert ("-" + Digits(m))[1..] == Digits(m);
  }

  lemma CanonicalShape(n: int)
    ensures IsCanonical(Canonical(n))
  {
    if n < 0 {
      assert Canonical(n)[1] == Digits(-n)[0];
    } else if n > 0 {
      assert IsDigit(Digits(n)[0]);
    }
  }

  /** Parsing forgets exactly the non-canonical spellings: printing the number back gives the same text if and
      only if the text was canonical. */
  lemma ReprintIff(s: string)
    requires ParseInt(s).Number?
    ensures Canonical(ParseInt(s).value) == s <==> IsCanonical(s)
  {
    if IsCanonical(s) && s != "0" {
      var digits := if s[0] == '-' then s[1..] else s;
      DigitsOfValue(digits);
      PositiveValue(digits);
      if s[0] == '-' {
        assert s == "-" + s[1..];
      }
    } else if s == "0" {
      assert "0"[..0] == "";
    } else {
      CanonicalShape(ParseInt(s).value);
    }
  }

  // ----- the printers that fill a 20-byte buffer from the end

  /** What they print: the least value keeps its sign when negated, so no digit is written for it. */
  function Printed(n: int64): string {
    if n == MIN_INT64 then "-" else Canonical(n)
  }

  function Pow10(k: nat): nat {
    if k == 0 then 1 else 10 * Pow10(k - 1)
  }

  lemma {:induction false} DigitsFit(n: nat, k: nat)
    requires n < Pow10(k)
    ensures |Digits(n)| <= k
  {
    if n != 0 {
      DigitsFit(n / 10, k - 1);
    }
  }

  lemma NineteenDigits()
    ensures Pow10(19) == 10_000_000_000_000_000_000
  {
    assert Pow10(4) == 10_000;
    assert Pow10(8) == 100_000_000;
    assert Pow10(12) == 1_000_000_000_000;
    assert Pow10(16) == 10_000_000_000_000_000;
  }

  /** The digits still to be written; a negative n has none. */
  function Left(n: int): string {
    if n > 0 then Digits(n) else ""
  }

  lemma DigitsStep(n: nat, rest: string)
    requires n > 0
    ensures Left(n / 10) + ([DigitChar(n % 10)] + rest) == Left(n) + rest
    ensures |Left(n / 10)| < |Left(n)|
  {
    assert Digits(n / 10) + ([DigitChar(n % 10)] + rest) == Digits(n / 10) + [DigitChar(n % 10)] + rest;
  }

  lemma LeftFits(n: int64)
    ensures |Left(n)| <= 19
  {
    NineteenDigits();
    if n > 0 {
      DigitsFit(n, 19);
    }
  }

  lemma LastSlice(buf: array<char>, pos: nat, rest: string)
    requires pos < buf.Length && rest == buf[pos + 1..]
    ensures buf[pos..] == [buf[pos]] + rest
  {
  }

  /** The loop: digits go in from the back until n is used up. */
  method FillDigits(buf: array<char>, m: int64) returns (pos: nat)
    requires buf.Length == 20
    modifies buf
    ensures 1 <= pos <= 20 && buf[pos..] == Left(m)
  {
    pos := buf.Length;
    var n: int := m;
    LeftFits(m);
    assert Left(n) + buf[pos..] == Left(m);
    while n > 0
      invariant |Left(n)| < pos <= 20
      invariant Left(n) + buf[pos..] == Left(m)
    {
      hide *;
      ghost var rest := buf[pos..];
      DigitsStep(n, rest);
      pos := pos - 1;
      buf[pos] := DigitChar(n % 10);
      LastSlice(buf, pos, rest);
      n := n / 10;
    }
  }

  /** strconv64: stays inside its buffer for every input. */
  method Strconv64(n: int64) returns (s: string)
    ensures s == Printed(n)
  {
    if n == 0 {
      return "0";
    }
    var neg := n < 0;
    var m := if neg then Negate(n) else n;
    var buf := new char[20];
    var pos := FillDigits(buf, m);
    if neg {
      pos := pos - 1;
      buf[pos] := '-';
    }
    s := buf[pos..];
  }

  /** int64ToStr, the second copy of the same routine. */
  method Int64ToStr(n: int64) returns (s: string)
    ensures s == Printed(n)
  {
    if n == 0 {
      s := "0";
    } else {
      var buf := new char[20];
      var pos := FillDigits(buf, if n < 0 then Negate(n) else n);
      if n < 0 {
        pos := pos - 1;
        buf[pos] := '-';
      }
      s := buf[pos..];
    }
  }

  /** The printers agree with %d, and their output parses back, for every input but the least; that one is
      printed as a bare sign, which is not a number. */
  lemma PrintedParsesIff(n: int64)
    ensures ParseInt(Printed(n)) == Number(n) <==> n != MIN_INT64
    ensures Printed(n) == Canonical(n) <==> n != MIN_INT64
    ensures ParseInt(Printed(MIN_INT64)) == Bad
  {
    ParseCanonical(n);
    assert "-"[1..] == "";
  }

  /** Printing is injective on all 64-bit integers, the least included. */
  lemma PrintedInjective(a: int64, b: int64)
    requires Printed(a) == Printed(b)
    ensures a == b
  {
    PrintedParsesIff(a);
    PrintedParsesIff(b);
  }

  /** The map key of a user's stream. */
  method EntryKey(user: int64) returns (key: string)
    ensures key == "u:" + Printed(user)
  {
    var s := Int64ToStr(user);
    key := "u:" + s;
  }

  /** Two users never share a key. */
  lemma EntryKeyInjective(a: int64, b: int64)
    requires "u:" + Printed(a) == "u:" + Printed(b)
    ensures a == b
  {
    assert ("u:" + Printed(a))[2..] == Printed(a) && ("u:" + Printed(b))[2..] == Printed(b);
    PrintedInjective(a, b);
  }

  // ----- what %d prints, digit by digit

  lemma OneDigit(n: nat)
    requires n < 10
    ensures Digits(n) == if n == 0 then "" else ["0123456789"[n]]
  {
    assert Digits(0) == "";
  }

  /** One digit for the numbers below ten; from there on the last digit is the remainder by ten and those before it are
      the quotient's; a negative number has a minus sign before the digits of its opposite. */
  lemma CanonicalMeaning(n: int)
    ensures 0 <= n < 10 ==> Canonical(n) == ["0123456789"[n]]
    ensures n >= 10 ==> Canonical(n) == Canonical(n / 10) + ["0123456789"[n % 10]]
    ensures n < 0 ==> Canonical(n) == "-" + Canonical(-n)
  {
    if 0 <= n < 10 {
      OneDigit(n);
    } else if n >= 10 {
      LastDigit(n);
    }
  }

  lemma LastDigit(n: nat)
    requires n > 0
    ensures Digits(n) == Digits(n / 10) + ["0123456789"[n % 10]]
  {
    var d := n % 10;
    assert DigitChar(d) == "0123456789"[d];
  }

  // ----- what is parsed, digit by digit

  /** One or more digits. */
  predicate Unsigned(s: string) {
    s != "" && forall i :: 0 <= i < |s| ==> s[i] in "0123456789"
  }

  lemma UnsignedIff(s: string)
    ensures Unsigned(s) <==> s != "" && AllDigits(s)
  {
  }

  /** A digit after others counts ten times what they do, and itself. */
  lemma ValueNext(s: string, d: nat)
    requires AllDigits(s) && d < 10
    ensures Value(["0123456789"[d]]) == d && AllDigits(s + ["0123456789"[d]])
    ensures Value(s + ["0123456789"[d]]) == 10 * Value(s) + d
  {
    var c := "0123456789"[d];
    assert (s + [c])[..|s|] == s;
    assert [c][..0] == "" && Value("") == 0;
  }

  /** A string is a number if it is digits, or a sign and digits, that stay within 64 bits; the minus sign makes it
      negative. Nothing else is. */
  lemma ParseMeaning(s: string)
    ensures Unsigned(s) ==>
              && AllDigits(s)
              && ParseInt(s) == (if Value(s) <= MAX_INT64 then Number(Value(s)) else Bad)
              && ParseInt("+" + s) == ParseInt(s)
              && ParseInt("-" + s) == (if Value(s) <= MAX_INT64 + 1 then Number(-(Value(s) as int)) else Bad)
    ensures !Unsigned(s) && !(s != "" && s[0] in "+-" && Unsigned(s[1..])) ==> ParseInt(s) == Bad
  {
    UnsignedIff(s);
    if s != "" {
      UnsignedIff(s[1..]);
    }
    hide Unsigned, Value;
    assert ("+" + s)[1..] == s && ("-" + s)[1..] == s;
  }
}
