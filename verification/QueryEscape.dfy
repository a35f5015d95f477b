/** The command-line client's escaping of search terms, and the form decoding that undoes it. */
module QueryEscape {
  import opened Seqs

  /** A Go string is a sequence of bytes. */
  type byte = c: char | c as int < 256

  /** The unreserved characters of RFC 3986, section 2.3. */
  predicate Unreserved(c: char) {
    'A' <= c <= 'Z' || 'a' <= c <= 'z' || '0' <= c <= '9' || c == '-' || c == '_' || c == '.' || c == '~'
  }

  function HexDigit(d: nat): (c: byte)
    requires d < 16
  {
    if d < 10 then '0' + d as char else 'A' + (d - 10) as char
  }

  predicate IsHex(c: char) {
    '0' <= c <= '9' || 'A' <= c <= 'F' || 'a' <= c <= 'f'
  }

  predicate IsUpperHex(c: char) {
    '0' <= c <= '9' || 'A' <= c <= 'F'
  }

  function HexValue(c: char): (d: nat)
    requires IsHex(c)
    ensures d < 16
  {
    if c <= '9' then c as int - '0' as int
    else if c <= 'F' then c as int - 'A' as int + 10
    else c as int - 'a' as int + 10
  }

  function EscapeByte(c: byte): seq<byte> {
    if c == ' ' then "+"
    else if Unreserved(c) then [c]
    else ['%', HexDigit(c as int / 16), HexDigit(c as int % 16)]
  }

  function Escape(s: seq<byte>): (r: seq<byte>)
    ensures |s| <= |r| <= 3 * |s|
  {
    if s == [] then [] else EscapeByte(s[0]) + Escape(s[1..])
  }

  // ----- form decoding

  datatype Decoded = Invalid | Plain(text: seq<byte>)

  function Prepend(c: byte, d: Decoded): Decoded {
    match d
    case Invalid => Invalid
    case Plain(text) => Plain([c] + text)
  }

  function Pair(h: char, l: char): byte
    requires IsHex(h) && IsHex(l)
  {
    (HexValue(h) * 16 + HexValue(l)) as char
  }

  /** '+' is a space, a percent triplet is the byte it names, a percent sign with anything else after it is an
      error, and every other byte stands for itself. */
  function FormDecode(s: seq<byte>): Decoded {
    if s == [] then Plain([])
    else if s[0] == '%' then
      if |s| >= 3 && IsHex(s[1]) && IsHex(s[2]) then Prepend(Pair(s[1], s[2]), FormDecode(s[3..])) else Invalid
    else Prepend(if s[0] == '+' then ' ' else s[0], FormDecode(s[1..]))
  }

  /** Only unreserved characters, '+', and percent triplets with capital hexadecimal digits (RFC 3986, section 2.1). */
  predicate WellFormed(s: seq<byte>) {
    s == []
    || (Unreserved(s[0]) && WellFormed(s[1..]))
    || (s[0] == '+' && WellFormed(s[1..]))
    || (s[0] == '%' && |s| >= 3 && IsUpperHex(s[1]) && IsUpperHex(s[2]) && WellFormed(s[3..]))
  }

  /** Well formed, and no triplet where a plain character or '+' would do. */
  predicate Shortest(s: seq<byte>) {
    s == []
    || (Unreserved(s[0]) && Shortest(s[1..]))
    || (s[0] == '+' && Shortest(s[1..]))
    || (s[0] == '%' && |s| >= 3 && IsUpperHex(s[1]) && IsUpperHex(s[2])
        && !Unreserved(Pair(s[1], s[2])) && Pair(s[1], s[2]) != ' ' && Shortest(s[3..]))
  }

  lemma HexPair(c: byte)
    ensures var h, l := HexDigit(c as int / 16), HexDigit(c as int % 16);
            IsUpperHex(h) && IsUpperHex(l) && Pair(h, l) == c
  {
  }

  lemma PairHex(h: char, l: char)
    requires IsUpperHex(h) && IsUpperHex(l)
    ensures HexDigit(Pair(h, l) as int / 16) == h && HexDigit(Pair(h, l) as int % 16) == l
  {
  }

  lemma DecodeByte(c: byte, rest: seq<byte>)
    ensures FormDecode(EscapeByte(c) + rest) == Prepend(c, FormDecode(rest))
  {
    HexPair(c);
    var all := EscapeByte(c) + rest;
    assert all[|EscapeByte(c)|..] == rest;
  }

  /** Form decoding undoes the escaping of every byte string. */
  lemma {:induction false} DecodeEscape(s: seq<byte>)
    ensures FormDecode(Escape(s)) == Plain(s)
  {
    if s != [] {
      DecodeEscape(s[1..]);
      DecodeByte(s[0], Escape(s[1..]));
      Uncons(s);
    }
  }

  /** So escaping is injective. */
  lemma EscapeInjective(s: seq<byte>, t: seq<byte>)
    requires Escape(s) == Escape(t)
    ensures s == t
  {
    DecodeEscape(s);
    DecodeEscape(t);
  }

  lemma ShortestByte(c: byte, rest: seq<byte>)
    requires Shortest(rest)
    ensures Shortest(EscapeByte(c) + rest)
  {
    HexPair(c);
    var all := EscapeByte(c) + rest;
    assert all[|EscapeByte(c)|..] == rest;
  }

  lemma {:induction false} EscapeIsShortest(s: seq<byte>)
    ensures Shortest(Escape(s))
  {
    if s != [] {
      EscapeIsShortest(s[1..]);
      ShortestByte(s[0], Escape(s[1..]));
    }
  }

  lemma {:induction false} ShortestIsWellFormed(s: seq<byte>)
    requires Shortest(s)
    ensures WellFormed(s)
  {
    if s != [] {
      ShortestIsWellFormed(if s[0] == '%' then s[3..] else s[1..]);
    }
  }

  lemma {:induction false} EscapeIsWellFormed(s: seq<byte>)
    ensures WellFormed(Escape(s))
  {
    EscapeIsShortest(s);
    ShortestIsWellFormed(Escape(s));
  }

  lemma {:induction false} EscapeDecode(t: seq<byte>)
    requires Shortest(t)
    ensures FormDecode(t).Plain? && Escape(FormDecode(t).text) == t
  {
    if t != [] {
      var n := if t[0] == '%' then 3 else 1;
      EscapeDecode(t[n..]);
      var rest := FormDecode(t[n..]).text;
      var c := if t[0] == '%' then Pair(t[1], t[2]) else if t[0] == '+' then ' ' else t[0];
      assert ([c] + rest)[1..] == rest;
      if t[0] == '%' {
        PairHex(t[1], t[2]);
      }
      assert t == t[..n] + t[n..];
    }
  }

  /** The outputs of the escaping are exactly the shortest well-formed strings: escaping what a string decodes to
      gives the string back if and only if it is one. */
  lemma EscapeDecodeIff(t: seq<byte>)
    ensures (FormDecode(t).Plain? && Escape(FormDecode(t).text) == t) <==> Shortest(t)
  {
    if Shortest(t) {
      EscapeDecode(t);
    } else if FormDecode(t).Plain? {
      EscapeIsShortest(FormDecode(t).text);
    }
  }

  lemma {:induction false} EscapeConcat(s: seq<byte>, t: seq<byte>)
    ensures Escape(s + t) == Escape(s) + Escape(t)
  {
    hide EscapeByte;
    if s == [] {
      assert s + t == t;
    } else {
      EscapeConcat(s[1..], t);
      assert (s + t)[1..] == s[1..] + t;
      Regroup(EscapeByte(s[0]), Escape(s[1..]), Escape(t));
    }
  }

  /** urlQueryEscape: one pass over the bytes, appending to the builder. */
  method UrlQueryEscape(s: seq<byte>) returns (b: seq<byte>)
    ensures b == Escape(s)
  {
    b := [];
    var i := 0;
    while i < |s|
      invariant 0 <= i <= |s|
      invariant b == Escape(s[..i])
    {
      var ch := s[i];
      assert s[..i + 1] == s[..i] + [ch];
      EscapeConcat(s[..i], [ch]);
      assert Escape([ch]) == EscapeByte(ch);
      if ch == ' ' {
        b := b + "+";
      } else if Unreserved(ch) {
        b := b + [ch];
      } else {
        b := b + ['%', HexDigit(ch as int / 16), HexDigit(ch as int % 16)];
      }
      i := i + 1;
    }
    assert s[..i] == s;
  }

  /** Byte by byte: a space becomes a plus sign; capitals, small letters, digits and - _ . ~ stay; any other byte
      becomes a percent sign and its two hexadecimal digits. */
  lemma EscapeMeaning(c: byte, s: seq<byte>)
    ensures var n := c as int;
            Escape([c] + s) ==
            (if n == 32 then "+"
             else if 65 <= n <= 90 || 97 <= n <= 122 || 48 <= n <= 57 || n == 45 || n == 95 || n == 46 || n == 126 then [c]
             else ['%', "0123456789ABCDEF"[n / 16], "0123456789ABCDEF"[n % 16]]) + Escape(s)
  {
    assert ([c] + s)[1..] == s;
    HexDigits(c as int / 16);
    HexDigits(c as int % 16);
  }

  lemma HexDigits(d: nat)
    requires d < 16
    ensures HexDigit(d) == "0123456789ABCDEF"[d]
  {
  }
}
