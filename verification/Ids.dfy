/** Subsonic string ids: a kind's prefix and a database id in decimal. */
module SubsonicIds {
  import opened Decimal
  import opened Seqs

  const SONG := "so-"
  const ALBUM := "al-"
  const ARTIST := "ar-"
  const LIBRARY := "li-"
  const PODCAST := "pc-"
  const EPISODE := "ep-"
  const SHARE := "sh-"
  const RADIO := "ra-"

  /** In the order decodeID tries them. */
  const PREFIXES := [SONG, ALBUM, ARTIST, LIBRARY, PODCAST, EPISODE, SHARE, RADIO]

  datatype Decoded = Malformed | Id(prefix: string, id: int64)

  function Encode(prefix: string, id: int64): string {
    prefix + Canonical(id)
  }

  function DecodeRest(prefix: string, rest: string): Decoded {
    match ParseInt(rest)
    case Number(n) => Id(prefix, n)
    case Bad => Malformed
  }

  /** The first listed prefix that the id starts with decides; a bare number is accepted too. */
  function DecodeWith(prefixes: seq<string>, id: string): (r: Decoded)
    ensures r.Id? ==> r.prefix <= id
  {
    if prefixes == [] then DecodeRest("", id)
    else if prefixes[0] <= id then DecodeRest(prefixes[0], id[|prefixes[0]|..])
    else DecodeWith(prefixes[1..], id)
  }

  function Decode(id: string): (r: Decoded)
    ensures r.Id? ==> r.prefix <= id
  {
    DecodeWith(PREFIXES, id)
  }

  /** The typed decoders return the number and drop the prefix. */
  function DecodeNumber(id: string): Parsed {
    match Decode(id)
    case Id(_, n) => Number(n)
    case Malformed => Bad
  }

  // ----- what decoding accepts

  /** Prefixes of equal length: at most one starts a given string. */
  predicate SameLength(prefixes: seq<string>, n: nat) {
    forall i :: 0 <= i < |prefixes| ==> |prefixes[i]| == n
  }

  lemma {:induction false} DecodeFinds(prefixes: seq<string>, p: string, id: string)
    requires p in prefixes && SameLength(prefixes, |p|) && p <= id
    ensures DecodeWith(prefixes, id) == DecodeRest(p, id[|p|..])
  {
    if prefixes[0] <= id {
      assert prefixes[0] == id[..|p|] == p;
    } else {
      DecodeFinds(prefixes[1..], p, id);
    }
  }

  lemma {:induction false} DecodeBare(prefixes: seq<string>, id: string)
    requires forall i :: 0 <= i < |prefixes| ==> !(prefixes[i] <= id)
    ensures DecodeWith(prefixes, id) == DecodeRest("", id)
  {
    if prefixes != [] {
      DecodeBare(prefixes[1..], id);
    }
  }

  /** Three characters, the first of which starts no number. */
  predicate Plain(prefixes: seq<string>) {
    SameLength(prefixes, 3)
    && forall i :: 0 <= i < |prefixes| ==> prefixes[i][0] != '-' && prefixes[i][0] != '+' && !IsDigit(prefixes[i][0])
  }

  lemma ThreeLetters()
    ensures Plain(PREFIXES)
  {
  }

  /** Decoding an encoded id gives back its own prefix and number, for every prefix and every 64-bit number. */
  lemma DecodeEncode(p: string, id: int64)
    requires p in PREFIXES
    ensures Decode(Encode(p, id)) == Id(p, id)
  {
    ThreeLetters();
    var s := Encode(p, id);
    assert s[|p|..] == Canonical(id);
    DecodeFinds(PREFIXES, p, s);
    ParseCanonical(id);
  }

  /** Ids of different kinds, or of different rows, are different strings. */
  lemma EncodeInjective(p: string, a: int64, q: string, b: int64)
    requires p in PREFIXES && q in PREFIXES && Encode(p, a) == Encode(q, b)
    ensures p == q && a == b
  {
    DecodeEncode(p, a);
    DecodeEncode(q, b);
  }

  lemma DigitOrSign(id: string)
    requires ParseInt(id).Number?
    ensures id != "" && (IsDigit(id[0]) || id[0] == '-' || id[0] == '+')
  {
  }

  lemma DecodesWithIff(prefixes: seq<string>, s: string, p: string, n: int64)
    requires Plain(prefixes)
    ensures DecodeWith(prefixes, s) == Id(p, n) <==>
            (p in prefixes && p <= s && ParseInt(s[|p|..]) == Number(n)) || (p == "" && ParseInt(s) == Number(n))
  {
    hide ParseInt;
    if q :| q in prefixes && q <= s {
      DecodeFinds(prefixes, q, s);
      if ParseInt(s).Number? {
        DigitOrSign(s);
      }
      if p in prefixes && p <= s {
        assert p == s[..3];
      }
    } else {
      forall i | 0 <= i < |prefixes| ensures !(prefixes[i] <= s) {
        assert prefixes[i] in prefixes;
      }
      DecodeBare(prefixes, s);
    }
  }

  /** The exact domain: p and n are decoded when the string is prefix p, or no prefix, followed by a spelling of
      n, and in no other case. */
  lemma DecodesIff(s: string, p: string, n: int64)
    ensures Decode(s) == Id(p, n) <==>
            (p in PREFIXES && p <= s && ParseInt(s[|p|..]) == Number(n)) || (p == "" && ParseInt(s) == Number(n))
  {
    ThreeLetters();
    DecodesWithIff(PREFIXES, s, p, n);
  }

  /** Encoding what was decoded gives the same string exactly when the number was spelled canonically. */
  lemma ReencodeIff(s: string)
    requires Decode(s).Id?
    ensures Encode(Decode(s).prefix, Decode(s).id) == s <==> IsCanonical(s[|Decode(s).prefix|..])
  {
    var p, n := Decode(s).prefix, Decode(s).id;
    DecodesIff(s, p, n);
    var rest := s[|p|..];
    Reprint(s, p, rest, n);
  }

  lemma Reprint(s: string, p: string, rest: string, n: int64)
    requires |p| <= |s| && p == s[..|p|] && rest == s[|p|..] && ParseInt(rest) == Number(n)
    ensures p + Canonical(n) == s <==> IsCanonical(rest)
  {
    ReprintIff(rest);
    assert s == p + rest;
    assert (p + Canonical(n))[|p|..] == Canonical(n);
  }

  /** The typed decoders take an id of any kind for their own: each returns the number whatever the prefix. */
  lemma NumberOfAnyKind(p: string, id: int64)
    requires p in PREFIXES
    ensures DecodeNumber(Encode(p, id)) == Number(id)
  {
    DecodeEncode(p, id);
  }

  // ----- the prefixes

  /** Songs, albums, artists, libraries, podcasts, episodes, shares and radio stations, in the order they are tried:
      all different, so that no id of one kind is an id of another. */
  lemma PrefixesDiffer()
    ensures PREFIXES == ["so-", "al-", "ar-", "li-", "pc-", "ep-", "sh-", "ra-"]
    ensures [SONG, ALBUM, ARTIST, LIBRARY, PODCAST, EPISODE, SHARE, RADIO] == PREFIXES
    ensures Distinct(PREFIXES)
    ensures forall i, j, a: int64, b: int64 :: 0 <= i < j < 8 ==> Encode(PREFIXES[i], a) != Encode(PREFIXES[j], b)
  {
    forall i, j | 0 <= i < j < 8 ensures PREFIXES[i] != PREFIXES[j] {
      assert PREFIXES[i][0] != PREFIXES[j][0] || PREFIXES[i][1] != PREFIXES[j][1];
    }
    forall i, j, a: int64, b: int64 | 0 <= i < j < 8 ensures Encode(PREFIXES[i], a) != Encode(PREFIXES[j], b) {
      if Encode(PREFIXES[i], a) == Encode(PREFIXES[j], b) {
        EncodeInjective(PREFIXES[i], a, PREFIXES[j], b);
      }
    }
  }
}
