/** The string helpers the program takes from its standard library. */
module Text {

  /** Unicode white space, as strings.TrimSpace sees it. */
  predicate IsSpace(c: char) {
    || '\t' <= c <= '\r' || c == ' ' || c == '\U{85}' || c == '\U{A0}' || c == '\U{1680}'
    || '\U{2000}' <= c <= '\U{200A}' || c == '\U{2028}' || c == '\U{2029}' || c == '\U{202F}'
    || c == '\U{205F}' || c == '\U{3000}'
  }

  /** The same by code point. */
  lemma SpaceCodes(c: char)
    ensures var n := c as int;
            IsSpace(c) <==> 9 <= n <= 13 || n in {32, 133, 160, 5760, 8232, 8233, 8239, 8287, 12288} || 8192 <= n <= 8202
  {
  }

  function TrimLeft(s: string): string {
    if s != [] && IsSpace(s[0]) then TrimLeft(s[1..]) else s
  }

  function TrimRight(s: string): string {
    if s != [] && IsSpace(s[|s| - 1]) then TrimRight(s[..|s| - 1]) else s
  }

  function TrimSpace(s: string): string {
    TrimRight(TrimLeft(s))
  }

  /** ASCII capitals become small letters; nothing else changes. */
  function AsciiLower(s: string): string {
    if s == [] then [] else [if 'A' <= s[0] <= 'Z' then s[0] - 'A' + 'a' else s[0]] + AsciiLower(s[1..])
  }

  predicate AllSpace(s: string) {
    forall i :: 0 <= i < |s| ==> IsSpace(s[i])
  }

  /** Neither the first nor the last character is white space. */
  predicate Trimmed(s: string) {
    s != "" ==> !IsSpace(s[0]) && !IsSpace(s[|s| - 1])
  }

  lemma {:induction false} TrimLeftMeaning(s: string) returns (n: nat)
    ensures n <= |s| && TrimLeft(s) == s[n..] && AllSpace(s[..n])
    ensures TrimLeft(s) != "" ==> !IsSpace(TrimLeft(s)[0])
  {
    n := 0;
    if s != "" && IsSpace(s[0]) {
      var m := TrimLeftMeaning(s[1..]);
      n := m + 1;
      assert s[1..][m..] == s[n..] && s[..n] == [s[0]] + s[1..][..m];
    }
  }

  lemma {:induction false} TrimRightMeaning(s: string) returns (n: nat)
    ensures n <= |s| && TrimRight(s) == s[..n] && AllSpace(s[n..])
    ensures TrimRight(s) != "" ==> !IsSpace(TrimRight(s)[|TrimRight(s)| - 1])
  {
    n := |s|;
    if s != "" && IsSpace(s[|s| - 1]) {
      var front := s[..|s| - 1];
      n := TrimRightMeaning(front);
      assert front[..n] == s[..n] && s[n..] == front[n..] + [s[|s| - 1]];
    }
  }

  /** Trimming cuts white space off both ends and leaves none there. */
  lemma TrimSpaceMeaning(s: string) returns (from: nat, to: nat)
    ensures from <= to <= |s| && TrimSpace(s) == s[from..to]
    ensures AllSpace(s[..from]) && AllSpace(s[to..]) && Trimmed(TrimSpace(s))
  {
    hide TrimLeft, TrimRight;
    from := TrimLeftMeaning(s);
    var left := s[from..];
    var n := TrimRightMeaning(left);
    to := from + n;
    assert left[..n] == s[from..to] && left[n..] == s[to..];
    assert n > 0 ==> left[..n][0] == left[0];
  }

  /** What is trimmed stays as it is. */
  lemma TrimTrimmed(s: string)
    requires Trimmed(s)
    ensures TrimSpace(s) == s
  {
  }

  lemma TrimTwice(s: string)
    ensures TrimSpace(TrimSpace(s)) == TrimSpace(s)
  {
    var _, _ := TrimSpaceMeaning(s);
    TrimTrimmed(TrimSpace(s));
  }

  /** Letter by letter: a capital of ASCII becomes the small one. */
  lemma {:induction false} AsciiLowerMeaning(s: string)
    ensures |AsciiLower(s)| == |s|
    ensures forall i :: 0 <= i < |s| ==>
              AsciiLower(s)[i] == if 'A' <= s[i] <= 'Z' then (s[i] as int + 32) as char else s[i]
  {
    if s != "" {
      AsciiLowerMeaning(s[1..]);
      forall i | 0 < i < |s| ensures AsciiLower(s)[i] == AsciiLower(s[1..])[i - 1] {
      }
    }
  }
}
