/** Unpadded base64url: the alphabet of section 5 of RFC 4648, with the padding omitted as in
    section 3.2. Decoding skips CR and LF and ignores the unused low bits of the last character,
    as `base64.RawURLEncoding` does. */
module Base64 {
  import opened Text
  import opened Utf8

  predicate InAlphabet(c: char) { IsLetter(c) || IsDigit(c) || c == '-' || c == '_' }

  function CharOf(i: int): (c: char)
    requires 0 <= i < 64
    ensures IndexOf(c) == Some(i)
    ensures InAlphabet(c)
  {
    if i < 26 then ('A' as int + i) as char
    else if i < 52 then ('a' as int + i - 26) as char
    else if i < 62 then ('0' as int + i - 52) as char
    else if i == 62 then '-' else '_'
  }

  function IndexOf(c: char): (r: Option<int>)
    ensures r.Some? ==> 0 <= r.value < 64
  {
    if 'A' <= c <= 'Z' then Some(c as int - 'A' as int)
    else if 'a' <= c <= 'z' then Some(c as int - 'a' as int + 26)
    else if '0' <= c <= '9' then Some(c as int - '0' as int + 52)
    else if c == '-' then Some(62)
    else if c == '_' then Some(63)
    else None
  }

  type sextet = n: int | 0 <= n < 64

  // The four six-bit groups of three bytes, and the three bytes of four six-bit groups.

  function S0(x: byte): sextet { x / 4 }

  function S1(x: byte, y: byte): sextet { x % 4 * 16 + y / 16 }

  function S2(y: byte, z: byte): sextet { y % 16 * 4 + z / 64 }

  function S3(z: byte): sextet { z % 64 }

  function T1(x: byte): sextet { x % 4 * 16 }  // the last group of a single byte

  function T2(y: byte): sextet { y % 16 * 4 }  // the last group of a pair

  function B0(i: sextet, j: sextet): byte { i * 4 + j / 16 }

  function B1(j: sextet, k: sextet): byte { j % 16 * 16 + k / 4 }

  function B2(k: sextet, l: sextet): byte { k % 4 * 64 + l }

  lemma GroupsOk(x: byte, y: byte, z: byte)
    ensures B0(S0(x), S1(x, y)) == x && B1(S1(x, y), S2(y, z)) == y && B2(S2(y, z), S3(z)) == z
  {
  }

  lemma LastGroupsOk(x: byte, y: byte)
    ensures B0(S0(x), T1(x)) == x && B0(S0(x), S1(x, y)) == x && B1(S1(x, y), T2(y)) == y
  {
  }

  /** The characters of one to three bytes. */
  function EncodeGroup(g: seq<byte>): (s: string)
    ensures 1 <= |g| <= 3 ==> |s| == |g| + 1
    ensures AllInAlphabet(s)
  {
    if |g| == 1 then [CharOf(S0(g[0])), CharOf(T1(g[0]))]
    else if |g| == 2 then [CharOf(S0(g[0])), CharOf(S1(g[0], g[1])), CharOf(T2(g[1]))]
    else if |g| == 3 then
      [CharOf(S0(g[0])), CharOf(S1(g[0], g[1])), CharOf(S2(g[1], g[2])), CharOf(S3(g[2]))]
    else ""
  }

  /** The bytes of two to four characters. */
  function DecodeGroup(s: string): Option<seq<byte>>
  {
    if |s| < 2 || |s| > 4 then None
    else
      var i :- IndexOf(s[0]);
      var j :- IndexOf(s[1]);
      if |s| == 2 then Some([B0(i, j)])
      else
        var k :- IndexOf(s[2]);
        if |s| == 3 then Some([B0(i, j), B1(j, k)])
        else
          var l :- IndexOf(s[3]);
          Some([B0(i, j), B1(j, k), B2(k, l)])
  }

  lemma GroupOk(g: seq<byte>)
    requires 1 <= |g| <= 3
    ensures DecodeGroup(EncodeGroup(g)) == Some(g)
  {
    if |g| == 1 {
      LastGroupsOk(g[0], g[0]);
      assert g == [g[0]];
    } else if |g| == 2 {
      LastGroupsOk(g[0], g[1]);
      assert g == [g[0], g[1]];
    } else {
      GroupsOk(g[0], g[1], g[2]);
      assert g == [g[0], g[1], g[2]];
    }
  }

  function EncodeBy(enc: seq<byte> -> string, b: seq<byte>): string
  {
    if b == [] then "" else if |b| <= 3 then enc(b) else enc(b[..3]) + EncodeBy(enc, b[3..])
  }

  function DecodeBy(dec: string -> Option<seq<byte>>, s: string): Option<seq<byte>>
  {
    if s == "" then Some([])
    else if |s| <= 4 then dec(s)
    else
      var first :- dec(s[..4]);
      var rest :- DecodeBy(dec, s[4..]);
      Some(first + rest)
  }

  /** Group by group, a group code that round-trips gives a code that round-trips. */
  lemma {:induction false} GroupwiseRoundTrip(enc: seq<byte> -> string, dec: string -> Option<seq<byte>>, b: seq<byte>)
    requires forall g :: 1 <= |g| <= 3 ==> |enc(g)| == |g| + 1 && dec(enc(g)) == Some(g)
    ensures DecodeBy(dec, EncodeBy(enc, b)) == Some(b)
    ensures b != [] ==> EncodeBy(enc, b) != ""
  {
    if |b| > 3 {
      var e, rest := enc(b[..3]), EncodeBy(enc, b[3..]);
      GroupwiseRoundTrip(enc, dec, b[3..]);
      assert (e + rest)[..4] == e && (e + rest)[4..] == rest;
      assert b == b[..3] + b[3..];
    }
  }

  function Encode(b: seq<byte>): string { EncodeBy(EncodeGroup, b) }

  ghost predicate AllInAlphabet(s: string)
  {
    forall i :: 0 <= i < |s| ==> InAlphabet(s[i])
  }

  lemma {:induction false} GroupwiseAlphabet(enc: seq<byte> -> string, b: seq<byte>)
    requires forall g :: AllInAlphabet(enc(g))
    ensures AllInAlphabet(EncodeBy(enc, b))
  {
    if |b| > 3 {
      GroupwiseAlphabet(enc, b[3..]);
      assert AllInAlphabet(enc(b[..3]));
    }
  }

  lemma EncodeAlphabet(b: seq<byte>)
    ensures AllInAlphabet(Encode(b))
  {
    GroupwiseAlphabet(EncodeGroup, b);
  }

  /** Four characters for three bytes, and one more than the number of bytes left over. */
  lemma {:induction false} EncodeLength(b: seq<byte>)
    ensures 4 * |b| <= 3 * |Encode(b)| <= 4 * |b| + 2
  {
    if |b| > 3 {
      EncodeLength(b[3..]);
    }
  }

  function StripNewlines(s: string): (r: string)
    ensures (forall i :: 0 <= i < |s| ==> s[i] != '\r' && s[i] != '\n') ==> r == s
  {
    if s == "" then ""
    else if s[0] == '\r' || s[0] == '\n' then StripNewlines(s[1..])
    else [s[0]] + StripNewlines(s[1..])
  }

  function Decode(s: string): Option<seq<byte>>
  {
    DecodeBy(DecodeGroup, StripNewlines(s))
  }

  lemma GroupsRoundTrip(b: seq<byte>)
    ensures DecodeBy(DecodeGroup, Encode(b)) == Some(b)
  {
    forall g | 1 <= |g| <= 3 ensures DecodeGroup(EncodeGroup(g)) == Some(g) {
      GroupOk(g);
    }
    GroupwiseRoundTrip(EncodeGroup, DecodeGroup, b);
  }

  /** Every byte sequence survives encoding and decoding. */
  lemma RoundTrip(b: seq<byte>)
    ensures Decode(Encode(b)) == Some(b)
  {
    EncodeAlphabet(b);
    assert StripNewlines(Encode(b)) == Encode(b);
    GroupsRoundTrip(b);
  }

  lemma {:induction false} StripConcat(a: string, b: string)
    ensures StripNewlines(a + b) == StripNewlines(a) + StripNewlines(b)
    decreases |a|
  {
    if a == "" {
      assert a + b == b;
    } else {
      StripConcat(a[1..], b);
      assert (a + b)[1..] == a[1..] + b && (a + b)[0] == a[0];
    }
  }

  /** Line ends anywhere in the text do not matter. */
  lemma NewlinesAreSkipped(a: string, b: string)
    ensures Decode(a + ("\n" + b)) == Decode(a + b) && Decode(a + ("\r" + b)) == Decode(a + b)
  {
    StripConcat(a, b);
    StripConcat(a, "\n" + b);
    StripConcat(a, "\r" + b);
    assert ("\n" + b)[1..] == b && ("\r" + b)[1..] == b;
  }
}
