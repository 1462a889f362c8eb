/** UTF-8, the byte form of every string on the wire. */
module Utf8 {
  import opened Text

  type byte = n: int | 0 <= n < 256

  function EncodeRune(c: char): (b: seq<byte>)
    ensures 1 <= |b| <= 4 && (c as int < 0x80 ==> |b| == 1)
  {
    var n := c as int;
    if n < 0x80 then [n]
    else if n < 0x800 then [0xC0 + n / 64, 0x80 + n % 64]
    else if n < 0x10000 then [0xE0 + n / 64 / 64, 0x80 + n / 64 % 64, 0x80 + n % 64]
    else [0xF0 + n / 64 / 64 / 64, 0x80 + n / 64 / 64 % 64, 0x80 + n / 64 % 64, 0x80 + n % 64]
  }

  function FlatMap<A, B>(f: A -> seq<B>, s: seq<A>): seq<B>
  {
    if s == [] then [] else f(s[0]) + FlatMap(f, s[1..])
  }

  function Encode(s: string): seq<byte> { FlatMap(EncodeRune, s) }

  predicate Continuation(b: byte) { 0x80 <= b < 0xC0 }

  /** Six more bits from a continuation byte. */
  function Shift(high: int, b: int): int { 64 * high + (b - 0x80) }

  function Scalar(n: int, size: nat): (r: Option<(char, nat)>)
    ensures r.Some? ==> r.value.1 == size
  {
    if 0 <= n < 0xD800 || 0xE000 <= n < 0x110000 then Some((n as char, size)) else None
  }

  /** The first rune and the number of bytes it takes; overlong and surrogate forms are refused. */
  function DecodeRune(b: seq<byte>): (r: Option<(char, nat)>)
    ensures r.Some? ==> 0 < r.value.1 <= |b|
  {
    if b == [] then None
    else if b[0] < 0x80 then Scalar(b[0], 1)
    else if 0xC2 <= b[0] < 0xE0 && |b| >= 2 && Continuation(b[1]) then
      Scalar(Shift(b[0] - 0xC0, b[1]), 2)
    else if 0xE0 <= b[0] < 0xF0 && |b| >= 3 && Continuation(b[1]) && Continuation(b[2]) then
      var n := Shift(Shift(b[0] - 0xE0, b[1]), b[2]);
      if n < 0x800 then None else Scalar(n, 3)
    else if 0xF0 <= b[0] < 0xF5 && |b| >= 4 && Continuation(b[1]) && Continuation(b[2]) && Continuation(b[3]) then
      var n := Shift(Shift(Shift(b[0] - 0xF0, b[1]), b[2]), b[3]);
      if n < 0x10000 then None else Scalar(n, 4)
    else None
  }

  function Decode(b: seq<byte>): (r: Option<string>)
    decreases |b|
  {
    if b == [] then Some("")
    else
      var (c, size) :- DecodeRune(b);
      var rest :- Decode(b[size..]);
      Some([c] + rest)
  }

  lemma RuneRoundTrip(c: char, rest: seq<byte>)
    ensures DecodeRune(EncodeRune(c) + rest) == Some((c, |EncodeRune(c)|))
  {
    var e := EncodeRune(c);
    var b := e + rest;
    assert forall i :: 0 <= i < |e| ==> b[i] == e[i];
  }

  lemma {:induction false} RoundTrip(s: string)
    ensures Decode(Encode(s)) == Some(s)
  {
    if s != "" {
      var e := EncodeRune(s[0]);
      RuneRoundTrip(s[0], Encode(s[1..]));
      RoundTrip(s[1..]);
      assert (e + Encode(s[1..]))[|e|..] == Encode(s[1..]);
      assert s == [s[0]] + s[1..];
    }
  }

  lemma {:induction false} FlatMapConcat<A, B>(f: A -> seq<B>, a: seq<A>, b: seq<A>)
    ensures FlatMap(f, a + b) == FlatMap(f, a) + FlatMap(f, b)
  {
    if a == [] {
      assert a + b == b;
    } else {
      FlatMapConcat(f, a[1..], b);
      assert (a + b)[1..] == a[1..] + b;
    }
  }

  lemma EncodeConcat(a: string, b: string)
    ensures Encode(a + b) == Encode(a) + Encode(b)
  {
    FlatMapConcat(EncodeRune, a, b);
  }

  ghost predicate Ascii(s: string)
  {
    forall i :: 0 <= i < |s| ==> s[i] as int < 0x80
  }

  lemma {:induction false} AsciiLength(s: string)
    requires Ascii(s)
    ensures |Encode(s)| == |s|
  {
    if s != "" {
      AsciiLength(s[1..]);
    }
  }
}
