/** JSON text for the fixed record shapes the server emits, as `encoding/json` prints them,
    and a reader for that text. */
module Json {
  import opened Text
  import opened Digits

  const INT64_LIMIT := 0x8000_0000_0000_0000

  // ---------------------------------------------------------------- literals and integers

  function Lit(s: string, lit: string): (r: Option<string>)
    ensures r.Some? <==> lit <= s
    ensures r.Some? ==> s == lit + r.value
  {
    if lit <= s then Some(s[|lit|..]) else None
  }

  lemma LitOk(lit: string, rest: string)
    ensures Lit(lit + rest, lit) == Some(rest)
  {
    assert lit <= lit + rest;
  }

  function PrintInt(n: int): string
  {
    if n < 0 then "-" + NatText(-n) else NatText(n)
  }

  /** A JSON integer that fits in 64 bits. */
  function ParseInt(s: string): Option<(int, string)>
  {
    if s != "" && s[0] == '-' then
      var (n, rest) :- ParseNat(s[1..]);
      if n <= INT64_LIMIT then Some((-n, rest)) else None
    else
      var (n, rest) :- ParseNat(s);
      if n < INT64_LIMIT then Some((n, rest)) else None
  }

  function ParseNat(s: string): (r: Option<(int, string)>)
  {
    var k := Span(s);
    if k == 0 || (s[0] == '0' && k > 1) then None else Some((Value(s[..k]), s[k..]))
  }

  lemma IntOk(n: int, rest: string)
    requires -INT64_LIMIT <= n < INT64_LIMIT && (rest == "" || !IsDigit(rest[0]))
    ensures ParseInt(PrintInt(n) + rest) == Some((n, rest))
  {
    var m := if n < 0 then -n else n;
    SpanOfDigits(NatText(m), rest);
    ValueOfNatText(m);
    assert (NatText(m) + rest)[..|NatText(m)|] == NatText(m);
    assert n < 0 ==> (PrintInt(n) + rest)[1..] == NatText(m) + rest;
  }

  // ---------------------------------------------------------------- strings

  function HexChar(d: int): (c: char)
    requires 0 <= d < 16
    ensures HexValue(c) == Some(d)
  {
    if d < 10 then ('0' as int + d) as char else ('a' as int + d - 10) as char
  }

  function HexValue(c: char): (r: Option<int>)
    ensures r.Some? ==> 0 <= r.value < 16
  {
    if '0' <= c <= '9' then Some(c as int - '0' as int)
    else if 'a' <= c <= 'f' then Some(c as int - 'a' as int + 10)
    else if 'A' <= c <= 'F' then Some(c as int - 'A' as int + 10)
    else None
  }

  function Hex4(n: int): (s: string)
    requires 0 <= n < 0x10000
    ensures |s| == 4 && ParseHex4(s) == Some(n)
  {
    [HexChar(n / 16 / 16 / 16), HexChar(n / 16 / 16 % 16), HexChar(n / 16 % 16), HexChar(n % 16)]
  }

  function ParseHex4(s: string): (r: Option<int>)
    requires |s| == 4
    ensures r.Some? ==> 0 <= r.value < 0x10000
  {
    var a :- HexValue(s[0]);
    var b :- HexValue(s[1]);
    var c :- HexValue(s[2]);
    var d :- HexValue(s[3]);
    Some(16 * (16 * (16 * a + b) + c) + d)
  }

  /** The escapes of `encoding/json` with HTML escaping on, its default. */
  predicate NeedsUnicodeEscape(c: char)
  {
    (c as int < 0x20 && c !in "\n\r\t" && c as int != 8 && c as int != 12)
    || c in "<>&" || c as int == 0x2028 || c as int == 0x2029
  }

  function EscapeChar(c: char): string
  {
    var n := c as int;
    if c == '"' then "\\\""
    else if c == '\\' then "\\\\"
    else if n == 8 then "\\b"
    else if n == 12 then "\\f"
    else if c == '\n' then "\\n"
    else if c == '\r' then "\\r"
    else if c == '\t' then "\\t"
    else if NeedsUnicodeEscape(c) then
      "\\u" + Hex4(n)
    else [c]
  }

  function Escape(s: string): string
  {
    if s == "" then "" else EscapeChar(s[0]) + Escape(s[1..])
  }

  function PrintString(s: string): string { "\"" + (Escape(s) + "\"") }

  /** One character of a string body, escaped or not. Surrogate escapes are refused. */
  function ParseChar(s: string): (r: Option<(char, string)>)
    ensures r.Some? ==> |r.value.1| < |s|
  {
    if s == "" then None
    else if s[0] != '\\' then
      if s[0] as int < 0x20 then None else Some((s[0], s[1..]))
    else if |s| < 2 then None
    else if s[1] in "\"\\/" then Some((s[1], s[2..]))
    else if s[1] == 'b' then Some((8 as char, s[2..]))
    else if s[1] == 'f' then Some((12 as char, s[2..]))
    else if s[1] == 'n' then Some(('\n', s[2..]))
    else if s[1] == 'r' then Some(('\r', s[2..]))
    else if s[1] == 't' then Some(('\t', s[2..]))
    else if s[1] == 'u' && |s| >= 6 then
      var n :- ParseHex4(s[2..6]);
      if 0xD800 <= n < 0xE000 then None else Some((n as char, s[6..]))
    else None
  }

  /** The rest of a string, up to and including its closing quote. */
  function ParseBody(s: string): Option<(string, string)>
    decreases |s|
  {
    if s != "" && s[0] == '"' then Some(("", s[1..]))
    else
      var (c, rest) :- ParseChar(s);
      var (tail, after) :- ParseBody(rest);
      Some(([c] + tail, after))
  }

  function ParseString(s: string): Option<(string, string)>
  {
    var body :- Lit(s, "\"");
    ParseBody(body)
  }

  lemma ConcatAssoc(a: string, b: string, c: string)
    ensures a + b + c == a + (b + c)
  {
  }

  lemma UnicodeOk(c: char, rest: string)
    requires c as int < 0xD800 || 0xE000 <= c as int < 0x10000
    ensures ParseChar("\\u" + Hex4(c as int) + rest) == Some((c, rest))
  {
    var s := "\\u" + Hex4(c as int) + rest;
    assert s[2..6] == Hex4(c as int) && s[6..] == rest;
  }

  lemma CharOk(c: char, rest: string)
    ensures ParseChar(EscapeChar(c) + rest) == Some((c, rest))
    ensures (EscapeChar(c) + rest)[0] != '"'
  {
    var e := EscapeChar(c);
    if |e| == 6 {
      UnicodeOk(c, rest);
    } else {
      assert (e + rest)[|e|..] == rest;
    }
  }

  lemma {:induction false} BodyOk(s: string, rest: string)
    ensures ParseBody(Escape(s) + ("\"" + rest)) == Some((s, rest))
  {
    if s == "" {
      assert Escape(s) + ("\"" + rest) == "\"" + rest;
    } else {
      var tail := Escape(s[1..]) + ("\"" + rest);
      ConcatAssoc(EscapeChar(s[0]), Escape(s[1..]), "\"" + rest);
      CharOk(s[0], tail);
      BodyOk(s[1..], rest);
      assert s == [s[0]] + s[1..];
    }
  }

  lemma StringOk(s: string, rest: string)
    ensures ParseString(PrintString(s) + rest) == Some((s, rest))
  {
    ConcatAssoc("\"", Escape(s) + "\"", rest);
    ConcatAssoc(Escape(s), "\"", rest);
    LitOk("\"", Escape(s) + ("\"" + rest));
    BodyOk(s, rest);
  }

  // ---------------------------------------------------------------- text that needs no escape

  predicate PlainRune(c: char)
  {
    0x20 <= c as int < 0x80 && c !in "\"\\<>&"
  }

  ghost predicate Plain(s: string)
  {
    forall i :: 0 <= i < |s| ==> PlainRune(s[i])
  }

  lemma {:induction false} PlainIsNotEscaped(s: string)
    requires Plain(s)
    ensures Escape(s) == s
  {
    if s != "" {
      PlainIsNotEscaped(s[1..]);
      assert EscapeChar(s[0]) == [s[0]];
    }
  }

  /** Sign and at most nineteen digits. */
  lemma IntSize(n: int)
    requires -INT64_LIMIT <= n < INT64_LIMIT
    ensures |PrintInt(n)| <= if n < 0 then 20 else 19
    ensures Plain(PrintInt(n))
  {
    var m := if n < 0 then -n else n;
    Int64Digits();
    NatTextLength(m, 19);
    DigitsArePlain(NatText(m));
  }

  lemma DigitsArePlain(s: string)
    requires AllDigits(s)
    ensures Plain(s) && Plain("-" + s)
  {
  }

  lemma Int64Digits()
    ensures INT64_LIMIT < Pow10(19)
  {
    assert Pow10(5) == 100_000;
    assert Pow10(10) == 100_000 * Pow10(5);
    assert Pow10(15) == 100_000 * Pow10(10);
    assert Pow10(19) == 10_000 * Pow10(15);
  }
}
