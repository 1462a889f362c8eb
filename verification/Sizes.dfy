/** How many bytes printed JSON takes. */
module Sizes {
  import opened Json
  import Utf8

  function Bytes(s: string): nat { |Utf8.Encode(s)| }

  lemma Cat(a: string, b: string)
    ensures Bytes(a + b) == Bytes(a) + Bytes(b)
  {
    Utf8.EncodeConcat(a, b);
  }

  lemma OfAscii(s: string)
    requires Utf8.Ascii(s)
    ensures Bytes(s) == |s|
  {
    Utf8.AsciiLength(s);
  }

  lemma OfLit(lit: string, rest: string)
    requires Utf8.Ascii(lit)
    ensures Bytes(lit + rest) == |lit| + Bytes(rest)
  {
    Cat(lit, rest);
    OfAscii(lit);
  }

  lemma OfInt(n: int)
    requires -INT64_LIMIT <= n < INT64_LIMIT
    ensures Bytes(PrintInt(n)) <= if n < 0 then 20 else 19
  {
    IntSize(n);
    OfAscii(PrintInt(n));
  }

  /** Text that needs no escape costs one byte a rune, and any text at most six. */
  lemma OfString(s: string)
    ensures Plain(s) ==> Bytes(PrintString(s)) == |s| + 2
    ensures Bytes(PrintString(s)) <= 6 * |s| + 2
  {
    OfEscaped(s);
    Cat("\"", Escape(s) + "\"");
    Cat(Escape(s), "\"");
    OfAscii("\"");
    if Plain(s) {
      PlainIsNotEscaped(s);
      OfAscii(s);
    }
  }

  lemma OfEscapedRune(c: char)
    ensures Bytes(EscapeChar(c)) <= 6
  {
    var e := EscapeChar(c);
    if |e| == 1 {
      assert e == [c];
      assert Utf8.Encode(e) == Utf8.EncodeRune(c) + Utf8.Encode(e[1..]);
    } else {
      OfAscii(e);
    }
  }

  lemma {:induction false} OfEscaped(s: string)
    ensures Bytes(Escape(s)) <= 6 * |s|
  {
    if s != "" {
      OfEscapedRune(s[0]);
      OfEscaped(s[1..]);
      Cat(EscapeChar(s[0]), Escape(s[1..]));
    }
  }
}
