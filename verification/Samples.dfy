/** The encodings at concrete values: alphabets, escapes and the text of each record, letter by letter. Round trips alone
    would not tell a permuted alphabet or a misspelt field name from the right one. */
module Samples {
  import opened Text
  import opened Digits
  import opened Json
  import opened Clock
  import opened Rooms
  import Base64
  import Utf8
  import HistoryCursor
  import Broker
  import Envelopes
  import SessionCookie

  /** Table 2 of RFC 4648. */
  const BASE64_URL := UPPER_CASE + LOWER_CASE + NUMERALS + "-_"

  lemma Base64Table(i: int)
    requires 0 <= i < 64
    ensures |BASE64_URL| == 64 && Base64.CharOf(i) == BASE64_URL[i]
  {
    assert |UPPER_CASE| == 26 && |LOWER_CASE| == 26 && |NUMERALS| == 10;
    if i < 26 {
      assert BASE64_URL[i] == UPPER_CASE[i];
    } else if i < 52 {
      assert BASE64_URL[i] == LOWER_CASE[i - 26];
    } else if i < 62 {
      assert BASE64_URL[i] == NUMERALS[i - 52];
    }
  }

  /** Section 10 of RFC 4648, without the padding. */
  lemma Base64Vectors()
    ensures Base64.Encode([102]) == "Zg" && Base64.Encode([102, 111]) == "Zm8" && Base64.Encode([102, 111, 111]) == "Zm9v"
    ensures Base64.Encode([102, 111, 111, 98, 97, 114]) == "Zm9vYmFy"
    ensures Base64.Encode([251, 255, 191]) == "-_-_"
  {
    var foobar: seq<int> := [102, 111, 111, 98, 97, 114];
    assert foobar[..3] == [102, 111, 111] && foobar[3..] == [98, 97, 114];
  }

  /** One rune of each length. */
  lemma Utf8Vectors()
    ensures Utf8.EncodeRune('A') == [0x41] && Utf8.EncodeRune('\U{00E9}') == [0xC3, 0xA9]
    ensures Utf8.EncodeRune('\U{20AC}') == [0xE2, 0x82, 0xAC] && Utf8.EncodeRune('\U{1F600}') == [0xF0, 0x9F, 0x98, 0x80]
  {
  }

  lemma Calendar()
    ensures LeapYear(2000) && LeapYear(2024) && !LeapYear(1900) && !LeapYear(2026)
    ensures DaysIn(2026, 1) + DaysIn(2026, 2) + DaysIn(2026, 3) + DaysIn(2026, 4) + DaysIn(2026, 5) + DaysIn(2026, 6) == 181
    ensures DaysIn(2026, 7) + DaysIn(2026, 8) + DaysIn(2026, 9) + DaysIn(2026, 10) + DaysIn(2026, 11) + DaysIn(2026, 12) == 184
    ensures DaysIn(2024, 2) == 29 && DaysIn(2026, 2) == 28
  {
  }

  lemma ShortEscapes()
    ensures EscapeChar('"') == "\\\"" && EscapeChar('\\') == "\\\\" && EscapeChar('\n') == "\\n" && EscapeChar('\r') == "\\r"
    ensures EscapeChar('\t') == "\\t" && EscapeChar('a') == "a" && EscapeChar('/') == "/"
  {
  }

  lemma HexDigits(n: int, text: string)
    requires 0 <= n < 0x10000 && |text| == 4
    requires HexChar(n / 4096) == text[0] && HexChar(n / 256 % 16) == text[1] && HexChar(n / 16 % 16) == text[2] && HexChar(n % 16) == text[3]
    ensures Hex4(n) == text
  {
  }

  lemma LongEscapes()
    ensures EscapeChar('<') == "\\u003c" && EscapeChar('>') == "\\u003e" && EscapeChar('&') == "\\u0026"
    ensures EscapeChar('\U{2028}') == "\\u2028" && EscapeChar('\U{2029}') == "\\u2029"
  {
    HexDigits(0x3c, "003c");
    HexDigits(0x3e, "003e");
    HexDigits(0x26, "0026");
    HexDigits(0x2028, "2028");
    HexDigits(0x2029, "2029");
  }

  lemma Numbers()
    ensures PrintInt(0) == "0" && PrintInt(7) == "7" && PrintInt(-12) == "-12" && PrintInt(1786010400) == "1786010400"
  {
    assert NatText(12) == NatText(1) + "2";
    assert NatText(17860) == "17860";
    assert NatText(1786010400) == NatText(178601040) + "0";
  }

  const MOMENT := Timestamp(2026, 8, 6, 10, 0, 0, 500_000_000)

  lemma TwoDigits(n: int, text: string)
    requires 0 <= n < 100 && text == [DigitChar(n / 10), DigitChar(n % 10)]
    ensures Pow10(2) == 100 && Fixed(n, 2) == text
  {
    Powers();
    assert Fixed(n / 10, 1) == Fixed(n / 10 / 10, 0) + [DigitChar(n / 10)];
  }

  lemma FourDigits(n: int, text: string)
    requires 0 <= n < 10000 && |text| == 4
    requires text[..2] == [DigitChar(n / 1000), DigitChar(n / 100 % 10)] && text[2..] == [DigitChar(n / 10 % 10), DigitChar(n % 10)]
    ensures Pow10(4) == 10000 && Fixed(n, 4) == text
  {
    Powers();
    TwoDigits(n / 100, text[..2]);
    assert Pow10(3) == 1000;
    assert Fixed(n, 4) == Fixed(n / 10, 3) + [DigitChar(n % 10)];
    assert Fixed(n / 10, 3) == Fixed(n / 100, 2) + [DigitChar(n / 10 % 10)];
  }

  lemma Seconds19()
    ensures Printable(MOMENT) && Seconds(MOMENT) == "2026-08-06T10:00:00"
  {
    FourDigits(2026, "2026");
    TwoDigits(8, "08");
    TwoDigits(6, "06");
    TwoDigits(10, "10");
    TwoDigits(0, "00");
  }

  lemma {:induction false} Tenths(n: int, width: nat)
    requires 0 < n < 10 && width >= 1 && n * Pow10(width - 1) < Pow10(width)
    ensures 0 < n * Pow10(width - 1) && Decimals(n * Pow10(width - 1), width) == [DigitChar(n)]
    decreases width
  {
    if width > 1 {
      assert n * Pow10(width - 1) == 10 * (n * Pow10(width - 2));
      Tenths(n, width - 1);
    } else {
      assert Fixed(n, 1) == Fixed(0, 0) + [DigitChar(n)];
    }
  }

  /** RFC 3339 with the fraction cut after its last digit. */
  lemma Times()
    ensures Printable(MOMENT) && Format(MOMENT) == "2026-08-06T10:00:00.5Z"
  {
    Seconds19();
    Powers();
    assert Pow10(8) == 100_000_000;
    Tenths(5, 9);
    assert Fraction(MOMENT.nano) == ".5";
  }

  function Quoted(s: string, rest: string): string { "\"" + (s + ("\"" + rest)) }

  lemma PlainQuoted(s: string, rest: string)
    requires Plain(s)
    ensures PrintString(s) + rest == Quoted(s, rest)
  {
    PlainIsNotEscaped(s);
  }

  /** The text of a cursor (backend/history_cursor.go), field by field. */
  lemma CursorText(room: string, t: Timestamp, id: int)
    requires CanonicalRoom(room) && Printable(t)
    ensures HistoryCursor.Print(HistoryCursor.Cursor(1, room, t, id))
         == "{\"v\":" + ("1" + (",\"room\":" + Quoted(room, ",\"timestamp\":" + Quoted(Format(t), ",\"id\":" + (PrintInt(id) + "}")))))
  {
    Numbers();
    var tail := ",\"id\":" + (PrintInt(id) + "}");
    HistoryCursor.CanonicalIsPlain(room);
    FormatRunes(t);
    PlainQuoted(Format(t), tail);
    PlainQuoted(room, ",\"timestamp\":" + (PrintString(Format(t)) + tail));
  }

  /** The text of a session (backend/internal/auth/session.go), for a name that needs no escape and one room. */
  lemma SessionText(p: SessionCookie.Session)
    requires p.version == 1 && Plain(p.sessionID) && Plain(p.subject) && Plain(p.displayName) && |p.rooms| == 1 && Plain(p.rooms[0])
    ensures SessionCookie.Print(p)
         == "{\"v\":" + ("1" + (",\"sid\":" + Quoted(p.sessionID, ",\"sub\":" + Quoted(p.subject, ",\"name\":" + Quoted(p.displayName,
            ",\"rooms\":" + ("[" + Quoted(p.rooms[0], "]" +
            (",\"iat\":" + (PrintInt(p.issuedAt) + (",\"exp\":" + (PrintInt(p.expiresAt) + "}"))))))))))) 
  {
    Numbers();
    var times := SessionCookie.PrintTimes(p);
    PlainQuoted(p.rooms[0], "]" + times);
    var rooms := ",\"rooms\":" + SessionCookie.PrintArray(p.rooms, times);
    PlainQuoted(p.displayName, rooms);
    PlainQuoted(p.subject, ",\"name\":" + (PrintString(p.displayName) + rooms));
    PlainQuoted(p.sessionID, SessionCookie.PrintWho(p, times));
  }

  /** The text of an event (backend/internal/events/envelope.go), for texts that need no escape. */
  lemma EventText(e: Envelopes.Envelope)
    requires e.schema == "chatster.room-message" && e.version == 1 && Printable(e.timestamp) && e.message.userID != ""
    requires Plain(e.eventID) && Plain(e.room) && Plain(e.origin) && Plain(e.message.userID)
    requires Plain(e.message.username) && Plain(e.message.content) && Plain(e.message.kind)
    ensures Broker.Print(e)
         == "{\"schema\":" + Quoted("chatster.room-message", ",\"version\":" + ("1" + (",\"event_id\":" + Quoted(e.eventID,
            RouteText(e, ",\"timestamp\":" + Quoted(Format(e.timestamp), ",\"message\":" + MessageText(e.message)))))))
  {
    MessageTextOk(e.message);
    var message := ",\"message\":" + Broker.PrintMessage(e.message, "}");
    StampTextOk(e.timestamp, message);
    var stamp := Broker.PrintStamp(e.timestamp, message);
    RouteTextOk(e, stamp);
    HeadTextOk(e.schema, e.eventID, Broker.PrintRoute(e, stamp));
  }

  lemma SchemaIsPlain()
    ensures Plain("chatster.room-message")
  {
  }

  lemma HeadTextOk(schema: string, eventID: string, rest: string)
    requires schema == "chatster.room-message" && Plain(eventID)
    ensures "{\"schema\":" + (PrintString(schema) + (",\"version\":" + (PrintInt(1) + (",\"event_id\":" + (PrintString(eventID) + rest)))))
         == "{\"schema\":" + Quoted(schema, ",\"version\":" + ("1" + (",\"event_id\":" + Quoted(eventID, rest))))
  {
    Numbers();
    SchemaIsPlain();
    PlainQuoted(eventID, rest);
    PlainQuoted(schema, ",\"version\":" + (PrintInt(1) + (",\"event_id\":" + (PrintString(eventID) + rest))));
  }

  lemma StampTextOk(t: Timestamp, rest: string)
    requires Printable(t)
    ensures Broker.PrintStamp(t, rest) == ",\"timestamp\":" + Quoted(Format(t), rest)
  {
    FormatRunes(t);
    PlainQuoted(Format(t), rest);
  }

  function RouteText(e: Envelopes.Envelope, rest: string): string
  {
    ",\"room\":" + Quoted(e.room, ",\"origin_instance\":" + Quoted(e.origin, rest))
  }

  lemma RouteTextOk(e: Envelopes.Envelope, rest: string)
    requires Plain(e.room) && Plain(e.origin)
    ensures Broker.PrintRoute(e, rest) == RouteText(e, rest)
  {
    PlainQuoted(e.origin, rest);
    PlainQuoted(e.room, ",\"origin_instance\":" + (PrintString(e.origin) + rest));
  }

  function MessageText(m: Envelopes.Payload): string
  {
    "{\"id\":" + (PrintInt(m.id) + (",\"user_id\":" + Quoted(m.userID, ",\"username\":" + Quoted(m.username,
    ",\"content\":" + Quoted(m.content, ",\"type\":" + Quoted(m.kind, "}" + "}"))))))
  }

  lemma MessageTextOk(m: Envelopes.Payload)
    requires m.userID != "" && Plain(m.userID) && Plain(m.username) && Plain(m.content) && Plain(m.kind)
    ensures Broker.PrintMessage(m, "}") == MessageText(m)
  {
    var end := "}" + "}";
    PlainQuoted(m.kind, end);
    PlainQuoted(m.content, ",\"type\":" + (PrintString(m.kind) + end));
    PlainQuoted(m.username, ",\"content\":" + (PrintString(m.content) + (",\"type\":" + (PrintString(m.kind) + end))));
    PlainQuoted(m.userID, Broker.PrintNames(m, end));
  }
}
