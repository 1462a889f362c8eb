/** The opaque pagination cursor (backend/history_cursor.go). */
module HistoryCursor {
  import opened Text
  import opened Rooms
  import opened Clock
  import opened Json
  import opened Sizes
  import Base64
  import Utf8

  const CURSOR_VERSION := 1
  const MAX_CURSOR_SIZE := 512

  datatype Cursor = Cursor(version: int, room: string, timestamp: Timestamp, id: int)

  function Print(c: Cursor): string
    requires Printable(c.timestamp)
  {
    "{\"v\":" + (PrintInt(c.version) +
    (",\"room\":" + (PrintString(c.room) +
    (",\"timestamp\":" + (PrintString(Format(c.timestamp)) +
    (",\"id\":" + (PrintInt(c.id) + "}")))))))
  }

  /** Reads the text `Print` writes. */
  function Read(text: string): Option<Cursor>
  {
    var s0 :- Lit(text, "{\"v\":");
    var (version, s1) :- ParseInt(s0);
    var s2 :- Lit(s1, ",\"room\":");
    var (room, s3) :- ParseString(s2);
    var s4 :- Lit(s3, ",\"timestamp\":");
    var (stamp, s5) :- ParseString(s4);
    var timestamp :- Parse(stamp);
    var s6 :- Lit(s5, ",\"id\":");
    var (id, s7) :- ParseInt(s6);
    if s7 == "}" then Some(Cursor(version, room, timestamp, id)) else None
  }

  /** A year outside four digits makes the encoder fail. */
  function EncodeCursor(room: string, timestamp: Timestamp, id: int): Option<string>
  {
    if Printable(timestamp)
    then Some(Base64.Encode(Utf8.Encode(Print(Cursor(CURSOR_VERSION, room, timestamp, id)))))
    else None
  }

  predicate Accepted(c: Cursor)
  {
    NormalizeRoom(c.room) == Ok(c.room) && c.version == CURSOR_VERSION && c.id >= 1 && c.timestamp != ZERO
  }

  /** How JSON bytes are decoded to a cursor. The source uses `encoding/json`, which accepts more than one
      text for a cursor; everything here holds for any decoder, or for any that reads back what is printed. */
  type Reader = seq<Utf8.byte> -> Option<Cursor>

  predicate Writable(c: Cursor)
  {
    c.version == CURSOR_VERSION && Printable(c.timestamp) && -INT64_LIMIT <= c.id < INT64_LIMIT
  }

  ghost predicate ReadsBack(read: Reader)
  {
    forall c :: Writable(c) ==> read(Utf8.Encode(Print(c))) == Some(c)
  }

  function ReadBytes(payload: seq<Utf8.byte>): Option<Cursor>
  {
    var text :- Utf8.Decode(payload);
    Read(text)
  }

  function DecodeCursor(read: Reader, raw: string): (r: Option<Cursor>)
    ensures r.Some? ==> Accepted(r.value)
  {
    if raw == "" || |raw| > MAX_CURSOR_SIZE then None
    else
      var payload :- Base64.Decode(raw);
      if payload == [] || |payload| > MAX_CURSOR_SIZE then None
      else
        var c :- read(payload);
        if Accepted(c) then Some(c) else None
  }

  predicate RoomMatches(c: Cursor, room: string) { EqualFold(c.room, room) }

  lemma ReadPrint(c: Cursor)
    requires Printable(c.timestamp) && -INT64_LIMIT <= c.id < INT64_LIMIT && c.version == CURSOR_VERSION
    ensures Read(Print(c)) == Some(c)
  {
    var e := "}";
    var d := ",\"id\":" + (PrintInt(c.id) + e);
    var b := ",\"timestamp\":" + (PrintString(Format(c.timestamp)) + d);
    var a := ",\"room\":" + (PrintString(c.room) + b);
    LitOk("{\"v\":", PrintInt(c.version) + a);
    IntOk(c.version, a);
    LitOk(",\"room\":", PrintString(c.room) + b);
    StringOk(c.room, b);
    LitOk(",\"timestamp\":", PrintString(Format(c.timestamp)) + d);
    StringOk(Format(c.timestamp), d);
    Clock.RoundTrip(c.timestamp);
    LitOk(",\"id\":", PrintInt(c.id) + e);
    IntOk(c.id, e);
  }

  /** Such a decoder exists: printed cursors are unambiguous. */
  lemma ReadBytesReadsBack()
    ensures ReadsBack(ReadBytes)
  {
    forall c | Writable(c) ensures ReadBytes(Utf8.Encode(Print(c))) == Some(c) {
      Utf8.RoundTrip(Print(c));
      ReadPrint(c);
    }
  }

  lemma CanonicalIsPlain(room: string)
    requires CanonicalRoom(room)
    ensures Plain(room)
  {
    assert forall i :: 0 <= i < |room| ==> RoomRune(room[i]);
  }

  lemma IdSize(id: int)
    requires 0 <= id < INT64_LIMIT
    ensures Bytes(",\"id\":" + (PrintInt(id) + "}")) <= 26
  {
    OfLit(",\"id\":", PrintInt(id) + "}");
    Cat(PrintInt(id), "}");
    OfInt(id);
    OfAscii("}");
  }

  lemma StampSize(t: Timestamp, rest: string)
    requires Printable(t)
    ensures Bytes(",\"timestamp\":" + (PrintString(Format(t)) + rest)) <= 45 + Bytes(rest)
  {
    FormatRunes(t);
    OfString(Format(t));
    OfLit(",\"timestamp\":", PrintString(Format(t)) + rest);
    Cat(PrintString(Format(t)), rest);
  }

  lemma RoomSize(room: string, rest: string)
    requires CanonicalRoom(room)
    ensures Bytes(",\"room\":" + (PrintString(room) + rest)) <= 42 + Bytes(rest)
  {
    CanonicalIsPlain(room);
    OfString(room);
    OfLit(",\"room\":", PrintString(room) + rest);
    Cat(PrintString(room), rest);
  }

  lemma VersionSize(rest: string)
    ensures Bytes("{\"v\":" + (PrintInt(CURSOR_VERSION) + rest)) == 6 + Bytes(rest)
  {
    assert PrintInt(CURSOR_VERSION) == "1";
    OfLit("{\"v\":", PrintInt(CURSOR_VERSION) + rest);
    OfLit("1", rest);
  }

  lemma PrintSize(c: Cursor)
    requires CanonicalRoom(c.room) && Printable(c.timestamp)
    requires 0 <= c.id < INT64_LIMIT && c.version == CURSOR_VERSION
    ensures 1 <= |Utf8.Encode(Print(c))| <= 119
  {
    var d := ",\"id\":" + (PrintInt(c.id) + "}");
    var b := ",\"timestamp\":" + (PrintString(Format(c.timestamp)) + d);
    VersionSize(",\"room\":" + (PrintString(c.room) + b));
    RoomSize(c.room, b);
    StampSize(c.timestamp, d);
    IdSize(c.id);
  }

  /** A cursor the server hands out is short and reads back as the same room, time and id. */
  lemma CursorRoundTrip(read: Reader, room: string, timestamp: Timestamp, id: int)
    requires ReadsBack(read)
    requires CanonicalRoom(room) && Printable(timestamp) && timestamp != ZERO && 1 <= id < INT64_LIMIT
    ensures var raw := EncodeCursor(room, timestamp, id);
            && raw.Some? && 0 < |raw.value| <= 159
            && DecodeCursor(read, raw.value) == Some(Cursor(CURSOR_VERSION, room, timestamp, id))
  {
    var c := Cursor(CURSOR_VERSION, room, timestamp, id);
    PrintSize(c);
    NormalizeFixesExactlyCanonical(room);
    DecodesPayload(read, Utf8.Encode(Print(c)), c);
  }

  /** Any bytes of that size that read as an acceptable cursor are decoded to it. */
  lemma DecodesPayload(read: Reader, payload: seq<Utf8.byte>, c: Cursor)
    requires 1 <= |payload| <= 119 && read(payload) == Some(c) && Accepted(c)
    ensures var raw := Base64.Encode(payload); 0 < |raw| <= 159 && DecodeCursor(read, raw) == Some(c)
  {
    Base64.EncodeLength(payload);
    Base64.RoundTrip(payload);
  }

  /** Whatever its text and however it is decoded, a cursor that is accepted for a room names exactly that room. */
  lemma AcceptedCursorIsForTheRoom(read: Reader, raw: string, room: string)
    requires DecodeCursor(read, raw).Some? && CanonicalRoom(room)
    ensures RoomMatches(DecodeCursor(read, raw).value, room) <==> DecodeCursor(read, raw).value.room == room
  {
    var c := DecodeCursor(read, raw).value;
    NormalizeFixesExactlyCanonical(c.room);
    EqualFoldOnCanonicalIsEquality(c.room, room);
  }

  /** The encoder itself does not check what it encodes: its output is accepted exactly when
      the room is canonical, the id positive and the time set. */
  lemma EncodedIsAcceptedExactlyWhen(read: Reader, room: string, timestamp: Timestamp, id: int)
    requires ReadsBack(read) && Printable(timestamp) && -INT64_LIMIT <= id < INT64_LIMIT
    ensures DecodeCursor(read, EncodeCursor(room, timestamp, id).value).Some? <==>
            CanonicalRoom(room) && id >= 1 && timestamp != ZERO
  {
    var c := Cursor(CURSOR_VERSION, room, timestamp, id);
    if CanonicalRoom(room) && id >= 1 && timestamp != ZERO {
      CursorRoundTrip(read, room, timestamp, id);
    } else {
      assert Writable(c);
      Base64.RoundTrip(Utf8.Encode(Print(c)));
      NormalizeFixesExactlyCanonical(room);
    }
  }

  /** Which texts are accepted as which cursor: one to 512 characters that decode to one to 512 bytes, which read as a cursor of
      version 1 with a canonical room, a positive id and a time. */
  lemma DecodesExactlyWhen(read: Reader, raw: string, c: Cursor)
    ensures DecodeCursor(read, raw) == Some(c) <==>
            && 1 <= |raw| <= 512 && Base64.Decode(raw).Some? && 1 <= |Base64.Decode(raw).value| <= 512
            && read(Base64.Decode(raw).value) == Some(c)
            && c.version == 1 && CanonicalRoom(c.room) && c.id >= 1 && c.timestamp != Timestamp(1, 1, 1, 0, 0, 0, 0)
  {
    NormalizeFixesExactlyCanonical(c.room);
  }

  /** The encoder fails exactly for times whose year JSON cannot carry. */
  lemma EncodesExactlyWhen(room: string, timestamp: Timestamp, id: int)
    ensures EncodeCursor(room, timestamp, id).Some? <==> ValidTime(timestamp) && 0 <= timestamp.year <= 9999
  {
  }
}
