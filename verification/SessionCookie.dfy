/** The signed session cookie (backend/internal/auth/session.go, `encode` and `decode`). */
module SessionCookie {
  import opened Text
  import opened Rooms
  import opened Json
  import opened Sizes
  import opened Envelopes
  import opened Principals
  import Utf8
  import Base64

  const PAYLOAD_VERSION := 1
  const MAX_COOKIE_BYTES := 4096
  const SESSION_PREFIX := "sid_"

  datatype Session = Session(
    version: int, sessionID: string, subject: string, displayName: string, rooms: seq<string>, issuedAt: int, expiresAt: int)

  /** A SHA-256 digest or an HMAC over it (section 2 of RFC 2104). */
  type Digest = d: seq<Utf8.byte> | |d| == 32 witness seq(32, _ => 0)

  // ---------------------------------------------------------------- the JSON text of a payload

  function PrintItems(rooms: seq<string>, rest: string): string
  {
    if rooms == [] then rest
    else "," + (PrintString(rooms[0]) + PrintItems(rooms[1..], rest))
  }

  function PrintArray(rooms: seq<string>, rest: string): string
  {
    if rooms == [] then "[]" + rest
    else "[" + (PrintString(rooms[0]) + PrintItems(rooms[1..], "]" + rest))
  }

  function ReadItems(s: string): Option<(seq<string>, string)>
    decreases |s|
  {
    match Lit(s, ",")
    case None => Some(([], s))
    case Some(t) =>
      var (room, u) :- ParseString(t);
      if |u| >= |s| then None
      else
        var (rooms, v) :- ReadItems(u);
        Some(([room] + rooms, v))
  }

  function ReadArray(s: string): Option<(seq<string>, string)>
  {
    match Lit(s, "[]")
    case Some(t) => Some(([], t))
    case None =>
      var t :- Lit(s, "[");
      var (room, u) :- ParseString(t);
      var (rooms, v) :- ReadItems(u);
      var w :- Lit(v, "]");
      Some(([room] + rooms, w))
  }

  lemma {:induction false} ItemsOk(rooms: seq<string>, rest: string)
    requires rest == "" || rest[0] != ','
    ensures ReadItems(PrintItems(rooms, rest)) == Some((rooms, rest))
    decreases |rooms|
  {
    if rooms != [] {
      var tail := PrintItems(rooms[1..], rest);
      LitOk(",", PrintString(rooms[0]) + tail);
      StringOk(rooms[0], tail);
      ItemsOk(rooms[1..], rest);
      assert rooms == [rooms[0]] + rooms[1..];
    }
  }

  lemma ArrayOk(rooms: seq<string>, rest: string)
    ensures ReadArray(PrintArray(rooms, rest)) == Some((rooms, rest))
  {
    if rooms == [] {
      LitOk("[]", rest);
    } else {
      var tail := PrintItems(rooms[1..], "]" + rest);
      LitOk("[", PrintString(rooms[0]) + tail);
      assert PrintArray(rooms, rest)[1] == '"' && "[]"[1] == ']';
      StringOk(rooms[0], tail);
      ItemsOk(rooms[1..], "]" + rest);
      LitOk("]", rest);
      assert rooms == [rooms[0]] + rooms[1..];
    }
  }

  function PrintTimes(p: Session): string
  {
    ",\"iat\":" + (PrintInt(p.issuedAt) + (",\"exp\":" + (PrintInt(p.expiresAt) + "}")))
  }

  function PrintWho(p: Session, rest: string): string
  {
    ",\"sub\":" + (PrintString(p.subject) +
    (",\"name\":" + (PrintString(p.displayName) +
    (",\"rooms\":" + PrintArray(p.rooms, rest)))))
  }

  function Print(p: Session): string
  {
    "{\"v\":" + (PrintInt(p.version) + (",\"sid\":" + (PrintString(p.sessionID) + PrintWho(p, PrintTimes(p)))))
  }

  function ReadTimes(s: string): Option<(int, int)>
  {
    var s1 :- Lit(s, ",\"iat\":");
    var (issuedAt, s2) :- ParseInt(s1);
    var s3 :- Lit(s2, ",\"exp\":");
    var (expiresAt, s4) :- ParseInt(s3);
    if s4 == "}" then Some((issuedAt, expiresAt)) else None
  }

  function ReadWho(s: string): Option<((string, string, seq<string>), string)>
  {
    var s1 :- Lit(s, ",\"sub\":");
    var (subject, s2) :- ParseString(s1);
    var s3 :- Lit(s2, ",\"name\":");
    var (name, s4) :- ParseString(s3);
    var s5 :- Lit(s4, ",\"rooms\":");
    var (rooms, s6) :- ReadArray(s5);
    Some(((subject, name, rooms), s6))
  }

  function Read(s: string): Option<Session>
  {
    var s1 :- Lit(s, "{\"v\":");
    var (version, s2) :- ParseInt(s1);
    var s3 :- Lit(s2, ",\"sid\":");
    var (sessionID, s4) :- ParseString(s3);
    var ((subject, name, rooms), s5) :- ReadWho(s4);
    var (issuedAt, expiresAt) :- ReadTimes(s5);
    Some(Session(version, sessionID, subject, name, rooms, issuedAt, expiresAt))
  }

  predicate Int64(n: int) { -INT64_LIMIT <= n < INT64_LIMIT }

  lemma TimesOk(p: Session)
    requires Int64(p.issuedAt) && Int64(p.expiresAt)
    ensures ReadTimes(PrintTimes(p)) == Some((p.issuedAt, p.expiresAt))
  {
    var b := ",\"exp\":" + (PrintInt(p.expiresAt) + "}");
    LitOk(",\"iat\":", PrintInt(p.issuedAt) + b);
    IntOk(p.issuedAt, b);
    LitOk(",\"exp\":", PrintInt(p.expiresAt) + "}");
    IntOk(p.expiresAt, "}");
  }

  lemma WhoOk(p: Session, rest: string)
    ensures ReadWho(PrintWho(p, rest)) == Some(((p.subject, p.displayName, p.rooms), rest))
  {
    var c := ",\"rooms\":" + PrintArray(p.rooms, rest);
    var b := ",\"name\":" + (PrintString(p.displayName) + c);
    LitOk(",\"sub\":", PrintString(p.subject) + b);
    StringOk(p.subject, b);
    LitOk(",\"name\":", PrintString(p.displayName) + c);
    StringOk(p.displayName, c);
    LitOk(",\"rooms\":", PrintArray(p.rooms, rest));
    ArrayOk(p.rooms, rest);
  }

  lemma ReadPrint(p: Session)
    requires Int64(p.version) && Int64(p.issuedAt) && Int64(p.expiresAt)
    ensures Read(Print(p)) == Some(p)
  {
    var c := PrintWho(p, PrintTimes(p));
    var b := ",\"sid\":" + (PrintString(p.sessionID) + c);
    LitOk("{\"v\":", PrintInt(p.version) + b);
    IntOk(p.version, b);
    LitOk(",\"sid\":", PrintString(p.sessionID) + c);
    StringOk(p.sessionID, c);
    WhoOk(p, PrintTimes(p));
    TimesOk(p);
  }

  // ---------------------------------------------------------------- signing

  function Encode(sign: string -> Digest, p: Session): Option<string>
  {
    var encoded := Base64.Encode(Utf8.Encode(Print(p)));
    var value := encoded + ("." + Base64.Encode(sign(encoded)));
    if |value| > MAX_COOKIE_BYTES then None else Some(value)
  }

  /** The parts before and after the first dot. */
  function Cut(s: string): Option<(string, string)>
  {
    if s == "" then None
    else if s[0] == '.' then Some(("", s[1..]))
    else
      var (a, b) :- Cut(s[1..]);
      Some(([s[0]] + a, b))
  }

  /** How the bytes of a payload are decoded. The source uses `encoding/json` and refuses unknown fields and trailing data;
      everything here holds for any decoder, or for any that reads back what is printed. */
  type Reader = seq<Utf8.byte> -> Option<Session>

  predicate Writable(p: Session) { Int64(p.version) && Int64(p.issuedAt) && Int64(p.expiresAt) }

  ghost predicate ReadsBack(read: Reader)
  {
    forall p :: Writable(p) ==> read(Utf8.Encode(Print(p))) == Some(p)
  }

  function ReadBytes(payload: seq<Utf8.byte>): Option<Session>
  {
    var text :- Utf8.Decode(payload);
    Read(text)
  }

  /** Such a decoder exists: printed sessions are unambiguous. */
  lemma ReadBytesReadsBack()
    ensures ReadsBack(ReadBytes)
  {
    forall p | Writable(p) ensures ReadBytes(Utf8.Encode(Print(p))) == Some(p) {
      Utf8.RoundTrip(Print(p));
      ReadPrint(p);
    }
  }

  function Decode(sign: string -> Digest, read: Reader, value: string): Option<Session>
  {
    var (encoded, signature) :- Cut(value);
    if encoded == "" || signature == "" || '.' in signature then None
    else
      var mac :- Base64.Decode(signature);
      if mac != sign(encoded) then None
      else
        var raw :- Base64.Decode(encoded);
        read(raw)
  }

  lemma {:induction false} CutOk(a: string, b: string)
    requires forall i :: 0 <= i < |a| ==> a[i] != '.'
    ensures Cut(a + ("." + b)) == Some((a, b))
    decreases |a|
  {
    if a == "" {
      assert a + ("." + b) == "." + b;
    } else {
      CutOk(a[1..], b);
      assert (a + ("." + b))[1..] == a[1..] + ("." + b);
      assert a == [a[0]] + a[1..];
    }
  }

  lemma {:induction false} CutSplits(s: string)
    requires Cut(s).Some?
    ensures var (a, b) := Cut(s).value; s == a + ("." + b) && '.' !in a
    decreases |s|
  {
    if s[0] == '.' {
      assert s == "" + ("." + s[1..]);
    } else {
      CutSplits(s[1..]);
      var (a, b) := Cut(s[1..]).value;
      assert s == [s[0]] + s[1..];
      assert [s[0]] + (a + ("." + b)) == ([s[0]] + a) + ("." + b);
    }
  }

  /** A cookie and what is in it: the text of the payload, the signature over that text, and the session the payload decodes to. */
  ghost predicate Carries(sign: string -> Digest, read: Reader, value: string, encoded: string, signature: string,
                          raw: seq<Utf8.byte>, p: Session)
  {
    && value == encoded + ("." + signature) && encoded != "" && signature != "" && '.' !in encoded && '.' !in signature
    && Base64.Decode(signature) == Some(sign(encoded)) && Base64.Decode(encoded) == Some(raw) && read(raw) == Some(p)
  }

  /** A cookie decodes to a session exactly when it carries it under a valid signature. */
  lemma DecodesExactlyWhen(sign: string -> Digest, read: Reader, value: string, p: Session)
    ensures Decode(sign, read, value) == Some(p) <==>
            exists encoded, signature, raw :: Carries(sign, read, value, encoded, signature, raw, p)
  {
    if Decode(sign, read, value) == Some(p) {
      var (encoded, signature) := Cut(value).value;
      CutSplits(value);
      assert Carries(sign, read, value, encoded, signature, Base64.Decode(encoded).value, p);
    }
    if exists encoded, signature, raw :: Carries(sign, read, value, encoded, signature, raw, p) {
      var encoded, signature, raw :| Carries(sign, read, value, encoded, signature, raw, p);
      CutOk(encoded, signature);
    }
  }

  lemma NoDot(b: seq<Utf8.byte>)
    ensures var s := Base64.Encode(b); (forall i :: 0 <= i < |s| ==> s[i] != '.') && '.' !in s && (b != [] ==> s != "")
  {
    Base64.EncodeAlphabet(b);
    Base64.EncodeLength(b);
  }

  /** Whatever the keyed hash, a cookie that was made reads back as what was put in. */
  lemma CookieRoundTrip(sign: string -> Digest, read: Reader, p: Session)
    requires ReadsBack(read) && Writable(p) && Encode(sign, p).Some?
    ensures Decode(sign, read, Encode(sign, p).value) == Some(p)
  {
    var raw := Utf8.Encode(Print(p));
    SignedParts(sign, raw);
    PrintIsNotEmpty(p);
    Base64.RoundTrip(raw);
    Base64.RoundTrip(sign(Base64.Encode(raw)));
  }

  lemma SignedParts(sign: string -> Digest, raw: seq<Utf8.byte>)
    ensures var encoded := Base64.Encode(raw);
            var signature := Base64.Encode(sign(encoded));
            Cut(encoded + ("." + signature)) == Some((encoded, signature)) && '.' !in signature && signature != ""
            && (raw != [] ==> encoded != "")
  {
    var encoded := Base64.Encode(raw);
    NoDot(raw);
    NoDot(sign(encoded));
    CutOk(encoded, Base64.Encode(sign(encoded)));
  }

  lemma PrintIsNotEmpty(p: Session)
    ensures Utf8.Encode(Print(p)) != []
  {
    assert Print(p)[0] == '{';
    Cat("{", Print(p)[1..]);
    OfAscii("{");
    assert Print(p) == "{" + Print(p)[1..];
  }

  // ---------------------------------------------------------------- the size bound

  lemma {:induction false} ItemsSize(rooms: seq<string>, rest: string)
    requires forall i :: 0 <= i < |rooms| ==> CanonicalRoom(rooms[i])
    ensures Bytes(PrintItems(rooms, rest)) <= 35 * |rooms| + Bytes(rest)
    decreases |rooms|
  {
    if rooms != [] {
      var tail := PrintItems(rooms[1..], rest);
      ItemsSize(rooms[1..], rest);
      RoomSize(rooms[0]);
      OfLit(",", PrintString(rooms[0]) + tail);
      Cat(PrintString(rooms[0]), tail);
    }
  }

  lemma RoomSize(room: string)
    requires CanonicalRoom(room)
    ensures Bytes(PrintString(room)) <= 34
  {
    assert forall i :: 0 <= i < |room| ==> RoomRune(room[i]);
    OfString(room);
  }

  lemma ArraySize(rooms: seq<string>, rest: string)
    requires 1 <= |rooms| <= MAX_ROOMS_PER_USER && forall i :: 0 <= i < |rooms| ==> CanonicalRoom(rooms[i])
    ensures Bytes(PrintArray(rooms, rest)) <= 2241 + Bytes(rest)
  {
    var tail := PrintItems(rooms[1..], "]" + rest);
    ItemsSize(rooms[1..], "]" + rest);
    RoomSize(rooms[0]);
    OfLit("[", PrintString(rooms[0]) + tail);
    Cat(PrintString(rooms[0]), tail);
    OfLit("]", rest);
  }

  lemma TimesSize(p: Session)
    requires Int64(p.issuedAt) && Int64(p.expiresAt)
    ensures Bytes(PrintTimes(p)) <= 55
  {
    var b := ",\"exp\":" + (PrintInt(p.expiresAt) + "}");
    OfLit(",\"iat\":", PrintInt(p.issuedAt) + b);
    Cat(PrintInt(p.issuedAt), b);
    OfInt(p.issuedAt);
    OfLit(",\"exp\":", PrintInt(p.expiresAt) + "}");
    Cat(PrintInt(p.expiresAt), "}");
    OfInt(p.expiresAt);
    OfAscii("}");
  }

  lemma UserIDSize(s: string)
    requires ValidUserID(s)
    ensures Bytes(PrintString(s)) <= 130
  {
    assert forall i :: 0 <= i < |s| ==> UserIDRune(s[i]);
    OfString(s);
  }

  lemma SubjectSize(subject: string, rest: string)
    requires ValidUserID(subject)
    ensures Bytes(",\"sub\":" + (PrintString(subject) + rest)) <= 137 + Bytes(rest)
  {
    OfLit(",\"sub\":", PrintString(subject) + rest);
    Cat(PrintString(subject), rest);
    UserIDSize(subject);
  }

  lemma NameSize(name: string, rest: string)
    requires |name| <= MAX_NAME_RUNES
    ensures Bytes(",\"name\":" + (PrintString(name) + rest)) <= 394 + Bytes(rest)
  {
    OfLit(",\"name\":", PrintString(name) + rest);
    Cat(PrintString(name), rest);
    OfString(name);
  }

  lemma RoomsSize(rooms: seq<string>, rest: string)
    requires 1 <= |rooms| <= MAX_ROOMS_PER_USER && CanonicalRooms(rooms)
    ensures Bytes(",\"rooms\":" + PrintArray(rooms, rest)) <= 2250 + Bytes(rest)
  {
    OfLit(",\"rooms\":", PrintArray(rooms, rest));
    ArraySize(rooms, rest);
  }

  lemma WhoSize(p: Session, rest: string)
    requires WellFormed(Template(p.subject, p.displayName, p.rooms))
    ensures Bytes(PrintWho(p, rest)) <= 2781 + Bytes(rest)
  {
    var c := ",\"rooms\":" + PrintArray(p.rooms, rest);
    SubjectSize(p.subject, ",\"name\":" + (PrintString(p.displayName) + c));
    NameSize(p.displayName, c);
    RoomsSize(p.rooms, rest);
  }

  lemma HeadSize(sessionID: string, rest: string)
    requires ValidSessionID(sessionID)
    ensures Bytes("{\"v\":" + (PrintInt(1) + (",\"sid\":" + (PrintString(sessionID) + rest)))) == 51 + Bytes(rest)
  {
    var b := ",\"sid\":" + (PrintString(sessionID) + rest);
    assert PrintInt(1) == "1";
    OfLit("{\"v\":", PrintInt(1) + b);
    OfLit("1", b);
    OfLit(",\"sid\":", PrintString(sessionID) + rest);
    Cat(PrintString(sessionID), rest);
    assert Plain(sessionID);
    OfString(sessionID);
  }

  /** `validOpaqueID` for sessions: the prefix and thirty-two hexadecimal digits. */
  predicate ValidSessionID(s: string)
  {
    |s| == 36 && SESSION_PREFIX <= s && forall i :: 4 <= i < 36 ==> HexValue(s[i]).Some?
  }

  lemma PrintSize(p: Session)
    requires p.version == PAYLOAD_VERSION && ValidSessionID(p.sessionID) && Int64(p.issuedAt) && Int64(p.expiresAt)
    requires WellFormed(Template(p.subject, p.displayName, p.rooms))
    ensures Bytes(Print(p)) <= 2887
  {
    HeadSize(p.sessionID, PrintWho(p, PrintTimes(p)));
    WhoSize(p, PrintTimes(p));
    TimesSize(p);
  }

  /** Every session of a well-formed principal fits in a cookie with room to spare, so the limit is never
      the reason for a refusal. */
  lemma CookieFits(sign: string -> Digest, p: Session)
    requires p.version == PAYLOAD_VERSION && ValidSessionID(p.sessionID) && Int64(p.issuedAt) && Int64(p.expiresAt)
    requires WellFormed(Template(p.subject, p.displayName, p.rooms))
    ensures Encode(sign, p).Some? && 0 < |Encode(sign, p).value| <= 3894
  {
    var raw := Utf8.Encode(Print(p));
    var encoded := Base64.Encode(raw);
    PrintSize(p);
    Base64.EncodeLength(raw);
    Base64.EncodeLength(sign(encoded));
  }
}
