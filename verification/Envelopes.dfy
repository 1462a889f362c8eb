/** Cross-instance events: what a producer builds, what a consumer accepts, and the channels
    they meet on (backend/internal/events/envelope.go). */
module Envelopes {
  import opened Text
  import opened Rooms
  import opened Clock
  import opened Messages

  const SCHEMA := "chatster.room-message"
  const SCHEMA_VERSION := 1
  const MAX_TOKEN_RUNES := 64
  const MAX_EVENT_ID_RUNES := 128
  const MAX_USER_ID := 128

  datatype Payload = Payload(id: int, userID: string, username: string, content: string, kind: string)

  datatype Envelope = Envelope(
    schema: string, version: int, eventID: string, room: string, origin: string, timestamp: Timestamp, message: Payload)

  datatype EventError =
    | BadSchema | BadVersion | BadEventID | NoTimestamp | BadRoom | BadOrigin
    | BadMessageID | BadUserID | NoUsername | NoContent | NotDurable

  predicate TokenRune(c: char) { IsLower(c) || IsDigit(c) || c == '_' || c == '-' }

  predicate CanonicalToken(s: string)
  {
    0 < |s| <= MAX_TOKEN_RUNES && forall i :: 0 <= i < |s| ==> TokenRune(s[i])
  }

  function NormalizeToken(raw: string): (r: Option<string>)
    ensures r.Some? ==> CanonicalToken(r.value)
  {
    var value := ToLower(TrimSpace(raw));
    if value == "" || |value| > MAX_TOKEN_RUNES then None
    else if exists i :: 0 <= i < |value| && !TokenRune(value[i]) then None
    else Some(value)
  }

  /** Normalisation fixes exactly the canonical tokens. */
  lemma TokenFixesExactlyCanonical(s: string)
    ensures NormalizeToken(s) == Some(s) <==> CanonicalToken(s)
  {
    if CanonicalToken(s) {
      assert forall i :: 0 <= i < |s| ==> TokenRune(s[i]) && !IsSpace(s[i]);
      assert ToLower(s) == s;
    }
  }

  /** What every name becomes: the lower-cased core of one that is not blank, if that is one to sixty-four small letters, digits,
      hyphens and underscores; everything else is refused. */
  lemma TokenExactlyWhen(raw: string, r: string)
    ensures NormalizeToken(raw) == Some(r) <==>
            && 1 <= |r| <= 64 && (forall i :: 0 <= i < |r| ==> r[i] in LOWER_CASE + NUMERALS + "_-")
            && exists i, j :: IsLoweredCore(raw, i, j, r)
  {
    LoweredCoreExactlyWhen(raw, r);
    forall i | 0 <= i < |r| ensures TokenRune(r[i]) <==> r[i] in LOWER_CASE + NUMERALS + "_-" {
      RuneTable(r[i]);
    }
  }

  predicate UserIDRune(c: char) { IsLetter(c) || IsDigit(c) || c == '.' || c == '_' || c == ':' || c == '-' }

  /** The source bounds the length in bytes; every accepted rune is one byte. */
  predicate ValidUserID(s: string)
  {
    0 < |s| <= MAX_USER_ID && forall i :: 0 <= i < |s| ==> UserIDRune(s[i])
  }

  predicate EventIDAccepted(s: string) { s != "" && s == TrimSpace(s) && |s| <= MAX_EVENT_ID_RUNES }

  predicate UserIDAccepted(s: string) { s == "" || (ValidUserID(s) && s == TrimSpace(s)) }

  function Validate(e: Envelope): (r: Option<EventError>)
  {
    if e.schema != SCHEMA then Some(BadSchema)
    else if e.version != SCHEMA_VERSION then Some(BadVersion)
    else if !EventIDAccepted(e.eventID) then Some(BadEventID)
    else if e.timestamp == ZERO then Some(NoTimestamp)
    else if NormalizeRoom(e.room) != Ok(e.room) then Some(BadRoom)
    else if NormalizeToken(e.origin) != Some(e.origin) then Some(BadOrigin)
    else if e.message.id <= 0 then Some(BadMessageID)
    else if !UserIDAccepted(e.message.userID) then Some(BadUserID)
    else if TrimSpace(e.message.username) == "" then Some(NoUsername)
    else if e.message.content == "" then Some(NoContent)
    else if e.message.kind == "" || e.message.kind == "username" then Some(NotDurable)
    else None
  }

  function New(eventID: string, room: string, origin: string, message: Payload, timestamp: Timestamp): Result<Envelope, EventError>
  {
    var e := Envelope(SCHEMA, SCHEMA_VERSION, eventID, room, origin, timestamp, message);
    match Validate(e)
    case Some(error) => Err(error)
    case None => Ok(e)
  }

  predicate ValidEventID(s: string) { 1 <= |s| <= 128 && Trimmed(s) }

  /** What a message must be for its event to be valid, stated without the validator. */
  predicate Sendable(m: Message)
  {
    && m.id > 0 && m.timestamp != ZERO && CanonicalRoom(m.room)
    && (m.userID == "" || ValidUserID(m.userID))
    && !Blank(m.username) && m.content != "" && m.kind != "" && m.kind != "username"
  }

  /** The event for a message (`queueBrokerMessage`), and the message of an event (`handleRemoteEvent`). */
  function ToEvent(m: Message, eventID: string, origin: string): Envelope
  {
    Envelope(SCHEMA, SCHEMA_VERSION, eventID, m.room, origin, m.timestamp,
             Payload(m.id, m.userID, m.username, m.content, m.kind))
  }

  function ToMessage(e: Envelope): Message
  {
    Message(e.message.id, e.message.userID, e.message.username, e.message.content, e.message.kind, e.room, e.timestamp)
  }

  lemma IdentifiersAccepted(s: string)
    ensures EventIDAccepted(s) <==> ValidEventID(s)
    ensures UserIDAccepted(s) <==> s == "" || ValidUserID(s)
  {
    if ValidUserID(s) {
      assert UserIDRune(s[0]) && UserIDRune(s[|s| - 1]);
    }
  }

  lemma Refusals(e: Envelope)
    ensures Validate(e).None? <==>
            && e.schema == SCHEMA && e.version == SCHEMA_VERSION && EventIDAccepted(e.eventID) && e.timestamp != ZERO
            && NormalizeRoom(e.room) == Ok(e.room) && NormalizeToken(e.origin) == Some(e.origin) && e.message.id > 0
            && UserIDAccepted(e.message.userID) && TrimSpace(e.message.username) != "" && e.message.content != ""
            && e.message.kind != "" && e.message.kind != "username"
  {
  }

  /** An event is valid exactly when its message is sendable and its two identifiers are well formed. */
  lemma ValidExactlyWhen(e: Envelope)
    ensures Validate(e).None? <==>
            && e == ToEvent(ToMessage(e), e.eventID, e.origin) && ValidEventID(e.eventID) && CanonicalToken(e.origin)
            && Sendable(ToMessage(e))
  {
    Refusals(e);
    NormalizeFixesExactlyCanonical(e.room);
    TokenFixesExactlyCanonical(e.origin);
    IdentifiersAccepted(e.eventID);
    IdentifiersAccepted(e.message.userID);
  }

  /** User ids are one to a hundred and twenty-eight letters, digits, dots, underscores, colons and hyphens. */
  lemma UserIDExactlyWhen(s: string)
    ensures ValidUserID(s) <==>
            1 <= |s| <= 128 && forall i :: 0 <= i < |s| ==> s[i] in UPPER_CASE + LOWER_CASE + NUMERALS + "._:-"
  {
    forall i | 0 <= i < |s| ensures UserIDRune(s[i]) <==> s[i] in UPPER_CASE + LOWER_CASE + NUMERALS + "._:-" {
      UserIDRuneTable(s[i]);
    }
  }

  lemma UserIDRuneTable(c: char)
    ensures UserIDRune(c) <==> c in UPPER_CASE + LOWER_CASE + NUMERALS + "._:-"
  {
    UpperTable(c);
    LowerTable(c);
    NumeralTable(c);
    assert c in UPPER_CASE + LOWER_CASE + NUMERALS <==> c in UPPER_CASE || c in LOWER_CASE || c in NUMERALS;
    assert c in UPPER_CASE + LOWER_CASE + NUMERALS + "._:-" <==>
           c in UPPER_CASE + LOWER_CASE + NUMERALS || c == '.' || c == '_' || c == ':' || c == '-';
  }

  // ---------------------------------------------------------------- channels

  const CHANNEL_PREFIX := "chatster:v1:"
  const ROOM_MARK := ":room:"

  function Channel(namespace: string, room: string): Option<string>
  {
    var ns :- NormalizeToken(namespace);
    match NormalizeRoom(room)
    case Err(_) => None
    case Ok(r) => Some(CHANNEL_PREFIX + (ns + (ROOM_MARK + r)))
  }

  /** The subscription pattern, without the star it ends in. A namespace holds no pattern character, so
      the pattern matches exactly the channels that start so. */
  function PatternStem(namespace: string): Option<string>
  {
    var ns :- NormalizeToken(namespace);
    Some(CHANNEL_PREFIX + (ns + ROOM_MARK))
  }

  lemma SplitAtMark(a: string, x: string, b: string, y: string)
    requires (forall i :: 0 <= i < |a| ==> a[i] != ':') && (forall i :: 0 <= i < |b| ==> b[i] != ':')
    requires a + (":" + x) == b + (":" + y)
    ensures a == b && x == y
  {
    var s, t := a + (":" + x), b + (":" + y);
    assert s[|a|] == ':' && t[|b|] == ':';
    assert a == s[..|a|] && b == t[..|b|];
    assert x == s[|a| + 1..] && y == t[|b| + 1..];
  }

  lemma TokenHasNoMark(s: string)
    requires CanonicalToken(s)
    ensures forall i :: 0 <= i < |s| ==> s[i] != ':'
  {
  }

  lemma DropPrefix(p: string, a: string, b: string)
    requires p + a == p + b
    ensures a == b
  {
    assert a == (p + a)[|p|..] && b == (p + b)[|p|..];
  }

  lemma CanonicalChannel(namespace: string, room: string)
    requires CanonicalToken(namespace) && CanonicalRoom(room)
    ensures Channel(namespace, room) == Some(CHANNEL_PREFIX + (namespace + (ROOM_MARK + room)))
    ensures PatternStem(namespace) == Some(CHANNEL_PREFIX + (namespace + ROOM_MARK))
  {
    TokenFixesExactlyCanonical(namespace);
    CanonicalIsFixed(room);
  }

  /** Channel names are injective in namespace and room. */
  lemma ChannelIsInjective(n1: string, r1: string, n2: string, r2: string)
    requires CanonicalToken(n1) && CanonicalToken(n2) && CanonicalRoom(r1) && CanonicalRoom(r2)
    ensures Channel(n1, r1) == Channel(n2, r2) <==> n1 == n2 && r1 == r2
  {
    CanonicalChannel(n1, r1);
    CanonicalChannel(n2, r2);
    if Channel(n1, r1) == Channel(n2, r2) {
      DropPrefix(CHANNEL_PREFIX, n1 + (ROOM_MARK + r1), n2 + (ROOM_MARK + r2));
      MarkedSplit(n1, r1, n2, r2);
    }
  }

  lemma MarkedSplit(n1: string, x1: string, n2: string, x2: string)
    requires CanonicalToken(n1) && CanonicalToken(n2) && n1 + (ROOM_MARK + x1) == n2 + (ROOM_MARK + x2)
    ensures n1 == n2 && x1 == x2
  {
    assert ROOM_MARK + x1 == ":" + ("room:" + x1) && ROOM_MARK + x2 == ":" + ("room:" + x2);
    TokenHasNoMark(n1);
    TokenHasNoMark(n2);
    SplitAtMark(n1, "room:" + x1, n2, "room:" + x2);
    DropPrefix("room:", x1, x2);
  }

  /** Whether the broker delivers what is published on a channel to a subscriber's pattern. */
  predicate Hears(subscriber: string, channel: Option<string>)
  {
    PatternStem(subscriber).Some? && channel.Some? && PatternStem(subscriber).value <= channel.value
  }

  lemma StemOfChannel(ns: string, rest: string)
    ensures CHANNEL_PREFIX + (ns + ROOM_MARK) + rest == CHANNEL_PREFIX + (ns + (ROOM_MARK + rest))
  {
  }

  /** A subscriber is sent the events of its own namespace and of no other. */
  lemma HearsExactlyItsNamespace(subscriber: string, publisher: string, room: string)
    requires CanonicalToken(subscriber) && CanonicalToken(publisher) && CanonicalRoom(room)
    ensures Hears(subscriber, Channel(publisher, room)) <==> subscriber == publisher
  {
    CanonicalChannel(subscriber, room);
    CanonicalChannel(publisher, room);
    StemOfChannel(subscriber, room);
    if Hears(subscriber, Channel(publisher, room)) {
      StemSplits(subscriber, publisher, room);
    }
  }

  lemma StemSplits(subscriber: string, publisher: string, room: string)
    requires CanonicalToken(subscriber) && CanonicalToken(publisher)
    requires CHANNEL_PREFIX + (subscriber + ROOM_MARK) <= CHANNEL_PREFIX + (publisher + (ROOM_MARK + room))
    ensures subscriber == publisher
  {
    var stem, channel := CHANNEL_PREFIX + (subscriber + ROOM_MARK), CHANNEL_PREFIX + (publisher + (ROOM_MARK + room));
    var rest := channel[|stem|..];
    assert channel == stem + rest;
    StemOfChannel(subscriber, rest);
    DropPrefix(CHANNEL_PREFIX, subscriber + (ROOM_MARK + rest), publisher + (ROOM_MARK + room));
    MarkedSplit(subscriber, rest, publisher, room);
  }
}
