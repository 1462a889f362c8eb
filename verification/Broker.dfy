/** Events on the wire and the Redis fan-out's decisions to publish and to accept
    (backend/internal/broker/redis.go, backend/internal/events/envelope.go). */
module Broker {
  import opened Text
  import opened Rooms
  import opened Clock
  import opened Json
  import opened Messages
  import opened Envelopes
  import Utf8

  // ---------------------------------------------------------------- the JSON text of an event

  /** The user id is left out when it is empty. */
  function PrintUser(userID: string, rest: string): string
  {
    if userID == "" then rest else ",\"user_id\":" + (PrintString(userID) + rest)
  }

  function PrintNames(m: Payload, rest: string): string
  {
    ",\"username\":" + (PrintString(m.username) +
    (",\"content\":" + (PrintString(m.content) +
    (",\"type\":" + (PrintString(m.kind) + rest)))))
  }

  function PrintMessage(m: Payload, rest: string): string
  {
    "{\"id\":" + (PrintInt(m.id) + PrintUser(m.userID, PrintNames(m, "}" + rest)))
  }

  function PrintRoute(e: Envelope, rest: string): string
  {
    ",\"room\":" + (PrintString(e.room) +
    (",\"origin_instance\":" + (PrintString(e.origin) + rest)))
  }

  function PrintStamp(t: Timestamp, rest: string): string
    requires Printable(t)
  {
    ",\"timestamp\":" + (PrintString(Format(t)) + rest)
  }

  function Print(e: Envelope): string
    requires Printable(e.timestamp)
  {
    "{\"schema\":" + (PrintString(e.schema) +
    (",\"version\":" + (PrintInt(e.version) +
    (",\"event_id\":" + (PrintString(e.eventID) +
    PrintRoute(e, PrintStamp(e.timestamp, ",\"message\":" + PrintMessage(e.message, "}"))))))))
  }

  function ReadUser(s: string): Option<(string, string)>
  {
    match Lit(s, ",\"user_id\":")
    case None => Some(("", s))
    case Some(t) => ParseString(t)
  }

  function ReadNames(s: string): Option<((string, string, string), string)>
  {
    var s1 :- Lit(s, ",\"username\":");
    var (username, s2) :- ParseString(s1);
    var s3 :- Lit(s2, ",\"content\":");
    var (content, s4) :- ParseString(s3);
    var s5 :- Lit(s4, ",\"type\":");
    var (kind, s6) :- ParseString(s5);
    Some(((username, content, kind), s6))
  }

  function ReadMessage(s: string): Option<(Payload, string)>
  {
    var s1 :- Lit(s, "{\"id\":");
    var (id, s2) :- ParseInt(s1);
    var (userID, s3) :- ReadUser(s2);
    var ((username, content, kind), s4) :- ReadNames(s3);
    var s5 :- Lit(s4, "}");
    Some((Payload(id, userID, username, content, kind), s5))
  }

  function ReadRoute(s: string): Option<((string, string), string)>
  {
    var s1 :- Lit(s, ",\"room\":");
    var (room, s2) :- ParseString(s1);
    var s3 :- Lit(s2, ",\"origin_instance\":");
    var (origin, s4) :- ParseString(s3);
    Some(((room, origin), s4))
  }

  function ReadStamp(s: string): Option<(Timestamp, string)>
  {
    var s1 :- Lit(s, ",\"timestamp\":");
    var (stamp, s2) :- ParseString(s1);
    var t :- Parse(stamp);
    Some((t, s2))
  }

  function ReadHead(s: string): Option<((string, int, string), string)>
  {
    var s1 :- Lit(s, "{\"schema\":");
    var (schema, s2) :- ParseString(s1);
    var s3 :- Lit(s2, ",\"version\":");
    var (version, s4) :- ParseInt(s3);
    var s5 :- Lit(s4, ",\"event_id\":");
    var (eventID, s6) :- ParseString(s5);
    Some(((schema, version, eventID), s6))
  }

  function Read(s: string): Option<Envelope>
  {
    var ((schema, version, eventID), s1) :- ReadHead(s);
    var ((room, origin), s2) :- ReadRoute(s1);
    var (timestamp, s3) :- ReadStamp(s2);
    var s4 :- Lit(s3, ",\"message\":");
    var (message, s5) :- ReadMessage(s4);
    if s5 == "}" then Some(Envelope(schema, version, eventID, room, origin, timestamp, message)) else None
  }

  lemma NamesOk(m: Payload, rest: string)
    ensures ReadNames(PrintNames(m, rest)) == Some(((m.username, m.content, m.kind), rest))
  {
    var c := ",\"type\":" + (PrintString(m.kind) + rest);
    var b := ",\"content\":" + (PrintString(m.content) + c);
    LitOk(",\"username\":", PrintString(m.username) + b);
    StringOk(m.username, b);
    LitOk(",\"content\":", PrintString(m.content) + c);
    StringOk(m.content, c);
    LitOk(",\"type\":", PrintString(m.kind) + rest);
    StringOk(m.kind, rest);
  }

  lemma UserOk(userID: string, m: Payload, rest: string)
    ensures ReadUser(PrintUser(userID, PrintNames(m, rest))) == Some((userID, PrintNames(m, rest)))
    ensures PrintUser(userID, PrintNames(m, rest))[0] == ','
  {
    if userID == "" {
      assert PrintNames(m, rest)[6] == 'n' && ",\"user_id\":"[6] == '_';
    } else {
      LitOk(",\"user_id\":", PrintString(userID) + PrintNames(m, rest));
      StringOk(userID, PrintNames(m, rest));
    }
  }

  lemma MessageOk(m: Payload, rest: string)
    requires -INT64_LIMIT <= m.id < INT64_LIMIT
    ensures ReadMessage(PrintMessage(m, rest)) == Some((m, rest))
  {
    var b := PrintUser(m.userID, PrintNames(m, "}" + rest));
    LitOk("{\"id\":", PrintInt(m.id) + b);
    UserOk(m.userID, m, "}" + rest);
    IntOk(m.id, b);
    NamesOk(m, "}" + rest);
    LitOk("}", rest);
  }

  lemma RouteOk(e: Envelope, rest: string)
    ensures ReadRoute(PrintRoute(e, rest)) == Some(((e.room, e.origin), rest))
  {
    var b := ",\"origin_instance\":" + (PrintString(e.origin) + rest);
    LitOk(",\"room\":", PrintString(e.room) + b);
    StringOk(e.room, b);
    LitOk(",\"origin_instance\":", PrintString(e.origin) + rest);
    StringOk(e.origin, rest);
  }

  lemma StampOk(t: Timestamp, rest: string)
    requires Printable(t)
    ensures ReadStamp(PrintStamp(t, rest)) == Some((t, rest))
  {
    LitOk(",\"timestamp\":", PrintString(Format(t)) + rest);
    StringOk(Format(t), rest);
    Clock.RoundTrip(t);
  }

  lemma HeadOk(schema: string, version: int, eventID: string, rest: string)
    requires 0 <= version < INT64_LIMIT
    ensures ReadHead("{\"schema\":" + (PrintString(schema) + (",\"version\":" + (PrintInt(version) +
                     (",\"event_id\":" + (PrintString(eventID) + rest))))))
         == Some(((schema, version, eventID), rest))
  {
    var b := ",\"event_id\":" + (PrintString(eventID) + rest);
    var a := ",\"version\":" + (PrintInt(version) + b);
    LitOk("{\"schema\":", PrintString(schema) + a);
    StringOk(schema, a);
    LitOk(",\"version\":", PrintInt(version) + b);
    IntOk(version, b);
    LitOk(",\"event_id\":", PrintString(eventID) + rest);
    StringOk(eventID, rest);
  }

  /** An event reads back as it was printed, with or without a user id. */
  lemma EventRoundTrip(e: Envelope)
    requires Printable(e.timestamp) && 0 <= e.version < INT64_LIMIT && -INT64_LIMIT <= e.message.id < INT64_LIMIT
    ensures Read(Print(e)) == Some(e)
  {
    var c := ",\"message\":" + PrintMessage(e.message, "}");
    var b := PrintStamp(e.timestamp, c);
    HeadOk(e.schema, e.version, e.eventID, PrintRoute(e, b));
    RouteOk(e, b);
    StampOk(e.timestamp, c);
    LitOk(",\"message\":", PrintMessage(e.message, "}"));
    MessageOk(e.message, "}");
  }

  // ---------------------------------------------------------------- publishing and accepting

  datatype Packet = Packet(channel: string, payload: seq<Utf8.byte>)

  /** A configured connection to the broker: its namespace and its instance id, both canonical. */
  datatype Fanout = Fanout(namespace: string, instance: string)

  predicate Configured(f: Fanout) { CanonicalToken(f.namespace) && CanonicalToken(f.instance) }

  /** `NewRedis` lower-cases and trims the two names and refuses what is then not a token. */
  function Configure(namespace: string, instance: string): (r: Option<Fanout>)
    ensures r.Some? ==> Configured(r.value)
  {
    var ns :- NormalizeToken(namespace);
    var id :- NormalizeToken(instance);
    Some(Fanout(ns, id))
  }

  /** How the bytes of a packet are decoded. The source uses `encoding/json`, which accepts more than one text for an
      event; everything here holds for any decoder, or for any that reads back what is printed. */
  type Reader = seq<Utf8.byte> -> Option<Envelope>

  predicate Writable(e: Envelope)
  {
    Printable(e.timestamp) && 0 <= e.version < INT64_LIMIT && -INT64_LIMIT <= e.message.id < INT64_LIMIT
  }

  ghost predicate ReadsBack(read: Reader)
  {
    forall e :: Writable(e) ==> read(Utf8.Encode(Print(e))) == Some(e)
  }

  function ReadBytes(payload: seq<Utf8.byte>): Option<Envelope>
  {
    var text :- Utf8.Decode(payload);
    Read(text)
  }

  /** Such a decoder exists: printed events are unambiguous. */
  lemma ReadBytesReadsBack()
    ensures ReadsBack(ReadBytes)
  {
    forall e | Writable(e) ensures ReadBytes(Utf8.Encode(Print(e))) == Some(e) {
      Utf8.RoundTrip(Print(e));
      EventRoundTrip(e);
    }
  }

  function Publish(f: Fanout, e: Envelope): Option<Packet>
  {
    if Validate(e).Some? || e.origin != f.instance then None
    else
      var channel :- Channel(f.namespace, e.room);
      if Printable(e.timestamp) then Some(Packet(channel, Utf8.Encode(Print(e)))) else None
  }

  function Accept(read: Reader, f: Fanout, p: Packet): Option<Envelope>
  {
    var e :- read(p.payload);
    if Validate(e).Some? || Channel(f.namespace, e.room) != Some(p.channel) then None else Some(e)
  }

  /** The events handed on, in the order their packets came. */
  function AllAccepted(read: Reader, f: Fanout, packets: seq<Packet>): seq<Envelope>
  {
    if packets == [] then []
    else
      var before := AllAccepted(read, f, packets[..|packets| - 1]);
      match Accept(read, f, packets[|packets| - 1])
      case None => before
      case Some(e) => before + [e]
  }

  /** The receive loop: whatever is not an acceptable event is skipped and the loop goes on. */
  method SubscribeOnce(read: Reader, f: Fanout, packets: seq<Packet>) returns (handled: seq<Envelope>)
    ensures handled == AllAccepted(read, f, packets)
  {
    handled := [];
    for i := 0 to |packets|
      invariant handled == AllAccepted(read, f, packets[..i])
    {
      assert packets[..i + 1][..i] == packets[..i];
      var e := read(packets[i].payload);
      if e.None? {
        continue;
      }
      if Validate(e.value).Some? {
        continue;
      }
      var channel := Channel(f.namespace, e.value.room);
      if channel.None? || channel.value != packets[i].channel {
        continue;
      }
      handled := handled + [e.value];
    }
    assert packets[..|packets|] == packets;
  }

  /** Everything accepted is valid, whatever was sent, so its message is for a canonical room. */
  lemma AcceptedIsSendable(read: Reader, f: Fanout, p: Packet)
    requires Accept(read, f, p).Some?
    ensures var e := Accept(read, f, p).value;
            Sendable(ToMessage(e)) && ValidEventID(e.eventID) && CanonicalToken(e.origin)
  {
    ValidExactlyWhen(Accept(read, f, p).value);
  }

  /** The messages that can reach a hub from the broker: those of the events some subscriber accepts. */
  ghost predicate Arrives(m: Message)
  {
    exists read: Reader, f, p :: Accept(read, f, p).Some? && m == ToMessage(Accept(read, f, p).value)
  }

  lemma ArrivalsHaveRooms(m: Message)
    requires Arrives(m)
    ensures CanonicalRoom(m.room)
  {
    var read: Reader, f, p :| Accept(read, f, p).Some? && m == ToMessage(Accept(read, f, p).value);
    AcceptedIsSendable(read, f, p);
  }

  lemma PublishedPacket(f: Fanout, e: Envelope)
    requires Configured(f) && Validate(e).None? && e.origin == f.instance && Printable(e.timestamp)
    ensures Publish(f, e) == Some(Packet(CHANNEL_PREFIX + (f.namespace + (ROOM_MARK + e.room)), Utf8.Encode(Print(e))))
    ensures Channel(f.namespace, e.room) == Some(CHANNEL_PREFIX + (f.namespace + (ROOM_MARK + e.room)))
  {
    ValidExactlyWhen(e);
    CanonicalChannel(f.namespace, e.room);
  }

  lemma AcceptsPublished(read: Reader, g: Fanout, channel: string, e: Envelope)
    requires ReadsBack(read) && Validate(e).None? && Printable(e.timestamp) && e.message.id < INT64_LIMIT
    ensures Accept(read, g, Packet(channel, Utf8.Encode(Print(e))))
         == if Channel(g.namespace, e.room) == Some(channel) then Some(e) else None
  {
    Refusals(e);
    assert Writable(e);
  }

  /** Producers and consumers agree: what one instance publishes, another accepts, unchanged, if and
      only if it has the same namespace. */
  lemma AcceptedExactlyInNamespace(read: Reader, f: Fanout, g: Fanout, e: Envelope)
    requires ReadsBack(read) && Configured(f) && Configured(g) && e.message.id < INT64_LIMIT && Publish(f, e).Some?
    ensures Accept(read, g, Publish(f, e).value) == if g.namespace == f.namespace then Some(e) else None
  {
    PublishedPacket(f, e);
    var channel := Publish(f, e).value.channel;
    AcceptsPublished(read, g, channel, e);
    ValidExactlyWhen(e);
    ChannelIsInjective(f.namespace, e.room, g.namespace, e.room);
  }

  /** A message with a positive id and a time, whose other fields a client sets properly, gives an
      event that is built, published, and accepted by every instance of the namespace as the same message. */
  lemma SendableArrives(read: Reader, f: Fanout, g: Fanout, m: Message, eventID: string)
    requires ReadsBack(read) && Configured(f) && Configured(g) && f.namespace == g.namespace && ValidEventID(eventID)
    requires Sendable(m) && Printable(m.timestamp) && m.id < INT64_LIMIT
    ensures var e := ToEvent(m, eventID, f.instance);
            && New(eventID, m.room, f.instance, Payload(m.id, m.userID, m.username, m.content, m.kind), m.timestamp) == Ok(e)
            && Publish(f, e).Some? && Accept(read, g, Publish(f, e).value) == Some(e) && ToMessage(e) == m
  {
    var e := ToEvent(m, eventID, f.instance);
    ValidExactlyWhen(e);
    PublishedPacket(f, e);
    AcceptedExactlyInNamespace(read, f, g, e);
  }

  /** Which packets are accepted as which event: those that read as it, if it is of this schema and version 1, its message can be
      sent, its identifiers are well formed, and it came on the channel of its room in the subscriber's namespace. */
  lemma AcceptsExactlyWhen(read: Reader, f: Fanout, p: Packet, e: Envelope)
    requires Configured(f)
    ensures Accept(read, f, p) == Some(e) <==>
            && read(p.payload) == Some(e) && e.schema == "chatster.room-message" && e.version == 1
            && ValidEventID(e.eventID) && CanonicalToken(e.origin) && Sendable(ToMessage(e))
            && p.channel == "chatster:v1:" + (f.namespace + (":room:" + e.room))
  {
    ValidExactlyWhen(e);
    if CanonicalRoom(e.room) {
      CanonicalChannel(f.namespace, e.room);
    }
  }

  /** What is published: a valid event of this instance whose time has four digits for the year, as JSON, on the channel of
      its room. */
  lemma PublishesExactlyWhen(f: Fanout, e: Envelope, p: Packet)
    requires Configured(f)
    ensures Publish(f, e) == Some(p) <==>
            && Validate(e).None? && e.origin == f.instance && Printable(e.timestamp)
            && p.channel == "chatster:v1:" + (f.namespace + (":room:" + e.room)) && p.payload == Utf8.Encode(Print(e))
  {
    if Validate(e).None? && e.origin == f.instance && Printable(e.timestamp) {
      PublishedPacket(f, e);
    }
  }

  /** The message of an event and the event of a message, field by field. */
  lemma EventFields(m: Message, eventID: string, origin: string)
    ensures var e := ToEvent(m, eventID, origin);
            && e.eventID == eventID && e.origin == origin && e.room == m.room && e.timestamp == m.timestamp
            && e.message.id == m.id && e.message.userID == m.userID && e.message.username == m.username
            && e.message.content == m.content && e.message.kind == m.kind && ToMessage(e) == m
  {
  }

  /** The loop treats the packets one after the other, in order. */
  lemma {:induction false} AcceptedInOrder(read: Reader, f: Fanout, a: seq<Packet>, b: seq<Packet>)
    ensures AllAccepted(read, f, a + b) == AllAccepted(read, f, a) + AllAccepted(read, f, b)
    decreases |b|
  {
    if b == [] {
      assert a + b == a;
    } else {
      AcceptedInOrder(read, f, a, b[..|b| - 1]);
      assert (a + b)[..|a + b| - 1] == a + b[..|b| - 1] && (a + b)[|a + b| - 1] == b[|b| - 1];
    }
  }

  /** And hands on a packet alone exactly if it is accepted. */
  lemma AcceptedAlone(read: Reader, f: Fanout, p: Packet)
    ensures AllAccepted(read, f, [p]) == match Accept(read, f, p) case None => [] case Some(e) => [e]
  {
    assert [p][..0] == [];
  }
}
