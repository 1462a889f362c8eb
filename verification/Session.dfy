/** The session service (backend/internal/auth/session.go): access tokens are exchanged for signed
    cookies, cookies for principals, and principals are let into the rooms they were granted. Times are nanoseconds
    since the epoch. */
module Session {
  import opened Text
  import opened Rooms
  import opened Principals
  import opened SessionCookie
  import Json
  import Sizes
  import Utf8
  import Base64

  const SECOND := 1_000_000_000
  const MINUTE := 60 * SECOND
  const DEFAULT_TTL := 3600 * SECOND
  const MIN_TTL := 60 * SECOND
  const MAX_TTL := 86400 * SECOND
  const MIN_SECRET_BYTES := 32
  const MIN_TOKEN_BYTES := 32
  const MAX_TOKEN_BYTES := 512

  datatype Credential = Credential(token: string, userID: string, displayName: string, rooms: seq<string>)

  datatype Config = Config(mode: string, secret: string, ttl: int, credentialsJSON: string)

  /** SHA-256 and HMAC, of which nothing is assumed. */
  datatype Crypto = Crypto(hash: string -> Digest, hmac: (string, string) -> Digest)

  /** How JSON is decoded to a session and to credentials. */
  datatype Decoders = Decoders(session: SessionCookie.Reader, credentials: string -> Option<seq<Credential>>)

  datatype Service =
    | Open
    | Signed(crypto: Crypto, read: SessionCookie.Reader, secret: string, ttl: int, credentials: map<Digest, Template>)

  datatype Principal =
    | Anonymous
    | User(userID: string, displayName: string, rooms: seq<string>, sessionID: string, expiresAt: int)

  datatype AuthError =
    | BadConfig | AuthDisabled | InvalidToken | NoRandomness | TooLargeForCookie
    | SessionRequired | InvalidSession | ExpiredSession | RoomDenied

  predicate NoWhitespace(s: string) { forall i :: 0 <= i < |s| ==> s[i] !in " \t\r\n" }

  predicate TokenShape(token: string)
  {
    MIN_TOKEN_BYTES <= Sizes.Bytes(token) <= MAX_TOKEN_BYTES && NoWhitespace(token)
  }

  /** What a credential is good for, if it is acceptable. */
  function Accept(c: Credential): Option<Template>
  {
    if !TokenShape(c.token) || TrimSpace(c.token) != c.token then None
    else Normalize(c.userID, c.displayName, c.rooms)
  }

  type Accepter = Credential -> Option<Template>

  /** The credentials as a table from token hashes to normalised principals; none if any is refused. */
  function Table(hash: string -> Digest, accept: Accepter, credentials: seq<Credential>): Option<map<Digest, Template>>
  {
    if credentials == [] then Some(map[])
    else
      var before :- Table(hash, accept, credentials[..|credentials| - 1]);
      Enter(hash, accept, before, credentials[|credentials| - 1])
  }

  function Enter(hash: string -> Digest, accept: Accepter, table: map<Digest, Template>, c: Credential)
    : Option<map<Digest, Template>>
  {
    var t :- accept(c);
    if hash(c.token) in table then None else Some(table[hash(c.token) := t])
  }

  function TtlOf(ttl: int): int { if ttl == 0 then DEFAULT_TTL else ttl }

  /** The credentials in their JSON text; there must be some. */
  function DecodeCredentials(decoders: Decoders, raw: string): Option<seq<Credential>>
  {
    if TrimSpace(raw) == "" then None
    else
      var credentials :- decoders.credentials(raw);
      if credentials == [] then None else Some(credentials)
  }

  function Configure(crypto: Crypto, decoders: Decoders, cfg: Config): Result<Service, AuthError>
  {
    var mode := ToLower(TrimSpace(cfg.mode));
    if mode == "" || mode == "anonymous" then Ok(Open)
    else if mode != "session" || Sizes.Bytes(cfg.secret) < MIN_SECRET_BYTES then Err(BadConfig)
    else if TtlOf(cfg.ttl) < MIN_TTL || TtlOf(cfg.ttl) > MAX_TTL then Err(BadConfig)
    else
      match DecodeCredentials(decoders, cfg.credentialsJSON)
      case None => Err(BadConfig)
      case Some(credentials) =>
        match Table(crypto.hash, Accept, credentials)
        case None => Err(BadConfig)
        case Some(table) => Ok(Signed(crypto, decoders.session, cfg.secret, TtlOf(cfg.ttl), table))
  }

  lemma {:induction false} RefusedTable(hash: string -> Digest, accept: Accepter, credentials: seq<Credential>, i: nat)
    requires i <= |credentials| && Table(hash, accept, credentials[..i]).None?
    ensures Table(hash, accept, credentials).None?
    decreases |credentials|
  {
    if i == |credentials| {
      assert credentials[..i] == credentials;
    } else {
      assert credentials[..|credentials| - 1][..i] == credentials[..i];
      RefusedTable(hash, accept, credentials[..|credentials| - 1], i);
    }
  }

  method New(crypto: Crypto, decoders: Decoders, cfg: Config) returns (r: Result<Service, AuthError>)
    ensures r == Configure(crypto, decoders, cfg)
  {
    var mode := ToLower(TrimSpace(cfg.mode));
    if mode == "" {
      mode := "anonymous";
    }
    if mode == "anonymous" {
      return Ok(Open);
    }
    if mode != "session" || Sizes.Bytes(cfg.secret) < MIN_SECRET_BYTES {
      return Err(BadConfig);
    }
    var ttl := cfg.ttl;
    if ttl == 0 {
      ttl := DEFAULT_TTL;
    }
    if ttl < MIN_TTL || ttl > MAX_TTL {
      return Err(BadConfig);
    }
    var credentials := DecodeCredentials(decoders, cfg.credentialsJSON);
    if credentials.None? {
      return Err(BadConfig);
    }
    var table := FillTable(crypto.hash, credentials.value);
    if table.None? {
      return Err(BadConfig);
    }
    return Ok(Signed(crypto, decoders.session, cfg.secret, ttl, table.value));
  }

  method FillTable(hash: string -> Digest, credentials: seq<Credential>) returns (r: Option<map<Digest, Template>>)
    ensures r == Table(hash, Accept, credentials)
  {
    var table: map<Digest, Template> := map[];
    for i := 0 to |credentials|
      invariant Table(hash, Accept, credentials[..i]) == Some(table)
    {
      var c := credentials[i];
      assert credentials[..i + 1][..i] == credentials[..i] && credentials[..i + 1][i] == c;
      var template := NormalizePrincipal(c.userID, c.displayName, c.rooms);
      if !TokenShape(c.token) || TrimSpace(c.token) != c.token || template.None? || hash(c.token) in table {
        RefusedTable(hash, Accept, credentials, i + 1);
        return None;
      }
      table := table[hash(c.token) := template.value];
    }
    assert credentials[..|credentials|] == credentials;
    return Some(table);
  }

  // ---------------------------------------------------------------- sessions

  function Seconds(t: int): int { t / SECOND }

  function Sign(s: Service): string -> Digest
    requires s.Signed?
  {
    (message: string) => s.crypto.hmac(s.secret, message)
  }

  function SessionOf(t: Template, sessionID: string, now: int, ttl: int): SessionCookie.Session
  {
    SessionCookie.Session(PAYLOAD_VERSION, sessionID, t.userID, t.displayName, t.rooms,
                          Seconds(now), Seconds(Seconds(now) * SECOND + ttl))
  }

  function HexText(raw: seq<Utf8.byte>): string
  {
    if raw == [] then "" else [Json.HexChar(raw[0] / 16), Json.HexChar(raw[0] % 16)] + HexText(raw[1..])
  }

  function NewSessionID(raw: seq<Utf8.byte>): string { SESSION_PREFIX + HexText(raw) }

  lemma {:induction false} HexTextIsHex(raw: seq<Utf8.byte>)
    ensures |HexText(raw)| == 2 * |raw| && forall i :: 0 <= i < |HexText(raw)| ==> Json.HexValue(HexText(raw)[i]).Some?
    decreases |raw|
  {
    if raw != [] {
      HexTextIsHex(raw[1..]);
    }
  }

  lemma NewSessionIDIsValid(raw: seq<Utf8.byte>)
    requires |raw| == 16
    ensures ValidSessionID(NewSessionID(raw))
  {
    HexTextIsHex(raw);
    var s := NewSessionID(raw);
    assert forall i :: 4 <= i < 36 ==> s[i] == HexText(raw)[i - 4];
  }

  /** `random` is what the random source yields, sixteen bytes or an error. */
  function Exchange(s: Service, token: string, random: Option<seq<Utf8.byte>>, now: int): Result<(Principal, string), AuthError>
  {
    if s.Open? then Err(AuthDisabled)
    else if !TokenShape(token) || s.crypto.hash(token) !in s.credentials then Err(InvalidToken)
    else if random.None? then Err(NoRandomness)
    else Issue(Sign(s), s.credentials[s.crypto.hash(token)], NewSessionID(random.value), now, s.ttl)
  }

  function Issue(sign: string -> Digest, t: Template, id: string, now: int, ttl: int): Result<(Principal, string), AuthError>
  {
    match Encode(sign, SessionOf(t, id, now, ttl))
    case None => Err(TooLargeForCookie)
    case Some(value) => Ok((User(t.userID, t.displayName, t.rooms, id, Seconds(now) * SECOND + ttl), value))
  }

  function Check(p: SessionCookie.Session, ttl: int, now: int): Result<Principal, AuthError>
  {
    match Normalize(p.subject, p.displayName, p.rooms)
    case None => Err(InvalidSession)
    case Some(t) =>
      if p.version != PAYLOAD_VERSION || !ValidSessionID(p.sessionID) then Err(InvalidSession)
      else if p.expiresAt * SECOND <= now then Err(ExpiredSession)
      else if p.issuedAt <= 0 || p.expiresAt <= p.issuedAt || p.issuedAt * SECOND > now + MINUTE then Err(InvalidSession)
      else if (p.expiresAt - p.issuedAt) * SECOND > ttl + SECOND then Err(InvalidSession)
      else Ok(User(t.userID, t.displayName, t.rooms, p.sessionID, p.expiresAt * SECOND))
  }

  function Authenticate(s: Service, cookie: Option<string>, now: int): Result<Principal, AuthError>
  {
    if s.Open? then Ok(Anonymous)
    else if cookie.None? then Err(SessionRequired)
    else if cookie.value == "" || |cookie.value| > MAX_COOKIE_BYTES then Err(InvalidSession)
    else
      match Decode(Sign(s), s.read, cookie.value)
      case None => Err(InvalidSession)
      case Some(p) => Check(p, s.ttl, now)
  }

  function Admit(p: Principal, room: string): Result<Principal, AuthError>
  {
    match NormalizeRoom(room)
    case Err(_) => Err(RoomDenied)
    case Ok(r) => if p.Anonymous? || r in p.rooms then Ok(p) else Err(RoomDenied)
  }

  function Authorize(s: Service, cookie: Option<string>, room: string, now: int): Result<Principal, AuthError>
  {
    match Authenticate(s, cookie, now)
    case Err(e) => Err(e)
    case Ok(p) => Admit(p, room)
  }

  // ---------------------------------------------------------------- what is configured

  ghost predicate AllAccepted(accept: Accepter, credentials: seq<Credential>)
  {
    forall i :: 0 <= i < |credentials| ==> accept(credentials[i]).Some?
  }

  ghost predicate HashesDiffer(hash: string -> Digest, credentials: seq<Credential>)
  {
    forall i, j :: 0 <= i < j < |credentials| ==> hash(credentials[i].token) != hash(credentials[j].token)
  }

  predicate EntryOk(hash: string -> Digest, accept: Accepter, table: map<Digest, Template>, c: Credential)
  {
    hash(c.token) in table && accept(c) == Some(table[hash(c.token)])
  }

  /** The table maps each token's hash to its principal and holds nothing else. */
  ghost predicate Entries(hash: string -> Digest, accept: Accepter, credentials: seq<Credential>, table: map<Digest, Template>)
  {
    && (forall i :: 0 <= i < |credentials| ==> EntryOk(hash, accept, table, credentials[i]))
    && (forall d :: d in table ==> exists i :: 0 <= i < |credentials| && hash(credentials[i].token) == d)
  }

  lemma EntriesGrow(
    hash: string -> Digest, accept: Accepter, front: seq<Credential>, table: map<Digest, Template>, c: Credential)
    requires Entries(hash, accept, front, table) && Enter(hash, accept, table, c).Some?
    ensures Entries(hash, accept, front + [c], Enter(hash, accept, table, c).value)
  {
    var all, after := front + [c], Enter(hash, accept, table, c).value;
    forall i | 0 <= i < |all| ensures EntryOk(hash, accept, after, all[i]) {
      assert i < |front| ==> EntryOk(hash, accept, table, front[i]);
    }
    forall d | d in after ensures exists i :: 0 <= i < |all| && hash(all[i].token) == d {
      if d in table {
        var i :| 0 <= i < |front| && hash(front[i].token) == d;
        assert hash(all[i].token) == d;
      } else {
        assert hash(all[|front|].token) == d;
      }
    }
  }

  lemma EnterExactlyWhen(
    hash: string -> Digest, accept: Accepter, front: seq<Credential>, table: map<Digest, Template>, c: Credential)
    requires Entries(hash, accept, front, table)
    ensures Enter(hash, accept, table, c).Some? <==>
            accept(c).Some? && forall i :: 0 <= i < |front| ==> hash(front[i].token) != hash(c.token)
  {
    forall i | 0 <= i < |front| ensures hash(front[i].token) in table {
      assert EntryOk(hash, accept, table, front[i]);
    }
  }

  /** A table is built exactly when every credential is acceptable and no two tokens hash alike. */
  lemma {:induction false} TableExactlyWhen(hash: string -> Digest, accept: Accepter, credentials: seq<Credential>)
    ensures Table(hash, accept, credentials).Some? <==> AllAccepted(accept, credentials) && HashesDiffer(hash, credentials)
    ensures Table(hash, accept, credentials).Some? ==>
              Entries(hash, accept, credentials, Table(hash, accept, credentials).value)
    decreases |credentials|
  {
    if credentials != [] {
      var front, c := credentials[..|credentials| - 1], credentials[|credentials| - 1];
      assert credentials == front + [c];
      TableExactlyWhen(hash, accept, front);
      if Table(hash, accept, front).Some? {
        var table := Table(hash, accept, front).value;
        EnterExactlyWhen(hash, accept, front, table, c);
        if Enter(hash, accept, table, c).Some? {
          EntriesGrow(hash, accept, front, table, c);
        }
      }
    }
  }

  /** What a working service guarantees about its table. */
  ghost predicate Sound(s: Service)
  {
    s.Signed? ==>
      ReadsBack(s.read) && MIN_TTL <= s.ttl <= MAX_TTL && forall d :: d in s.credentials ==> WellFormed(s.credentials[d])
  }

  lemma AcceptedIsWellFormed(c: Credential)
    requires Accept(c).Some?
    ensures WellFormed(Accept(c).value) && TokenShape(c.token)
  {
    NormalizedIsWellFormed(c.userID, c.displayName, c.rooms);
  }

  lemma ConfiguredIsSound(crypto: Crypto, decoders: Decoders, cfg: Config)
    requires ReadsBack(decoders.session) && Configure(crypto, decoders, cfg).Ok?
    ensures Sound(Configure(crypto, decoders, cfg).value)
  {
    var s := Configure(crypto, decoders, cfg).value;
    if s.Signed? {
      var credentials := DecodeCredentials(decoders, cfg.credentialsJSON).value;
      TableExactlyWhen(crypto.hash, Accept, credentials);
      forall d | d in s.credentials ensures WellFormed(s.credentials[d]) {
        var i :| 0 <= i < |credentials| && crypto.hash(credentials[i].token) == d;
        assert EntryOk(crypto.hash, Accept, s.credentials, credentials[i]);
        AcceptedIsWellFormed(credentials[i]);
      }
    }
  }

  /** The credential was configured. */
  predicate IsConfigured(decoders: Decoders, cfg: Config, c: Credential)
  {
    var credentials := DecodeCredentials(decoders, cfg.credentialsJSON);
    credentials.Some? && c in credentials.value
  }

  /** Every configured token finds its own principal. */
  lemma ConfiguredTokenIsKnown(crypto: Crypto, decoders: Decoders, cfg: Config, s: Service, c: Credential)
    requires Configure(crypto, decoders, cfg) == Ok(s) && s.Signed? && IsConfigured(decoders, cfg, c)
    ensures Knows(s, c.token) && s.crypto == crypto && Accept(c) == Some(s.credentials[crypto.hash(c.token)])
  {
    var credentials := DecodeCredentials(decoders, cfg.credentialsJSON).value;
    TableExactlyWhen(crypto.hash, Accept, credentials);
    var i :| 0 <= i < |credentials| && credentials[i] == c;
    assert EntryOk(crypto.hash, Accept, s.credentials, credentials[i]);
    AcceptedIsWellFormed(c);
  }

  // ---------------------------------------------------------------- the life of a session

  predicate InRange(now: int) { Int64(Seconds(now)) && Int64(Seconds(now) + 86401) }

  lemma Times(now: int, ttl: int)
    requires MIN_TTL <= ttl <= MAX_TTL
    ensures var (iat, exp) := (Seconds(now), Seconds(Seconds(now) * SECOND + ttl));
            && iat + 60 <= exp <= iat + 86400 && (exp - iat) * SECOND <= ttl
  {
  }

  /** The session of a well-formed principal, checked at any time. */
  lemma CheckExactly(t: Template, id: string, issued: int, ttl: int, now: int)
    requires WellFormed(t) && ValidSessionID(id) && MIN_TTL <= ttl <= MAX_TTL
    ensures var p := SessionOf(t, id, issued, ttl);
            Check(p, ttl, now) ==
              if now >= p.expiresAt * SECOND then Err(ExpiredSession)
              else if p.issuedAt < 1 || now < p.issuedAt * SECOND - MINUTE then Err(InvalidSession)
              else Ok(User(t.userID, t.displayName, t.rooms, id, p.expiresAt * SECOND))
  {
    WellFormedIsFixed(t);
    Times(issued, ttl);
  }

  /** A session is always issued, whatever the principal's size: the cookie limit is out of reach. */
  lemma IssueSucceeds(sign: string -> Digest, read: SessionCookie.Reader, t: Template, id: string, issued: int, ttl: int)
    requires ReadsBack(read) && WellFormed(t) && ValidSessionID(id) && MIN_TTL <= ttl <= MAX_TTL && InRange(issued)
    ensures var r := Issue(sign, t, id, issued, ttl);
            && r.Ok? && 0 < |r.value.1| <= 3894 && Decode(sign, read, r.value.1) == Some(SessionOf(t, id, issued, ttl))
            && r.value.0 == User(t.userID, t.displayName, t.rooms, id, Seconds(issued) * SECOND + ttl)
  {
    var p := SessionOf(t, id, issued, ttl);
    Times(issued, ttl);
    assert Template(p.subject, p.displayName, p.rooms) == t;
    CookieFits(sign, p);
    CookieRoundTrip(sign, read, p);
  }

  predicate Knows(s: Service, token: string)
  {
    s.Signed? && TokenShape(token) && s.crypto.hash(token) in s.credentials
  }

  lemma ExchangeIssues(s: Service, token: string, random: seq<Utf8.byte>, issued: int)
    requires Knows(s, token)
    ensures Exchange(s, token, Some(random), issued)
         == Issue(Sign(s), s.credentials[s.crypto.hash(token)], NewSessionID(random), issued, s.ttl)
  {
  }

  /** The session round trip: the cookie a token is exchanged for authenticates as the same user, name, rooms and
      session from a minute before it was issued until its encoded expiry, and from then on it is expired. */
  lemma SessionRoundTrip(s: Service, token: string, random: seq<Utf8.byte>, issued: int, now: int)
    requires Sound(s) && Knows(s, token) && |random| == 16 && InRange(issued)
    ensures Exchange(s, token, Some(random), issued).Ok?
    ensures var t := s.credentials[s.crypto.hash(token)];
            var expiry := Seconds(Seconds(issued) * SECOND + s.ttl) * SECOND;
            Authenticate(s, Some(Exchange(s, token, Some(random), issued).value.1), now) ==
              if now >= expiry then Err(ExpiredSession)
              else if Seconds(issued) < 1 || now < Seconds(issued) * SECOND - MINUTE then Err(InvalidSession)
              else Ok(User(t.userID, t.displayName, t.rooms, NewSessionID(random), expiry))
  {
    var t := s.credentials[s.crypto.hash(token)];
    NewSessionIDIsValid(random);
    ExchangeIssues(s, token, random, issued);
    IssueSucceeds(Sign(s), s.read, t, NewSessionID(random), issued, s.ttl);
    CheckExactly(t, NewSessionID(random), issued, s.ttl, now);
  }

  /** A principal enters exactly the rooms whose normal form is among its grants. */
  lemma AdmittedExactlyWhen(c: Credential, p: Principal, room: string)
    requires Accept(c).Some? && p.User? && p.rooms == Accept(c).value.rooms
    ensures Admit(p, room) == Ok(p) <==>
            NormalizeRoom(room).Ok? && exists i :: 0 <= i < |c.rooms| && NormalizeRoom(c.rooms[i]) == NormalizeRoom(room)
    ensures Admit(p, room).Err? ==> Admit(p, room) == Err(RoomDenied)
  {
    if NormalizeRoom(room).Ok? {
      GrantedExactlyWhen(c.rooms, NormalizeRoom(room).value);
    }
  }

  /** End to end: a configured user who signs in is let into a room exactly while the session lives, from a minute
      before it was issued until its expiry, and exactly when some configured grant has the room's normal form. */
  lemma ConfiguredUserEnters(
    crypto: Crypto, decoders: Decoders, cfg: Config, s: Service, c: Credential, random: seq<Utf8.byte>, issued: int, room: string,
    now: int)
    requires ReadsBack(decoders.session) && Configure(crypto, decoders, cfg) == Ok(s) && s.Signed?
    requires IsConfigured(decoders, cfg, c) && |random| == 16 && InRange(issued)
    ensures var login := Exchange(s, c.token, Some(random), issued);
            && login.Ok?
            && (Authorize(s, Some(login.value.1), room, now).Ok? <==>
                  && Seconds(issued) >= 1
                  && Seconds(issued) * SECOND - MINUTE <= now < Seconds(Seconds(issued) * SECOND + s.ttl) * SECOND
                  && NormalizeRoom(room).Ok?
                  && exists k :: 0 <= k < |c.rooms| && NormalizeRoom(c.rooms[k]) == NormalizeRoom(room))
  {
    ConfiguredIsSound(crypto, decoders, cfg);
    ConfiguredTokenIsKnown(crypto, decoders, cfg, s, c);
    SessionRoundTrip(s, c.token, random, issued, now);
    var value := Exchange(s, c.token, Some(random), issued).value.1;
    if Authenticate(s, Some(value), now).Ok? {
      AdmittedExactlyWhen(c, Authenticate(s, Some(value), now).value, room);
    }
  }

  // ---------------------------------------------------------------- nothing else gets in

  /** The session's own conditions at time `now`, in nanoseconds. */
  ghost predicate IsLive(p: SessionCookie.Session, ttl: int, now: int)
  {
    && p.version == 1 && |p.sessionID| == 36 && p.sessionID[..4] == "sid_"
    && (forall i :: 4 <= i < 36 ==> Json.HexValue(p.sessionID[i]).Some?)
    && 1 <= p.issuedAt < p.expiresAt
    && p.issuedAt * 1_000_000_000 <= now + 60_000_000_000 && now < p.expiresAt * 1_000_000_000
    && (p.expiresAt - p.issuedAt) * 1_000_000_000 <= ttl + 1_000_000_000
  }

  ghost predicate Names(p: SessionCookie.Session, u: Principal)
  {
    var t := Normalize(p.subject, p.displayName, p.rooms);
    && t.Some?
    && u == User(t.value.userID, t.value.displayName, t.value.rooms, p.sessionID, p.expiresAt * 1_000_000_000)
  }

  lemma CheckedExactlyWhen(p: SessionCookie.Session, ttl: int, now: int, u: Principal)
    ensures Check(p, ttl, now) == Ok(u) <==> IsLive(p, ttl, now) && Names(p, u)
  {
    assert ValidSessionID(p.sessionID) <==>
           |p.sessionID| == 36 && p.sessionID[..4] == "sid_" && forall i :: 4 <= i < 36 ==> Json.HexValue(p.sessionID[i]).Some?;
  }

  /** Any cookie whatsoever authenticates as a user if and only if it is not too long, carries a session under the service's own
      signature, and that session is live and names the user. */
  lemma AuthenticatesExactlyWhen(s: Service, value: string, now: int, u: Principal)
    requires s.Signed?
    ensures Authenticate(s, Some(value), now) == Ok(u) <==>
            && |value| <= 4096
            && exists encoded, signature, raw, p ::
                 Carries(Sign(s), s.read, value, encoded, signature, raw, p) && IsLive(p, s.ttl, now) && Names(p, u)
  {
    if Authenticate(s, Some(value), now) == Ok(u) {
      var p := Decode(Sign(s), s.read, value).value;
      DecodesExactlyWhen(Sign(s), s.read, value, p);
      CheckedExactlyWhen(p, s.ttl, now, u);
      var encoded, signature, raw :| Carries(Sign(s), s.read, value, encoded, signature, raw, p);
    }
    if |value| <= 4096 && exists encoded, signature, raw, p ::
      Carries(Sign(s), s.read, value, encoded, signature, raw, p) && IsLive(p, s.ttl, now) && Names(p, u)
    {
      var encoded, signature, raw, p :|
        Carries(Sign(s), s.read, value, encoded, signature, raw, p) && IsLive(p, s.ttl, now) && Names(p, u);
      DecodesExactlyWhen(Sign(s), s.read, value, p);
      CheckedExactlyWhen(p, s.ttl, now, u);
    }
  }

  /** Why a call does not authenticate: no cookie, a genuine session of a well-formed principal that is over, or anything else. */
  lemma UnauthenticatedExactlyWhen(s: Service, cookie: Option<string>, now: int)
    requires s.Signed?
    ensures Authenticate(s, cookie, now) == Err(SessionRequired) <==> cookie.None?
    ensures Authenticate(s, cookie, now) == Err(ExpiredSession) <==>
            && cookie.Some? && 1 <= |cookie.value| <= 4096 && Decode(Sign(s), s.read, cookie.value).Some?
            && var p := Decode(Sign(s), s.read, cookie.value).value;
            && Normalize(p.subject, p.displayName, p.rooms).Some? && p.version == 1 && ValidSessionID(p.sessionID)
            && p.expiresAt * 1_000_000_000 <= now
    ensures var r := Authenticate(s, cookie, now); r.Ok? || r.error in {SessionRequired, ExpiredSession, InvalidSession}
  {
  }

  /** Without sessions everybody is anonymous and no token is exchanged. */
  lemma OpenExactly(token: string, random: Option<seq<Utf8.byte>>, cookie: Option<string>, now: int)
    ensures Authenticate(Open, cookie, now) == Ok(Anonymous) && Exchange(Open, token, random, now) == Err(AuthDisabled)
  {
  }

  lemma AuthenticatedCarries(s: Service, value: string, now: int) returns (encoded: string, signature: string)
    requires s.Signed? && Authenticate(s, Some(value), now).Ok?
    ensures value == encoded + ("." + signature) && Base64.Decode(signature) == Some(s.crypto.hmac(s.secret, encoded))
  {
    var p := Decode(Sign(s), s.read, value).value;
    DecodesExactlyWhen(Sign(s), s.read, value, p);
    var raw;
    encoded, signature, raw :| Carries(Sign(s), s.read, value, encoded, signature, raw, p);
  }

  lemma ConfiguredKeys(crypto: Crypto, decoders: Decoders, cfg: Config, s: Service)
    requires Configure(crypto, decoders, cfg) == Ok(s) && s.Signed?
    ensures s.crypto == crypto && s.secret == cfg.secret
  {
  }

  /** Whoever authenticates to a configured service shows a cookie whose signature is the keyed hash of its payload text under
      the configured secret. */
  lemma AuthenticatedIsSigned(crypto: Crypto, decoders: Decoders, cfg: Config, s: Service, value: string, now: int)
    returns (encoded: string, signature: string)
    requires Configure(crypto, decoders, cfg) == Ok(s) && s.Signed? && Authenticate(s, Some(value), now).Ok?
    ensures value == encoded + ("." + signature) && Base64.Decode(signature) == Some(crypto.hmac(cfg.secret, encoded))
  {
    ConfiguredKeys(crypto, decoders, cfg, s);
    encoded, signature := AuthenticatedCarries(s, value, now);
  }

  /** A credential is acceptable exactly when its token is 32 to 512 bytes long and holds no space, tab or line end
      and no space around it, and its principal normalises. */
  lemma AcceptedExactlyWhen(c: Credential, t: Template)
    ensures Accept(c) == Some(t) <==>
            && 32 <= Sizes.Bytes(c.token) <= 512 && (forall i :: 0 <= i < |c.token| ==> c.token[i] !in " \t\r\n") && Trimmed(c.token)
            && Normalize(c.userID, c.displayName, c.rooms) == Some(t)
  {
  }

  ghost predicate IsMode(raw: string, mode: string) { exists i, j :: IsLoweredCore(raw, i, j, mode) }

  /** Which configurations give a service that signs, and which: mode "session", a secret of at least 32 bytes, a lifetime of one
      minute to one day, an hour if none is given, and credentials that are all acceptable with tokens that hash apart. */
  lemma ConfiguresExactlyWhen(crypto: Crypto, decoders: Decoders, cfg: Config)
    ensures var r := Configure(crypto, decoders, cfg);
            r.Ok? && r.value.Signed? <==>
              && IsMode(cfg.mode, "session") && Sizes.Bytes(cfg.secret) >= 32
              && (cfg.ttl == 0 || 60_000_000_000 <= cfg.ttl <= 86_400_000_000_000)
              && !Blank(cfg.credentialsJSON) && decoders.credentials(cfg.credentialsJSON).Some?
              && var credentials := decoders.credentials(cfg.credentialsJSON).value;
              credentials != [] && AllAccepted(Accept, credentials) && HashesDiffer(crypto.hash, credentials)
    ensures var r := Configure(crypto, decoders, cfg);
            r.Ok? && r.value.Signed? ==>
              && r.value.crypto == crypto && r.value.read == decoders.session && r.value.secret == cfg.secret
              && r.value.ttl == (if cfg.ttl == 0 then 3_600_000_000_000 else cfg.ttl)
              && decoders.credentials(cfg.credentialsJSON).Some?
              && Entries(crypto.hash, Accept, decoders.credentials(cfg.credentialsJSON).value, r.value.credentials)
    ensures Configure(crypto, decoders, cfg) == Ok(Open) <==> Blank(cfg.mode) || IsMode(cfg.mode, "anonymous")
  {
    LoweredCoreExactlyWhen(cfg.mode, "session");
    LoweredCoreExactlyWhen(cfg.mode, "anonymous");
    if decoders.credentials(cfg.credentialsJSON).Some? {
      TableExactlyWhen(crypto.hash, Accept, decoders.credentials(cfg.credentialsJSON).value);
    }
  }

  lemma ExchangeKnows(s: Service, token: string, random: Option<seq<Utf8.byte>>, now: int)
    requires Exchange(s, token, random, now).Ok?
    ensures Knows(s, token)
    ensures var (t, u) := (s.credentials[s.crypto.hash(token)], Exchange(s, token, random, now).value.0);
            u.User? && u.userID == t.userID && u.displayName == t.displayName && u.rooms == t.rooms
  {
  }

  lemma EntryIsConfigured(crypto: Crypto, decoders: Decoders, cfg: Config, s: Service, d: Digest) returns (c: Credential)
    requires Configure(crypto, decoders, cfg) == Ok(s) && s.Signed? && d in s.credentials
    ensures IsConfigured(decoders, cfg, c) && crypto.hash(c.token) == d && Accept(c) == Some(s.credentials[d])
  {
    var credentials := DecodeCredentials(decoders, cfg.credentialsJSON).value;
    TableExactlyWhen(crypto.hash, Accept, credentials);
    var i :| 0 <= i < |credentials| && crypto.hash(credentials[i].token) == d;
    assert EntryOk(crypto.hash, Accept, s.credentials, credentials[i]);
    c := credentials[i];
  }

  /** Only a token that hashes like a configured one is exchanged, and then for that credential's principal. */
  lemma ExchangedIsConfigured(
    crypto: Crypto, decoders: Decoders, cfg: Config, s: Service, token: string, random: Option<seq<Utf8.byte>>, now: int)
    returns (c: Credential)
    requires Configure(crypto, decoders, cfg) == Ok(s) && Exchange(s, token, random, now).Ok?
    ensures IsConfigured(decoders, cfg, c) && crypto.hash(c.token) == crypto.hash(token) && Accept(c).Some?
    ensures 32 <= Sizes.Bytes(token) <= 512 && forall i :: 0 <= i < |token| ==> token[i] !in " \t\r\n"
    ensures var (t, u) := (Accept(c).value, Exchange(s, token, random, now).value.0);
            u.User? && u.userID == t.userID && u.displayName == t.displayName && u.rooms == t.rooms
  {
    ExchangeKnows(s, token, random, now);
    ConfiguredKeys(crypto, decoders, cfg, s);
    c := EntryIsConfigured(crypto, decoders, cfg, s, crypto.hash(token));
  }
}
