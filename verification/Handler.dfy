/** The two guarded entrances to a room (backend/server.go): the history endpoint, `messagesHandler`, and the
    WebSocket connection, `serveWs`. */
module Handler {
  import opened Text
  import opened Rooms
  import opened Messages
  import opened Store
  import opened History
  import opened Session
  import Principals
  import SessionCookie
  import HistoryCursor
  import opened Clock
  import opened Seqs
  import Frames
  import Fanout

  datatype Reply = NotAllowed | Denied(error: AuthError) | Replied(response: Response)

  /** A request with everything it is judged by: its method, its cookie and the time. */
  datatype Call = Call(verb: string, cookie: Option<string>, now: int, request: Request)

  const GET := "GET"

  /** The reply; `database` is absent when the query fails. */
  function Serve(api: Api, service: Service, database: Option<set<Row>>, call: Call): Reply
    requires database.Some? ==> UniqueIds(database.value)
  {
    if call.verb != GET then NotAllowed
    else
      match NormalizeRoom(call.request.room)
      case Err(_) => Replied(BadRequest)
      case Ok(room) =>
        match Authorize(service, call.cookie, room, call.now)
        case Err(e) => Denied(e)
        case Ok(_) => Replied(PageFor(api, database, room, call.request))
  }

  function PageFor(api: Api, database: Option<set<Row>>, room: string, q: Request): Response
    requires database.Some? ==> UniqueIds(database.value)
  {
    match Limit(q.limit)
    case None => BadRequest
    case Some(limit) =>
      match Continuation(api, room, q.before)
      case None => BadRequest
      case Some(before) =>
        if database.None? then Unavailable else Respond(api, room, Candidates(database.value, room, before), limit)
  }

  method MessagesHandler(api: Api, service: Service, database: Option<set<Row>>, call: Call) returns (reply: Reply)
    requires database.Some? ==> UniqueIds(database.value)
    ensures reply == Serve(api, service, database, call)
  {
    if call.verb != GET {
      return NotAllowed;
    }
    var room := NormalizeRoom(call.request.room);
    if room.Err? {
      return Replied(BadRequest);
    }
    var principal := Authorize(service, call.cookie, room.value, call.now);
    if principal.Err? {
      return Denied(principal.error);
    }
    var limit := ReadLimit(call.request.limit);
    if limit.None? {
      return Replied(BadRequest);
    }
    var before := ReadContinuation(api, room.value, call.request.before);
    if before.None? {
      return Replied(BadRequest);
    }
    if database.None? {
      return Replied(Unavailable);
    }
    var response := FetchPage(api, database.value, room.value, before.value, limit.value);
    return Replied(response);
  }

  /** For an authorised request to working storage the endpoint answers as the walk theorems say. */
  lemma AuthorisedIsAnswered(api: Api, service: Service, store: set<Row>, call: Call)
    requires UniqueIds(store) && call.verb == GET && NormalizeRoom(call.request.room).Ok?
    requires Authorize(service, call.cookie, NormalizeRoom(call.request.room).value, call.now).Ok?
    ensures Serve(api, service, Some(store), call) == Replied(Answer(api, store, call.request))
  {
  }

  lemma PageIsOfTheRoom(api: Api, room: string, rows: set<Row>, limit: int)
    requires UniqueIds(rows) && limit >= 1 && forall r :: r in rows ==> r.message.room == room
    requires Respond(api, room, rows, limit).Page?
    ensures forall m :: m in Respond(api, room, rows, limit).messages ==> m.room == room
  {
    ChronologicalLists(rows);
    assert forall r :: r in Chronological(rows) ==> r in rows;
  }

  /** No message leaves the server for anyone who is not let into its room: whatever the request, the cookie
      and the table, every message of a page is of a room the caller was authorised for at that time. */
  lemma HistoryIsGuarded(api: Api, service: Service, database: Option<set<Row>>, call: Call, m: Message)
    requires database.Some? ==> UniqueIds(database.value)
    requires var reply := Serve(api, service, database, call); reply.Replied? && reply.response.Page? && m in reply.response.messages
    ensures NormalizeRoom(call.request.room) == Ok(m.room) && Authorize(service, call.cookie, m.room, call.now).Ok?
  {
    var room := NormalizeRoom(call.request.room).value;
    var before := Continuation(api, room, call.request.before).value;
    PageIsOfTheRoom(api, room, Candidates(database.value, room, before), Limit(call.request.limit).value);
  }

  /** When a call is refused: by its method first, then by its room, then by the session, and for the session's own reason. */
  lemma RefusedExactlyWhen(api: Api, service: Service, database: Option<set<Row>>, call: Call, e: AuthError)
    requires database.Some? ==> UniqueIds(database.value)
    ensures Serve(api, service, database, call) == NotAllowed <==> call.verb != "GET"
    ensures Serve(api, service, database, call) == Denied(e) <==>
            && call.verb == "GET" && NormalizeRoom(call.request.room).Ok?
            && Authorize(service, call.cookie, NormalizeRoom(call.request.room).value, call.now) == Err(e)
  {
  }

  /** When a page is returned: to an authorised call with a valid limit and none or one valid cursor, when the database answered.
      Its limit is the one asked for, at most a hundred, fifty if none was asked for. */
  lemma PageExactlyWhen(key: Timestamp -> int, read: HistoryCursor.Reader, service: Service, database: Option<set<Row>>, call: Call)
    requires database.Some? ==> UniqueIds(database.value)
    ensures var api := Api(key, Cursors(read));
            var (reply, q) := (Serve(api, service, database, call), call.request);
            reply.Replied? && (reply.response.Page? || reply.response.Unavailable?) <==>
              && call.verb == "GET" && NormalizeRoom(q.room).Ok?
              && Authorize(service, call.cookie, NormalizeRoom(q.room).value, call.now).Ok?
              && (q.limit.Absent? || (q.limit.Number? && q.limit.n >= 1))
              && Continuation(api, NormalizeRoom(q.room).value, q.before).Some?
    ensures var api := Api(key, Cursors(read));
            var (reply, q) := (Serve(api, service, database, call), call.request);
            reply.Replied? && reply.response.Page? ==>
              && database.Some? && NormalizeRoom(q.room) == Ok(reply.response.room)
              && reply.response.limit == if q.limit.Absent? then 50 else if q.limit.n <= 100 then q.limit.n else 100
    ensures var api := Api(key, Cursors(read));
            var (reply, q) := (Serve(api, service, database, call), call.request);
            reply.Replied? && reply.response.Unavailable? && database.Some? ==>
              exists m :: m in database.value && api.codec.encode(NormalizeRoom(q.room).value, m.message.timestamp, m.message.id).None?
  {
    var api, q := Api(key, Cursors(read)), call.request;
    if q.limit.Number? {
      LimitExactly(q.limit, if q.limit.n <= 100 then q.limit.n else 100);
    } else {
      LimitExactly(q.limit, 50);
    }
    if database.Some? && NormalizeRoom(q.room).Ok? && Limit(q.limit).Some? {
      var room := NormalizeRoom(q.room).value;
      match Continuation(api, room, q.before)
      case None =>
      case Some(before) => UnavailableMeans(api, room, Candidates(database.value, room, before), Limit(q.limit).value);
    }
  }

  lemma UnavailableMeans(api: Api, room: string, rows: set<Row>, limit: int)
    requires UniqueIds(rows) && limit >= 1
    ensures var r := Respond(api, room, rows, limit);
            && (r.Page? || r.Unavailable?) && (r.Page? ==> r.room == room && r.limit == limit)
            && (r.Unavailable? ==> exists m :: m in rows && api.codec.encode(room, m.message.timestamp, m.message.id).None?)
  {
    if Respond(api, room, rows, limit).Unavailable? {
      ChronologicalLists(rows);
      var s := Chronological(rows);
      var m := Last(s, limit)[0];
      assert m in s;
      assert api.codec.encode(room, m.message.timestamp, m.message.id).None?;
    }
  }

  // ---------------------------------------------------------------- connecting

  /** How `serveWs` fixes a client's room and identity, once the connection is allowed. */
  function Connect(service: Service, cookie: Option<string>, rawRoom: string, now: int): Option<Frames.Profile>
  {
    match NormalizeRoom(rawRoom)
    case Err(_) => None
    case Ok(room) =>
      match Authorize(service, cookie, room, now)
      case Err(_) => None
      case Ok(Anonymous) => Some(Frames.Profile(room, ANONYMOUS, "", false))
      case Ok(User(userID, name, _, _, _)) => Some(Frames.Profile(room, name, userID, true))
  }

  lemma AuthenticatedIsWellFormed(s: Service, cookie: Option<string>, now: int)
    requires Authenticate(s, cookie, now).Ok? && Authenticate(s, cookie, now).value.User?
    ensures var p := Authenticate(s, cookie, now).value;
            Principals.WellFormed(Principals.Template(p.userID, p.displayName, p.rooms))
  {
    var session := SessionCookie.Decode(Sign(s), s.read, cookie.value).value;
    Principals.NormalizedIsWellFormed(session.subject, session.displayName, session.rooms);
  }

  /** Every connection has a canonical room and a proper identity: authenticated exactly when sessions are required, then
      for a room that was granted, and with the very identity of the session, which passes the broker's validation. */
  lemma ConnectedIsProper(service: Service, cookie: Option<string>, rawRoom: string, now: int)
    requires Connect(service, cookie, rawRoom, now).Some?
    ensures var p := Connect(service, cookie, rawRoom, now).value;
            && Fanout.ProperProfile(p) && NormalizeRoom(rawRoom) == Ok(p.room) && p.authenticated == service.Signed?
            && Authorize(service, cookie, p.room, now).Ok?
    ensures var (p, u) := (Connect(service, cookie, rawRoom, now).value, Authenticate(service, cookie, now));
            && u.Ok? && (u.value.Anonymous? ==> p.username == "Anonymous" && p.userID == "")
            && (u.value.User? ==> p.username == u.value.displayName && p.userID == u.value.userID)
  {
    var p := Connect(service, cookie, rawRoom, now).value;
    if p.authenticated {
      AuthenticatedIsWellFormed(service, cookie, now);
      assert !IsSpace(p.username[0]);
    } else {
      assert !IsSpace(ANONYMOUS[0]);
    }
  }
}
