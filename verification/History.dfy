/** History pages (backend/server.go, `messagesHandler`): limits, cursors, trimming. `Handler` puts them behind the
    authorisation check. */
module History {
  import opened Text
  import opened Rooms
  import opened Clock
  import opened Messages
  import opened Store
  import opened Seqs
  import opened HistoryCursor

  const DEFAULT_LIMIT := 50
  const MAX_LIMIT := 100

  datatype LimitParam = Absent | NotANumber | Number(n: int)

  datatype Request = Request(room: string, limit: LimitParam, before: seq<string>)

  datatype Response =
    | BadRequest
    | Unavailable
    | Page(room: string, messages: seq<Message>, limit: int, hasMore: bool, next: Option<string>)

  /** The two functions the endpoint turns positions into cursors with. */
  datatype Codec = Codec(encode: (string, Timestamp, int) -> Option<string>, decode: string -> Option<Cursor>)

  /** The cursors the endpoint uses, for a given decoder of JSON. */
  function Cursors(read: Reader): Codec { Codec(EncodeCursor, raw => DecodeCursor(read, raw)) }

  /** The sort key of the database and the cursors in use. */
  datatype Api = Api(key: Timestamp -> int, codec: Codec)

  function Limit(p: LimitParam): (r: Option<int>)
    ensures r.Some? ==> 1 <= r.value <= MAX_LIMIT
  {
    match p
    case Absent => Some(DEFAULT_LIMIT)
    case NotANumber => None
    case Number(n) => if n < 1 then None else if n > MAX_LIMIT then Some(MAX_LIMIT) else Some(n)
  }

  /** The position a request continues from: absent, or the one valid cursor for the room. */
  function Continuation(api: Api, room: string, before: seq<string>): Option<Option<Pos>>
  {
    if before == [] then Some(None)
    else if |before| != 1 then None
    else
      var c :- api.codec.decode(before[0]);
      if RoomMatches(c, room) then Some(Some(Pos(Some(api.key(c.timestamp)), c.id))) else None
  }

  /** The response, stated on the candidates in order: the newest `limit` of them, and whether there are more. */
  function FromList(api: Api, room: string, s: seq<Row>, limit: int): Response
    requires limit >= 1
  {
    var messages := MessagesOf(Last(s, limit));
    if |s| <= limit then Page(room, messages, limit, false, None)
    else
      match api.codec.encode(room, messages[0].timestamp, messages[0].id)
      case None => Unavailable
      case Some(next) => Page(room, messages, limit, true, Some(next))
  }

  function Respond(api: Api, room: string, rows: set<Row>, limit: int): Response
    requires UniqueIds(rows) && limit >= 1
  {
    FromList(api, room, Chronological(rows), limit)
  }

  /** What an authorised request is answered when storage works. */
  function Answer(api: Api, store: set<Row>, q: Request): Response
    requires UniqueIds(store)
  {
    match NormalizeRoom(q.room)
    case Err(_) => BadRequest
    case Ok(room) =>
      match Limit(q.limit)
      case None => BadRequest
      case Some(limit) =>
        match Continuation(api, room, q.before)
        case None => BadRequest
        case Some(before) => Respond(api, room, Candidates(store, room, before), limit)
  }

  method ReadLimit(p: LimitParam) returns (r: Option<int>)
    ensures r == Limit(p)
  {
    var limit := DEFAULT_LIMIT;
    if !p.Absent? {
      if p.NotANumber? || p.n < 1 {
        return None;
      }
      limit := p.n;
      if limit > MAX_LIMIT {
        limit := MAX_LIMIT;
      }
    }
    return Some(limit);
  }

  method ReadContinuation(api: Api, room: string, values: seq<string>) returns (r: Option<Option<Pos>>)
    ensures r == Continuation(api, room, values)
  {
    var before: Option<Pos> := None;
    if values != [] {
      if |values| != 1 {
        return None;
      }
      var cursor := api.codec.decode(values[0]);
      if cursor.None? || !RoomMatches(cursor.value, room) {
        return None;
      }
      before := Some(Pos(Some(api.key(cursor.value.timestamp)), cursor.value.id));
    }
    return Some(before);
  }

  lemma TrimmedIsLast(s: seq<Row>, limit: nat)
    ensures var fetched := MessagesOf(Last(s, limit + 1));
            && (|fetched| > limit <==> |s| > limit)
            && MessagesOf(Last(s, limit)) == if |fetched| > limit then fetched[|fetched| - limit..] else fetched
  {
  }

  /** Fetch one row more than asked for, trim, derive the next cursor. */
  method FetchPage(api: Api, store: set<Row>, room: string, before: Option<Pos>, limit: nat) returns (response: Response)
    requires UniqueIds(store) && limit >= 1
    ensures response == Respond(api, room, Candidates(store, room, before), limit)
  {
    var fetchLimit := limit + 1;
    var messages := GetMessages(store, room, before, fetchLimit);
    response := Trim(api, room, messages, limit, Chronological(Candidates(store, room, before)));
  }

  /** The part of the handler after the query; `s` lists the candidates. */
  method Trim(api: Api, room: string, fetched: seq<Message>, limit: nat, ghost s: seq<Row>) returns (response: Response)
    requires limit >= 1 && fetched == MessagesOf(Last(s, limit + 1))
    ensures response == FromList(api, room, s, limit)
  {
    TrimmedIsLast(s, limit);
    var messages := fetched;
    var hasMore := |messages| > limit;
    if hasMore {
      messages := messages[|messages| - limit..];
    }
    var next: Option<string> := None;
    if hasMore {
      next := api.codec.encode(room, messages[0].timestamp, messages[0].id);
      if next.None? {
        return Unavailable;
      }
    }
    return Page(room, messages, limit, hasMore, next);
  }

  /** Fifty messages unless asked otherwise, at least one and at most a hundred. */
  lemma LimitExactly(p: LimitParam, limit: int)
    ensures Limit(p) == Some(limit) <==>
            || (p.Absent? && limit == 50)
            || (p.Number? && p.n >= 1 && limit == if p.n <= 100 then p.n else 100)
  {
  }

  /** A request continues from a position exactly when it names one cursor, and that is accepted and is for the room asked for. */
  lemma ContinuesExactlyWhen(key: Timestamp -> int, read: Reader, room: string, before: seq<string>, at: Option<Pos>)
    requires CanonicalRoom(room)
    ensures Continuation(Api(key, Cursors(read)), room, before) == Some(at) <==>
            || (before == [] && at.None?)
            || (|before| == 1 && DecodeCursor(read, before[0]).Some? &&
                var c := DecodeCursor(read, before[0]).value; c.room == room && at == Some(Pos(Some(key(c.timestamp)), c.id)))
  {
    if |before| == 1 && DecodeCursor(read, before[0]).Some? {
      AcceptedCursorIsForTheRoom(read, before[0], room);
    }
  }
}
