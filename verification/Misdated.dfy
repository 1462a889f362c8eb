/** What the history endpoint does with rows whose reported time does not have the row's sort key. The SQLite repository
    sorts by `julianday` of the stored text and reports the time it parses from that text, or the current time
    when it cannot (backend/db/database.go, `parseMsgTimestamp`). */
module Misdated {
  import opened Text
  import opened Rooms
  import opened Clock
  import opened Messages
  import opened Store
  import opened Seqs
  import opened History
  import opened Walks

  // ---------------------------------------------------------------- when a cursor is right

  /** The position the cursor of a row stands for selects exactly the rows older than it. */
  ghost predicate ContinuesAt(r: Row, p: Pos, store: set<Row>)
  {
    forall x :: x in store && x.message.room == r.message.room ==> (Selected(PosOf(x), p) <==> Older(x, r))
  }

  ghost predicate OthersKeyed(store: set<Row>, r: Row)
  {
    forall x :: x in store && x != r ==> x.sortKey.Some?
  }

  /** A row for which a wrong cursor goes wrong: the row itself when its reported time is too late, otherwise one between. */
  function Misplaced(r: Row, key: int): Row
  {
    if r.sortKey.None? then Row(r.message.(id := r.message.id + 1), Some(key - 1))
    else if r.sortKey.value < key then r
    else Row(r.message.(id := r.message.id + 1), Some(key))
  }

  lemma MisplacedIsWrong(r: Row, key: int)
    requires r.sortKey != Some(key)
    ensures var (x, p) := (Misplaced(r, key), Pos(Some(key), r.message.id));
            && x.message.room == r.message.room && Selected(PosOf(x), p) != Older(x, r)
            && UniqueIds({r, x}) && OthersKeyed({r, x}, r)
  {
  }

  /** A row's cursor continues correctly over every table whose other rows have keys, if and only if the
      reported time of the row has the row's sort key. */
  lemma CursorIsRightExactlyWhen(r: Row, api: Api)
    ensures r.sortKey == Some(api.key(r.message.timestamp))
            <==> forall store :: UniqueIds(store) && r in store && OthersKeyed(store, r) ==>
                   ContinuesAt(r, MessagePos(r.message, api), store)
  {
    var p := MessagePos(r.message, api);
    if r.sortKey == Some(api.key(r.message.timestamp)) {
      forall store | UniqueIds(store) && r in store && OthersKeyed(store, r) ensures ContinuesAt(r, p, store) {
        assert PosOf(r) == p;
      }
    } else {
      MisplacedIsWrong(r, api.key(r.message.timestamp));
      var x := Misplaced(r, api.key(r.message.timestamp));
      assert x in {r, x} && !ContinuesAt(r, p, {r, x});
    }
  }

  /** And over a table with rows that have no key, a right cursor continues correctly if and only if none of them is in the
      room: such rows sort before all others and no continuation ever selects them. */
  lemma UnkeyedRowsAreLost(r: Row, api: Api, store: set<Row>)
    requires r in store && r.sortKey == Some(api.key(r.message.timestamp))
    ensures ContinuesAt(r, MessagePos(r.message, api), store)
            <==> forall x :: x in store && x.message.room == r.message.room ==> x.sortKey.Some?
  {
    assert PosOf(r) == MessagePos(r.message, api);
    forall x | x in store && x.message.room == r.message.room && x.sortKey.None?
      ensures Older(x, r) && !Selected(PosOf(x), PosOf(r))
    {
    }
  }

  // ---------------------------------------------------------------- the table behind the rows

  /** A stored row and its timestamp text. The time in `message` is not used. */
  datatype Stored = Stored(message: Message, text: string)

  /** What the repository and the database read from a timestamp text. */
  datatype Sqlite = Sqlite(parse: string -> Option<Timestamp>, julianday: string -> Option<int>)

  /** The failing branch: a text that cannot be parsed is reported as the time of the request. */
  function Reported(db: Sqlite, s: Stored, now: Timestamp): Timestamp
  {
    match db.parse(s.text)
    case Some(t) => t
    case None => now
  }

  function ReadRow(db: Sqlite, s: Stored, now: Timestamp): Row
  {
    Row(s.message.(timestamp := Reported(db, s, now)), db.julianday(s.text))
  }

  /** The rows as a request at time `now` sees them. */
  function ReadTable(db: Sqlite, table: set<Stored>, now: Timestamp): set<Row>
  {
    set s | s in table :: ReadRow(db, s, now)
  }

  ghost predicate UniqueStored(table: set<Stored>)
  {
    forall a, b :: a in table && b in table && a.message.id == b.message.id ==> a == b
  }

  /** Every row can be put in a cursor, whatever its time. */
  ghost predicate Readable(db: Sqlite, table: set<Stored>, room: string, now: Timestamp)
  {
    UniqueStored(table) && forall s :: s in table ==> Encodable(room, Reported(db, s, now), s.message.id)
  }

  lemma ReadIsUnique(db: Sqlite, table: set<Stored>, now: Timestamp)
    requires UniqueStored(table)
    ensures UniqueIds(ReadTable(db, table, now))
  {
  }

  ghost predicate HasPos(s: seq<Row>, p: Pos) { exists i :: 0 <= i < |s| && PosOf(s[i]) == p }

  ghost predicate SamePositions(a: seq<Row>, b: seq<Row>)
  {
    |a| == |b| && forall i :: 0 <= i < |a| ==> PosOf(a[i]) == PosOf(b[i])
  }

  lemma NewestPosition(a: seq<Row>, b: seq<Row>)
    requires Ascending(a) && Ascending(b) && a != [] && b != [] && forall p :: HasPos(a, p) <==> HasPos(b, p)
    ensures PosOf(a[|a| - 1]) == PosOf(b[|b| - 1])
  {
    var p, q := PosOf(a[|a| - 1]), PosOf(b[|b| - 1]);
    assert HasPos(a, p) && HasPos(b, q);
    var i :| 0 <= i < |b| && PosOf(b[i]) == p;
    var j :| 0 <= j < |a| && PosOf(a[j]) == q;
    assert i < |b| - 1 ==> Before(p, q);
    assert j < |a| - 1 ==> Before(q, p);
  }

  lemma DropPosition(s: seq<Row>, p: Pos)
    requires Ascending(s) && s != []
    ensures HasPos(s[..|s| - 1], p) <==> HasPos(s, p) && p != PosOf(s[|s| - 1])
  {
    var t := s[..|s| - 1];
    if HasPos(s, p) && p != PosOf(s[|s| - 1]) {
      var i :| 0 <= i < |s| && PosOf(s[i]) == p;
      assert PosOf(t[i]) == p;
    }
    if HasPos(t, p) {
      var i :| 0 <= i < |t| && PosOf(t[i]) == p;
      assert PosOf(s[i]) == p && Older(s[i], s[|s| - 1]);
    }
  }

  /** Two lists in order over the same positions run in step. */
  lemma {:induction false} InStep(a: seq<Row>, b: seq<Row>)
    requires Ascending(a) && Ascending(b) && forall p :: HasPos(a, p) <==> HasPos(b, p)
    ensures SamePositions(a, b)
    decreases |a|
  {
    if a == [] || b == [] {
      assert a != [] ==> HasPos(a, PosOf(a[0]));
      assert b != [] ==> HasPos(b, PosOf(b[0]));
    } else {
      var c, d := a[..|a| - 1], b[..|b| - 1];
      NewestPosition(a, b);
      forall p ensures HasPos(c, p) <==> HasPos(d, p) {
        DropPosition(a, p);
        DropPosition(b, p);
      }
      InStep(c, d);
    }
  }

  // ---------------------------------------------------------------- the same page again

  /** A room's rows at one time in order, and the rows selected before `p` at another. */
  ghost predicate TwoReadings(
    db: Sqlite, table: set<Stored>, room: string, now1: Timestamp, now2: Timestamp, p: Pos, s1: seq<Row>, s2: seq<Row>)
  {
    && UniqueStored(table)
    && Lists(s1, Candidates(ReadTable(db, table, now1), room, None))
    && Lists(s2, Candidates(ReadTable(db, table, now2), room, Some(p)))
  }

  /** A row keeps its position from one reading to the next. */
  lemma ReadAgain(db: Sqlite, table: set<Stored>, room: string, now1: Timestamp, now2: Timestamp, x: Row) returns (y: Row)
    requires x in Candidates(ReadTable(db, table, now1), room, None)
    ensures y in ReadTable(db, table, now2) && y.message.room == room && PosOf(y) == PosOf(x)
  {
    var st :| st in table && x == ReadRow(db, st, now1);
    y := ReadRow(db, st, now2);
  }

  lemma SelectedPositions(
    db: Sqlite, table: set<Stored>, room: string, now1: Timestamp, now2: Timestamp, p: Pos, s1: seq<Row>, s2: seq<Row>, q: Pos)
    requires TwoReadings(db, table, room, now1, now2, p, s1, s2)
    ensures HasPos(s2, q) <==> HasPos(s1, q) && Selected(q, p)
  {
    if HasPos(s2, q) {
      var j :| 0 <= j < |s2| && PosOf(s2[j]) == q;
      assert s2[j] in s2;
      var y := ReadAgain(db, table, room, now2, now1, s2[j]);
      assert y in Candidates(ReadTable(db, table, now1), room, None);
      assert y in s1;
    }
    if HasPos(s1, q) && Selected(q, p) {
      var i :| 0 <= i < |s1| && PosOf(s1[i]) == q;
      assert s1[i] in s1;
      var y := ReadAgain(db, table, room, now1, now2, s1[i]);
      assert y in Candidates(ReadTable(db, table, now2), room, Some(p));
      assert y in s2;
    }
  }

  lemma KeyedFrom(s: seq<Row>) returns (u: nat)
    requires Ascending(s)
    ensures u <= |s| && forall i :: 0 <= i < |s| ==> (s[i].sortKey.Some? <==> u <= i)
  {
    u := 0;
    while u < |s| && s[u].sortKey.None?
      invariant u <= |s| && forall i :: 0 <= i < u ==> s[i].sortKey.None?
    {
      u := u + 1;
    }
    forall i | u < i < |s| ensures s[i].sortKey.Some? {
      assert Older(s[u], s[i]);
    }
  }

  lemma SuffixPositions(s: seq<Row>, u: nat, p: Pos, q: Pos)
    requires Ascending(s) && u <= |s| && forall i :: 0 <= i < |s| ==> (s[i].sortKey.Some? <==> u <= i)
    requires s != [] && Selected(PosOf(s[|s| - 1]), p)
    ensures HasPos(s[u..], q) <==> HasPos(s, q) && Selected(q, p)
  {
    var t := s[u..];
    if HasPos(t, q) {
      var i :| 0 <= i < |t| && PosOf(t[i]) == q;
      assert PosOf(s[u + i]) == q;
      assert u + i < |s| - 1 ==> Older(s[u + i], s[|s| - 1]);
    }
    if HasPos(s, q) && Selected(q, p) {
      var i :| 0 <= i < |s| && PosOf(s[i]) == q;
      assert PosOf(t[i - u]) == q;
    }
  }

  /** When the newest row is selected, the second list is the first without its rows that have no key. */
  lemma SecondList(
    db: Sqlite, table: set<Stored>, room: string, now1: Timestamp, now2: Timestamp, p: Pos, s1: seq<Row>, s2: seq<Row>, u: nat)
    requires TwoReadings(db, table, room, now1, now2, p, s1, s2)
    requires s1 != [] && Selected(PosOf(s1[|s1| - 1]), p)
    requires u <= |s1| && forall i :: 0 <= i < |s1| ==> (s1[i].sortKey.Some? <==> u <= i)
    ensures SamePositions(s2, s1[u..])
  {
    var t := s1[u..];
    forall q ensures HasPos(s2, q) <==> HasPos(t, q) {
      SelectedPositions(db, table, room, now1, now2, p, s1, s2, q);
      SuffixPositions(s1, u, p, q);
    }
    InStep(s2, t);
  }

  function IdList(messages: seq<Message>): (ids: seq<int>)
    ensures |ids| == |messages| && forall i :: 0 <= i < |ids| ==> ids[i] == messages[i].id
  {
    seq(|messages|, i requires 0 <= i < |messages| => messages[i].id)
  }

  lemma SameEnds(a: seq<Row>, b: seq<Row>, n: nat)
    requires SamePositions(a, b)
    ensures IdList(MessagesOf(Last(a, n))) == IdList(MessagesOf(Last(b, n)))
  {
  }

  lemma SameRowSelected(
    db: Sqlite, table: set<Stored>, room: string, now1: Timestamp, now2: Timestamp, p: Pos, s1: seq<Row>, s2: seq<Row>, i: nat, j: nat)
    requires TwoReadings(db, table, room, now1, now2, p, s1, s2)
    requires i < |s1| && j < |s2| && s1[i].message.id == s2[j].message.id
    ensures Selected(PosOf(s1[i]), p)
  {
    assert s1[i] in s1 && s2[j] in s2;
    var y := ReadAgain(db, table, room, now1, now2, s1[i]);
    ReadIsUnique(db, table, now2);
    assert y == s2[j];
  }

  lemma SameIdsIf(
    db: Sqlite, table: set<Stored>, room: string, now1: Timestamp, now2: Timestamp, p: Pos, s1: seq<Row>, s2: seq<Row>, n: nat)
    requires TwoReadings(db, table, room, now1, now2, p, s1, s2) && 1 <= n < |s1|
    requires s1[|s1| - n].sortKey.Some? && Selected(PosOf(s1[|s1| - 1]), p)
    ensures IdList(MessagesOf(Last(s2, n))) == IdList(MessagesOf(Last(s1, n)))
    ensures Keyed(Candidates(ReadTable(db, table, now1), room, None)) ==> |s2| == |s1|
  {
    var u := KeyedFrom(s1);
    SecondList(db, table, room, now1, now2, p, s1, s2, u);
    SameEnds(s2, s1[u..], n);
    assert Last(s1[u..], n) == Last(s1, n);
    assert s1[0] in s1;
  }

  lemma SameIdsOnlyIf(
    db: Sqlite, table: set<Stored>, room: string, now1: Timestamp, now2: Timestamp, p: Pos, s1: seq<Row>, s2: seq<Row>, n: nat)
    requires TwoReadings(db, table, room, now1, now2, p, s1, s2) && 1 <= n < |s1|
    requires IdList(MessagesOf(Last(s2, n))) == IdList(MessagesOf(Last(s1, n)))
    ensures s1[|s1| - n].sortKey.Some? && Selected(PosOf(s1[|s1| - 1]), p)
  {
    var a, b := Last(s1, n), Last(s2, n);
    assert |IdList(MessagesOf(b))| == n;
    assert IdList(MessagesOf(a))[0] == IdList(MessagesOf(b))[0];
    assert IdList(MessagesOf(a))[n - 1] == IdList(MessagesOf(b))[n - 1];
    assert a[0] == s1[|s1| - n] && b[0] == s2[|s2| - n];
    SameRowSelected(db, table, room, now1, now2, p, s1, s2, |s1| - n, |s2| - n);
    SameRowSelected(db, table, room, now1, now2, p, s1, s2, |s1| - 1, |s2| - 1);
  }

  // ---------------------------------------------------------------- the endpoint

  /** One request for `n` messages at one time. */
  ghost predicate Answers(
    api: Api, db: Sqlite, table: set<Stored>, room: string, n: int, now: Timestamp, before: Option<Pos>, r: Response, s: seq<Row>)
  {
    && n >= 1 && Lists(s, Candidates(ReadTable(db, table, now), room, before))
    && r.Page? && r.messages == MessagesOf(Last(s, n)) && r.hasMore == (|s| > n) == r.next.Some?
    && (r.hasMore ==> r.next == api.codec.encode(room, r.messages[0].timestamp, r.messages[0].id))
  }

  lemma ReadAnswers(
    api: Api, db: Sqlite, table: set<Stored>, room: string, n: int, now: Timestamp, q: Request, before: Option<Pos>)
    returns (s: seq<Row>)
    requires Faithful(api.codec) && CanonicalRoom(room) && 1 <= n <= MAX_LIMIT && Readable(db, table, room, now)
    requires q.room == room && q.limit == Number(n) && Continuation(api, room, q.before) == Some(before)
    ensures UniqueIds(ReadTable(db, table, now))
    ensures Answers(api, db, table, room, n, now, before, Answer(api, ReadTable(db, table, now), q), s)
  {
    var store := ReadTable(db, table, now);
    ReadIsUnique(db, table, now);
    AnswerIsRespond(store, api, q, before);
    var rows := Candidates(store, room, before);
    RespondIsPage(api, room, rows, n);
    RespondFacts(api, room, rows, n);
    ChronologicalLists(rows);
    s := Chronological(rows);
  }

  /** The position the cursor of a page stands for. */
  function CursorOf(oldest: Row, api: Api): Pos { MessagePos(oldest.message, api) }

  lemma SecondRequest(
    api: Api, db: Sqlite, table: set<Stored>, room: string, n: int, now: Timestamp, first: Response, s: seq<Row>)
    requires Faithful(api.codec) && CanonicalRoom(room) && 1 <= n < |s| && Readable(db, table, room, now)
    requires Answers(api, db, table, room, n, now, None, first, s)
    ensures first.next.Some? && Continuation(api, room, [first.next.value]) == Some(Some(CursorOf(s[|s| - n], api)))
  {
    var oldest := s[|s| - n];
    assert oldest in s && first.messages[0] == oldest.message;
    var st :| st in table && oldest == ReadRow(db, st, now);
    CursorContinues(room, oldest.message, api);
  }

  /** Two requests, the second with the cursor of the first, at any two times: the second returns the very page of
      the first, so that older messages are never reached, if and only if the oldest row shown has a
      key and its reported time sorts after the newest row. */
  lemma StuckExactlyWhen(
    api: Api, db: Sqlite, table: set<Stored>, room: string, n: int, now1: Timestamp, now2: Timestamp)
    returns (s: seq<Row>, first: Response, again: Response)
    requires Faithful(api.codec) && CanonicalRoom(room) && 1 <= n <= MAX_LIMIT
    requires Readable(db, table, room, now1) && Readable(db, table, room, now2)
    requires |Candidates(ReadTable(db, table, now1), room, None)| > n
    ensures UniqueIds(ReadTable(db, table, now1)) && UniqueIds(ReadTable(db, table, now2))
    ensures Lists(s, Candidates(ReadTable(db, table, now1), room, None)) && |s| > n
    ensures first == Answer(api, ReadTable(db, table, now1), Request(room, Number(n), [])) && first.Page? && first.next.Some?
    ensures again == Answer(api, ReadTable(db, table, now2), Request(room, Number(n), [first.next.value])) && again.Page?
    ensures first.messages == MessagesOf(Last(s, n))
    ensures IdList(again.messages) == IdList(first.messages)
            <==> s[|s| - n].sortKey.Some? && Selected(PosOf(s[|s| - 1]), CursorOf(s[|s| - n], api))
    ensures IdList(again.messages) == IdList(first.messages) && Keyed(Candidates(ReadTable(db, table, now1), room, None)) ==>
              again.next.Some?
  {
    s := ReadAnswers(api, db, table, room, n, now1, Request(room, Number(n), []), None);
    first := Answer(api, ReadTable(db, table, now1), Request(room, Number(n), []));
    ListLength(s, Candidates(ReadTable(db, table, now1), room, None));
    SecondRequest(api, db, table, room, n, now1, first, s);
    var p := CursorOf(s[|s| - n], api);
    var q := Request(room, Number(n), [first.next.value]);
    var t := ReadAnswers(api, db, table, room, n, now2, q, Some(p));
    again := Answer(api, ReadTable(db, table, now2), q);
    if s[|s| - n].sortKey.Some? && Selected(PosOf(s[|s| - 1]), p) {
      SameIdsIf(db, table, room, now1, now2, p, s, t, n);
    } else if IdList(again.messages) == IdList(first.messages) {
      SameIdsOnlyIf(db, table, room, now1, now2, p, s, t, n);
    }
  }

  /** A text the repository can parse gets the key of the time it parses to. */
  ghost predicate Agrees(db: Sqlite, key: Timestamp -> int)
  {
    forall text :: db.parse(text).Some? ==> db.julianday(text) == Some(key(db.parse(text).value))
  }

  function StoredPos(db: Sqlite, s: Stored): Pos { Pos(db.julianday(s.text), s.message.id) }

  ghost predicate NewestStored(db: Sqlite, table: set<Stored>, room: string, st: Stored)
  {
    && st in table && st.message.room == room
    && forall x :: x in table && x.message.room == room ==> x == st || Before(StoredPos(db, x), StoredPos(db, st))
  }

  lemma NewestIsListedLast(db: Sqlite, table: set<Stored>, room: string, now: Timestamp, st: Stored, s: seq<Row>)
    requires NewestStored(db, table, room, st) && Lists(s, Candidates(ReadTable(db, table, now), room, None))
    ensures s != [] && s[|s| - 1] == ReadRow(db, st, now)
  {
    var y := ReadRow(db, st, now);
    assert y in s;
    var i :| 0 <= i < |s| && s[i] == y;
    var x := s[|s| - 1];
    assert x in s;
    var other :| other in table && x == ReadRow(db, other, now);
    assert i < |s| - 1 ==> Older(y, x);
  }

  /** Reading one message at a time, the endpoint never gets past the newest row if and only if the row's text is one the
      repository cannot parse but the database can, and the time of the request sorts after it. */
  lemma StuckExactlyWhenUnparsed(
    api: Api, db: Sqlite, table: set<Stored>, room: string, st: Stored, now1: Timestamp, now2: Timestamp)
    returns (first: Response, again: Response)
    requires Faithful(api.codec) && CanonicalRoom(room) && Agrees(db, api.key) && NewestStored(db, table, room, st)
    requires Readable(db, table, room, now1) && Readable(db, table, room, now2)
    requires |Candidates(ReadTable(db, table, now1), room, None)| > 1
    ensures UniqueIds(ReadTable(db, table, now1)) && UniqueIds(ReadTable(db, table, now2))
    ensures first == Answer(api, ReadTable(db, table, now1), Request(room, Number(1), [])) && first.Page? && first.next.Some?
    ensures again == Answer(api, ReadTable(db, table, now2), Request(room, Number(1), [first.next.value])) && again.Page?
    ensures IdList(first.messages) == [st.message.id]
    ensures IdList(again.messages) == [st.message.id]
            <==> db.parse(st.text).None? && db.julianday(st.text).Some? && api.key(now1) > db.julianday(st.text).value
  {
    var s;
    s, first, again := StuckExactlyWhen(api, db, table, room, 1, now1, now2);
    NewestIsListedLast(db, table, room, now1, st, s);
    assert IdList(first.messages) == [st.message.id];
  }

  // ---------------------------------------------------------------- at one table

  /** Times to the minute are a text SQLite reads and the repository does not. */
  const MINUTE_TEXT := "2026-08-06T10:00"

  const MORNING := Timestamp(2026, 8, 6, 9, 59, 0, 0)

  const YEARS := Sqlite(text => if text == MINUTE_TEXT then None else Some(MORNING), text => Some(2026))

  const OLDER := Stored(Message(1, "", "ann", "hi", CHAT, "general", ZERO), "2026-08-06T09:59:00Z")

  const NEWER := Stored(Message(2, "", "ann", "there", CHAT, "general", ZERO), MINUTE_TEXT)

  /** A concrete table and two moments at which the endpoint answers the cursor of message 2 with message 2. */
  lemma StuckAtOneTable(codec: Codec) returns (first: Response, again: Response)
    requires Faithful(codec)
    ensures var table, api := {OLDER, NEWER}, Api((t: Timestamp) => t.year, codec);
            var now1, now2 := Timestamp(2027, 1, 1, 0, 0, 0, 0), Timestamp(2027, 1, 1, 0, 0, 1, 0);
            && UniqueIds(ReadTable(YEARS, table, now1)) && UniqueIds(ReadTable(YEARS, table, now2))
            && first == Answer(api, ReadTable(YEARS, table, now1), Request("general", Number(1), [])) && first.Page?
            && first.next.Some? && again == Answer(api, ReadTable(YEARS, table, now2), Request("general", Number(1), [first.next.value]))
            && again.Page? && IdList(first.messages) == [2] == IdList(again.messages)
  {
    var table, api := {OLDER, NEWER}, Api((t: Timestamp) => t.year, codec);
    var now1, now2 := Timestamp(2027, 1, 1, 0, 0, 0, 0), Timestamp(2027, 1, 1, 0, 0, 1, 0);
    TwoRows(now1);
    first, again := StuckExactlyWhenUnparsed(api, YEARS, table, "general", NEWER, now1, now2);
  }

  lemma TwoRows(now: Timestamp)
    ensures |Candidates(ReadTable(YEARS, {OLDER, NEWER}, now), "general", None)| == 2
  {
    var a, b := ReadRow(YEARS, OLDER, now), ReadRow(YEARS, NEWER, now);
    assert Candidates(ReadTable(YEARS, {OLDER, NEWER}, now), "general", None) == {a, b};
    assert a.message.id != b.message.id;
  }
}
