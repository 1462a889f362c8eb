/** The message table and the two history queries (backend/db/database.go, backend/db/postgres.go).
    Rows are ordered by a sort key and then by id. Postgres sorts by the timestamp itself, SQLite by
    `julianday(timestamp)`, which is NULL for a text it cannot read; everything here holds for any key. */
module Store {
  import opened Text
  import opened Messages
  import opened Seqs

  /** A stored row: the message as the repository reports it, and the key the database sorts it by, if it has one. */
  datatype Row = Row(message: Message, sortKey: Option<int>)

  datatype Pos = Pos(key: Option<int>, id: int)

  function PosOf(r: Row): Pos { Pos(r.sortKey, r.message.id) }

  /** The sort order: rows without a key come before all others. */
  predicate Before(a: Pos, b: Pos)
  {
    if a.key == b.key then a.id < b.id else b.key.Some? && (a.key.Some? ==> a.key.value < b.key.value)
  }

  /** The filter of the continuation query: a comparison with NULL selects nothing. */
  predicate Selected(a: Pos, b: Pos) { a.key.Some? && b.key.Some? && Before(a, b) }

  predicate Older(a: Row, b: Row) { Before(PosOf(a), PosOf(b)) }

  /** Primary keys: no two rows share an id. */
  ghost predicate UniqueIds(rows: set<Row>)
  {
    forall a, b :: a in rows && b in rows && a.message.id == b.message.id ==> a == b
  }

  predicate IsNewest(rows: set<Row>, m: Row)
  {
    m in rows && forall r :: r in rows ==> r == m || Older(r, m)
  }

  lemma NewestExists(rows: set<Row>)
    requires UniqueIds(rows) && rows != {}
    ensures exists m :: IsNewest(rows, m)
  {
    var r :| r in rows;
    if rows == {r} {
      assert IsNewest(rows, r);
    } else {
      var rest := rows - {r};
      NewestExists(rest);
      var m :| IsNewest(rest, m);
      assert r.message.id != m.message.id;
      assert forall x :: x in rows ==> x == r || x in rest;
      assert if Older(r, m) then IsNewest(rows, m) else IsNewest(rows, r);
    }
  }

  /** The rows in chronological order. */
  function Chronological(rows: set<Row>): (s: seq<Row>)
    requires UniqueIds(rows)
    ensures |s| == |rows|
    decreases |rows|
  {
    if rows == {} then []
    else
      NewestExists(rows);
      var m :| IsNewest(rows, m);
      Chronological(rows - {m}) + [m]
  }

  ghost predicate Ascending(s: seq<Row>)
  {
    forall i, j :: 0 <= i < j < |s| ==> Older(s[i], s[j])
  }

  /** `s` lists the rows oldest first: the order is right and nothing is lost or invented. */
  ghost predicate Lists(s: seq<Row>, rows: set<Row>)
  {
    Ascending(s) && forall r :: r in s <==> r in rows
  }

  lemma {:induction false} ChronologicalLists(rows: set<Row>)
    requires UniqueIds(rows)
    ensures Lists(Chronological(rows), rows)
    decreases |rows|
  {
    if rows != {} {
      NewestExists(rows);
      var m :| IsNewest(rows, m) && Chronological(rows) == Chronological(rows - {m}) + [m];
      ChronologicalLists(rows - {m});
      ListsAppend(Chronological(rows - {m}), rows, m);
    }
  }

  lemma ListsAppend(s: seq<Row>, rows: set<Row>, m: Row)
    requires Lists(s, rows - {m}) && IsNewest(rows, m)
    ensures Lists(s + [m], rows)
  {
    assert forall i :: 0 <= i < |s| ==> s[i] in s;
  }

  lemma ListIsEmptyExactlyWhen(s: seq<Row>, rows: set<Row>)
    requires Lists(s, rows)
    ensures s == [] <==> rows == {}
  {
    if s == [] {
      assert rows == {};
    } else {
      assert s[0] in s;
    }
  }

  lemma SameNewest(a: seq<Row>, b: seq<Row>, rows: set<Row>)
    requires Lists(a, rows) && Lists(b, rows) && a != [] && b != []
    ensures a[|a| - 1] == b[|b| - 1]
  {
    var m, n := a[|a| - 1], b[|b| - 1];
    assert m in b && n in a;
    var i :| 0 <= i < |b| && b[i] == m;
    var j :| 0 <= j < |a| && a[j] == n;
    assert i < |b| - 1 ==> Older(m, n);
    assert j < |a| - 1 ==> Older(n, m);
  }

  /** There is only one such list. */
  lemma {:induction false} ListIsUnique(a: seq<Row>, b: seq<Row>, rows: set<Row>)
    requires Lists(a, rows) && Lists(b, rows)
    ensures a == b
    decreases |a|
  {
    ListIsEmptyExactlyWhen(a, rows);
    ListIsEmptyExactlyWhen(b, rows);
    if a != [] {
      var m := a[|a| - 1];
      SameNewest(a, b, rows);
      DropNewest(a, rows);
      DropNewest(b, rows);
      ListIsUnique(a[..|a| - 1], b[..|b| - 1], rows - {m});
      assert a == a[..|a| - 1] + [m] && b == b[..|b| - 1] + [m];
    }
  }

  lemma DropNewest(s: seq<Row>, rows: set<Row>)
    requires Lists(s, rows) && s != []
    ensures Lists(s[..|s| - 1], rows - {s[|s| - 1]})
  {
    var t, m := s[..|s| - 1], s[|s| - 1];
    assert s == t + [m];
    assert forall i :: 0 <= i < |t| ==> Older(t[i], m);
  }

  function OlderThan(rows: set<Row>, p: Pos): set<Row>
  {
    set r | r in rows && Selected(PosOf(r), p)
  }

  ghost predicate Keyed(rows: set<Row>) { forall r :: r in rows ==> r.sortKey.Some? }

  /** When every row has a key, the rows older than the k-th row are the k rows listed before it. */
  lemma OlderRowsAreListedBefore(s: seq<Row>, rows: set<Row>, k: nat)
    requires Lists(s, rows) && Keyed(rows) && k < |s|
    ensures Lists(s[..k], OlderThan(rows, PosOf(s[k])))
  {
    assert s[k] in s;
    forall r ensures r in s[..k] <==> r in OlderThan(rows, PosOf(s[k])) {
      if r in OlderThan(rows, PosOf(s[k])) {
        var i :| 0 <= i < |s| && s[i] == r;
        assert i < k;
        assert s[..k][i] == r;
      }
    }
  }

  /** The rows of a room, and of those only the ones before a position when one is given. */
  function Candidates(store: set<Row>, room: string, before: Option<Pos>): set<Row>
  {
    var rows := set r | r in store && r.message.room == room;
    if before.None? then rows else OlderThan(rows, before.value)
  }

  /** ORDER BY key DESC, id DESC LIMIT n. */
  function SelectDescending(rows: set<Row>, n: nat): seq<Row>
    requires UniqueIds(rows)
  {
    Reversed(Last(Chronological(rows), n))
  }

  function Reversed<T>(s: seq<T>): (r: seq<T>)
    ensures |r| == |s|
    ensures forall i :: 0 <= i < |s| ==> r[i] == s[|s| - 1 - i]
  {
    seq(|s|, i requires 0 <= i < |s| => s[|s| - 1 - i])
  }

  function MessagesOf(rows: seq<Row>): (ms: seq<Message>)
    ensures |ms| == |rows|
    ensures forall i :: 0 <= i < |rows| ==> ms[i] == rows[i].message
  {
    seq(|rows|, i requires 0 <= i < |rows| => rows[i].message)
  }

  method ReverseInPlace<T>(a: array<T>)
    modifies a
    ensures a[..] == Reversed(old(a[..]))
  {
    var i, j := 0, a.Length - 1;
    while i < j
      invariant 0 <= i && i + j == a.Length - 1 && i <= j + 1
      invariant forall k :: 0 <= k < i || j < k < a.Length ==> a[k] == old(a[a.Length - 1 - k])
      invariant forall k :: i <= k <= j ==> a[k] == old(a[k])
    {
      a[i], a[j] := a[j], a[i];
      i, j := i + 1, j - 1;
    }
  }

  /** `GetRecentMessagesInRoomContext` and `GetMessagesBeforeInRoomContext`: scan the result of the
      descending query into a slice, reverse it in place. The result is the newest `limit`
      candidates in chronological order. */
  method GetMessages(store: set<Row>, room: string, before: Option<Pos>, limit: nat) returns (messages: seq<Message>)
    requires UniqueIds(store)
    ensures messages == MessagesOf(Last(Chronological(Candidates(store, room, before)), limit))
  {
    var rows := SelectDescending(Candidates(store, room, before), limit);
    var slice: seq<Message> := [];
    for i := 0 to |rows|
      invariant slice == MessagesOf(rows[..i])
    {
      slice := slice + [rows[i].message];
    }
    if slice == [] {
      return [];
    }
    var a := new Message[|slice|](i requires 0 <= i < |slice| => slice[i]);
    assert a[..] == slice;
    ReverseInPlace(a);
    messages := a[..];
  }

  const REPLAY_LIMIT := 50

  /** The rows the hub replays to a client that joins a room (`sendMessageHistory`): what `GetMessages` returns. */
  function Recent(store: set<Row>, room: string): seq<Message>
    requires UniqueIds(store)
  {
    MessagesOf(Last(Chronological(Candidates(store, room, None)), REPLAY_LIMIT))
  }

  lemma RecentIsOfTheRoom(store: set<Row>, room: string, k: nat)
    requires UniqueIds(store) && k < |Recent(store, room)|
    ensures Recent(store, room)[k].room == room
  {
    var rows := Candidates(store, room, None);
    ChronologicalLists(rows);
    var page := Last(Chronological(rows), REPLAY_LIMIT);
    assert page[k] in Chronological(rows);
  }

  /** The replay is the newest fifty rows of the room, oldest first. */
  lemma RecentExactly(store: set<Row>, room: string, s: seq<Row>)
    requires UniqueIds(store) && Lists(s, Candidates(store, room, None))
    ensures |Recent(store, room)| == if |s| <= 50 then |s| else 50
    ensures forall k :: 0 <= k < |Recent(store, room)| ==>
              Recent(store, room)[k] == s[|s| - |Recent(store, room)| + k].message
  {
    var rows := Candidates(store, room, None);
    ChronologicalLists(rows);
    ListIsUnique(s, Chronological(rows), rows);
  }
}
