/** Whole walks over the history endpoint: one page after another, each asked for with the cursor
    of the page before, over a table that may change between the requests. */
module Walks {
  import opened Text
  import opened Rooms
  import opened Clock
  import opened Messages
  import opened Store
  import opened Seqs
  import opened HistoryCursor
  import opened History
  import opened Chains
  import Json

  /** A row whose reported time has the row's sort key, which is what makes its cursor faithful. The
      SQLite repository reports the current time for a timestamp it cannot parse, and then this fails. */
  predicate WellFormedRow(r: Row, api: Api)
  {
    var m := r.message;
    && 1 <= m.id < Json.INT64_LIMIT && CanonicalRoom(m.room)
    && Printable(m.timestamp) && m.timestamp != ZERO && r.sortKey == Some(api.key(m.timestamp))
  }

  ghost predicate WellFormedStore(store: set<Row>, api: Api)
  {
    UniqueIds(store) && forall r :: r in store ==> WellFormedRow(r, api)
  }

  /** Cursors for well-formed rows read back as what was encoded. */
  ghost predicate Faithful(codec: Codec)
  {
    forall room, t, id :: Encodable(room, t, id) ==>
      && codec.encode(room, t, id).Some?
      && codec.decode(codec.encode(room, t, id).value) == Some(Cursor(CURSOR_VERSION, room, t, id))
  }

  predicate Encodable(room: string, t: Timestamp, id: int)
  {
    CanonicalRoom(room) && Printable(t) && t != ZERO && 1 <= id < Json.INT64_LIMIT
  }

  /** The cursors the endpoint uses are faithful, so everything below holds of the endpoint. */
  lemma CursorsAreFaithful(read: Reader)
    requires ReadsBack(read)
    ensures Faithful(Cursors(read))
  {
    forall room, t, id | Encodable(room, t, id)
      ensures var raw := EncodeCursor(room, t, id);
              raw.Some? && DecodeCursor(read, raw.value) == Some(Cursor(CURSOR_VERSION, room, t, id))
    {
      CursorRoundTrip(read, room, t, id);
    }
  }

  function MessagePos(m: Message, api: Api): Pos { Pos(Some(api.key(m.timestamp)), m.id) }

  // ---------------------------------------------------------------- one page

  /** A page, stated on the one chronological list of its candidates. */
  ghost predicate PageOf(r: Response, s: seq<Row>)
  {
    && r.Page? && r.limit >= 1
    && r.messages == MessagesOf(Last(s, r.limit))
    && r.hasMore == (|s| > r.limit) == r.next.Some?
  }

  lemma RespondFacts(api: Api, room: string, rows: set<Row>, limit: int)
    requires UniqueIds(rows) && limit >= 1 && Respond(api, room, rows, limit).Page?
    ensures var r := Respond(api, room, rows, limit);
            && PageOf(r, Chronological(rows)) && r.limit == limit
            && (r.hasMore ==> r.next == api.codec.encode(room, r.messages[0].timestamp, r.messages[0].id))
  {
  }

  /** The cursor of a page continues exactly where the page stopped. */
  lemma CursorContinues(room: string, m: Message, api: Api)
    requires Faithful(api.codec) && Encodable(room, m.timestamp, m.id)
    ensures var next := api.codec.encode(room, m.timestamp, m.id);
            next.Some? && Continuation(api, room, [next.value]) == Some(Some(MessagePos(m, api)))
  {
    EqualFoldOnCanonicalIsEquality(room, room);
  }

  lemma AnswerIsRespond(store: set<Row>, api: Api, q: Request, before: Option<Pos>)
    requires UniqueIds(store) && CanonicalRoom(q.room) && Continuation(api, q.room, q.before) == Some(before)
    ensures Answer(api, store, q) == match Limit(q.limit) case None => BadRequest
                                     case Some(limit) => Respond(api, q.room, Candidates(store, q.room, before), limit)
  {
    NormalizeFixesExactlyCanonical(q.room);
  }

  /** What one request returns, and where the next one will continue. */
  lemma AnswerFacts(store: set<Row>, api: Api, q: Request, before: Option<Pos>)
    requires Faithful(api.codec) && WellFormedStore(store, api) && CanonicalRoom(q.room)
    requires Continuation(api, q.room, q.before) == Some(before) && Answer(api, store, q).Page?
    ensures var r := Answer(api, store, q);
            && PageOf(r, Chronological(Candidates(store, q.room, before)))
            && (r.hasMore ==> Continuation(api, q.room, [r.next.value]) == Some(Some(MessagePos(r.messages[0], api))))
  {
    AnswerIsRespond(store, api, q, before);
    var rows := Candidates(store, q.room, before);
    var r := Answer(api, store, q);
    RespondFacts(api, q.room, rows, Limit(q.limit).value);
    ChronologicalLists(rows);
    if r.hasMore {
      var first := Last(Chronological(rows), r.limit)[0];
      assert first in Chronological(rows);
      assert WellFormedRow(first, api);
      CursorContinues(q.room, r.messages[0], api);
    }
  }

  // ---------------------------------------------------------------- walks

  /** One request of a walk: the table as it was, the limit asked for, and the answer. */
  datatype Visit = Visit(store: set<Row>, limit: LimitParam, response: Response)

  ghost predicate Linked(visits: seq<Visit>)
  {
    && (forall i :: 0 <= i < |visits| ==> visits[i].response.Page?)
    && (forall i :: 0 <= i < |visits| - 1 ==> visits[i].response.next.Some?)
  }

  ghost function RequestOf(visits: seq<Visit>, i: nat, room: string): Request
    requires Linked(visits) && i < |visits|
  {
    Request(room, visits[i].limit, if i == 0 then [] else [visits[i - 1].response.next.value])
  }

  /** Every request is answered with a page and continues from the page before. The table and
      the limit may be different at every request. */
  ghost predicate IsWalk(visits: seq<Visit>, room: string, api: Api)
  {
    && Faithful(api.codec) && visits != [] && CanonicalRoom(room) && Linked(visits)
    && forall i :: 0 <= i < |visits| ==> Answered(visits, i, room, api)
  }

  ghost predicate Answered(visits: seq<Visit>, i: nat, room: string, api: Api)
    requires Linked(visits) && i < |visits|
  {
    && WellFormedStore(visits[i].store, api)
    && visits[i].response == Answer(api, visits[i].store, RequestOf(visits, i, room))
  }

  /** Where request `i` continues from. */
  ghost function Cut(visits: seq<Visit>, i: nat, api: Api): Option<Pos>
    requires Linked(visits) && i < |visits|
  {
    if i == 0 || visits[i - 1].response.messages == [] then None
    else Some(MessagePos(visits[i - 1].response.messages[0], api))
  }

  /** A page of a walk on lists: `s` lists the rows the request selects from, and `page` is its end. */
  ghost predicate Shows(v: Visit, cut: Option<Pos>, s: seq<Row>, page: seq<Row>, room: string, api: Api)
  {
    && WellFormedStore(v.store, api) && Lists(s, Candidates(v.store, room, cut))
    && PageOf(v.response, s) && page == Last(s, v.response.limit)
  }

  /** The next cursor of a page stands for the position of its oldest message. */
  ghost predicate Points(r: Response, room: string, api: Api)
  {
    && r.Page?
    && (r.next.Some? ==>
          && r.messages != []
          && Continuation(api, room, [r.next.value]) == Some(Some(MessagePos(r.messages[0], api))))
  }

  lemma VisitShows(v: Visit, api: Api, q: Request, before: Option<Pos>) returns (s: seq<Row>, page: seq<Row>)
    requires Faithful(api.codec) && WellFormedStore(v.store, api) && CanonicalRoom(q.room) && v.response.Page?
    requires Continuation(api, q.room, q.before) == Some(before) && v.response == Answer(api, v.store, q)
    ensures Shows(v, before, s, page, q.room, api) && Points(v.response, q.room, api)
  {
    AnswerFacts(v.store, api, q, before);
    var rows := Candidates(v.store, q.room, before);
    ChronologicalLists(rows);
    s := Chronological(rows);
    page := Last(s, v.response.limit);
  }

  lemma CutIsContinuation(visits: seq<Visit>, room: string, api: Api, i: nat)
    requires Linked(visits) && i < |visits| && (i > 0 ==> Points(visits[i - 1].response, room, api))
    ensures Continuation(api, room, RequestOf(visits, i, room).before) == Some(Cut(visits, i, api))
  {
    if i > 0 {
      var h := i - 1;
      assert visits[h].response.next.Some?;
    }
  }

  lemma NextPoints(visits: seq<Visit>, room: string, api: Api, i: nat) returns (s: seq<Row>, page: seq<Row>)
    requires IsWalk(visits, room, api) && i < |visits| && (i > 0 ==> Points(visits[i - 1].response, room, api))
    ensures Shows(visits[i], Cut(visits, i, api), s, page, room, api) && Points(visits[i].response, room, api)
  {
    CutIsContinuation(visits, room, api, i);
    assert Answered(visits, i, room, api);
    s, page := VisitShows(visits[i], api, RequestOf(visits, i, room), Cut(visits, i, api));
  }

  lemma ShownRows(v: Visit, cut: Option<Pos>, s: seq<Row>, page: seq<Row>, room: string, api: Api)
    requires Shows(v, cut, s, page, room, api)
    ensures Ends(page, s)
    ensures forall k :: 0 <= k < |s| ==>
              s[k] in v.store && WellFormedRow(s[k], api) && (cut.Some? ==> Before(PosOf(s[k]), cut.value))
    ensures v.response.messages == MessagesOf(page) && (v.response.next.Some? ==> page != [])
    ensures page != [] ==> MessagePos(v.response.messages[0], api) == PosOf(page[0])
  {
    assert forall k :: 0 <= k < |s| ==> s[k] in s;
    assert page != [] ==> page[0] == s[|s| - |page|];
  }

  ghost predicate AllShow(
    visits: seq<Visit>, lists: seq<seq<Row>>, pages: seq<seq<Row>>, room: string, api: Api)
  {
    && Linked(visits) && |lists| == |pages| == |visits|
    && forall i {:trigger lists[i]} :: 0 <= i < |visits| ==> Shows(visits[i], Cut(visits, i, api), lists[i], pages[i], room, api)
  }

  lemma WalkLists(visits: seq<Visit>, room: string, api: Api)
    returns (lists: seq<seq<Row>>, pages: seq<seq<Row>>)
    requires IsWalk(visits, room, api)
    ensures AllShow(visits, lists, pages, room, api)
  {
    lists, pages := [], [];
    for i := 0 to |visits|
      invariant |lists| == |pages| == i
      invariant i > 0 ==> Points(visits[i - 1].response, room, api)
      invariant forall j {:trigger lists[j]} :: 0 <= j < i ==> Shows(visits[j], Cut(visits, j, api), lists[j], pages[j], room, api)
    {
      var s, page := NextPoints(visits, room, api, i);
      lists, pages := lists + [s], pages + [page];
    }
  }

  lemma WalkIsChain(visits: seq<Visit>, lists: seq<seq<Row>>, pages: seq<seq<Row>>, room: string, api: Api)
    requires AllShow(visits, lists, pages, room, api)
    ensures Chain(lists, pages)
  {
    forall i | 0 <= i < |pages| ensures Ends(pages[i], lists[i]) {
      ShownRows(visits[i], Cut(visits, i, api), lists[i], pages[i], room, api);
    }
    forall i | 0 <= i < |pages| - 1 ensures pages[i] != [] && AllOlder(lists[i + 1], pages[i][0]) {
      ShownRows(visits[i], Cut(visits, i, api), lists[i], pages[i], room, api);
      ShownRows(visits[i + 1], Cut(visits, i + 1, api), lists[i + 1], pages[i + 1], room, api);
    }
  }

  // ---------------------------------------------------------------- a table that changes

  /** Ids are never reused and a row never changes: across all tables of the walk, one id is one row. */
  ghost predicate StableIds(visits: seq<Visit>)
  {
    forall i, j, r, s :: 0 <= i < |visits| && 0 <= j < |visits| ==>
      r in visits[i].store && s in visits[j].store && r.message.id == s.message.id ==> r == s
  }

  /** No message is ever returned twice in a walk, whatever is inserted or pruned meanwhile. */
  lemma NoMessageTwice(visits: seq<Visit>, room: string, api: Api, i: nat, a: nat, j: nat, b: nat)
    requires IsWalk(visits, room, api) && StableIds(visits) && i <= j < |visits|
    requires a < |visits[i].response.messages| && b < |visits[j].response.messages| && (i == j ==> a < b)
    ensures visits[i].response.messages[a].id != visits[j].response.messages[b].id
  {
    var lists, pages := WalkLists(visits, room, api);
    PagesDiffer(visits, lists, pages, room, api, i, a, j, b);
  }

  lemma DifferentRows(visits: seq<Visit>, i: nat, j: nat, x: Row, y: Row)
    requires StableIds(visits) && i < |visits| && j < |visits| && x in visits[i].store && y in visits[j].store && Older(y, x)
    ensures x.message.id != y.message.id
  {
  }

  lemma PagesDiffer(
    visits: seq<Visit>, lists: seq<seq<Row>>, pages: seq<seq<Row>>, room: string, api: Api,
    i: nat, a: nat, j: nat, b: nat)
    requires AllShow(visits, lists, pages, room, api) && StableIds(visits) && i <= j < |visits|
    requires a < |visits[i].response.messages| && b < |visits[j].response.messages| && (i == j ==> a < b)
    ensures visits[i].response.messages[a].id != visits[j].response.messages[b].id
  {
    WalkIsChain(visits, lists, pages, room, api);
    PageRow(visits, lists, pages, room, api, i, a);
    PageRow(visits, lists, pages, room, api, j, b);
    if i < j {
      LaterPagesAreOlder(lists, pages, i, a, j, b);
      DifferentRows(visits, i, j, pages[i][a], pages[j][b]);
    } else {
      assert Ends(pages[i], lists[i]);
      DifferentRows(visits, i, i, pages[i][b], pages[i][a]);
    }
  }

  lemma PageRow(
    visits: seq<Visit>, lists: seq<seq<Row>>, pages: seq<seq<Row>>, room: string, api: Api, i: nat, a: nat)
    requires AllShow(visits, lists, pages, room, api) && i < |visits| && a < |visits[i].response.messages|
    ensures a < |pages[i]| && visits[i].response.messages[a] == pages[i][a].message && pages[i][a] in visits[i].store
  {
    ShownRows(visits[i], Cut(visits, i, api), lists[i], pages[i], room, api);
    assert pages[i][a] == lists[i][|lists[i]| - |pages[i]| + a];
  }

  lemma LastingIsListed(
    visits: seq<Visit>, lists: seq<seq<Row>>, pages: seq<seq<Row>>, room: string, api: Api, r: Row)
    requires AllShow(visits, lists, pages, room, api) && Chain(lists, pages)
    requires r.message.room == room && forall j :: 0 <= j < |visits| ==> r in visits[j].store
    ensures Listed(lists, pages, r)
  {
    if visits != [] {
      assert r in Candidates(visits[0].store, room, None);
    }
    forall i | 0 <= i < |pages| - 1 && Older(r, pages[i][0]) ensures r in lists[i + 1] {
      ShownRows(visits[i], Cut(visits, i, api), lists[i], pages[i], room, api);
      assert r in visits[i + 1].store;
      assert r in Candidates(visits[i + 1].store, room, Cut(visits, i + 1, api));
    }
  }

  lemma LastingRowIsReturned(visits: seq<Visit>, room: string, api: Api, r: Row) returns (i: nat, k: nat)
    requires IsWalk(visits, room, api) && !visits[|visits| - 1].response.hasMore
    requires r.message.room == room && forall j :: 0 <= j < |visits| ==> r in visits[j].store
    ensures i < |visits| && k < |visits[i].response.messages| && visits[i].response.messages[k] == r.message
  {
    var lists, pages := WalkLists(visits, room, api);
    WalkIsChain(visits, lists, pages, room, api);
    LastingIsListed(visits, lists, pages, room, api, r);
    var n := |visits| - 1;
    assert Shows(visits[n], Cut(visits, n, api), lists[n], pages[n], room, api);
    i, k := ListedIsShown(lists, pages, r, 0);
    assert Shows(visits[i], Cut(visits, i, api), lists[i], pages[i], room, api);
  }

  /** Walks are exact under change: with ids that are never reused, a row present for the whole walk is
      returned exactly once when the walk ends. */
  lemma LastingRowIsReturnedOnce(visits: seq<Visit>, room: string, api: Api, r: Row) returns (i: nat, k: nat)
    requires IsWalk(visits, room, api) && StableIds(visits) && !visits[|visits| - 1].response.hasMore
    requires r.message.room == room && forall j :: 0 <= j < |visits| ==> r in visits[j].store
    ensures i < |visits| && k < |visits[i].response.messages| && visits[i].response.messages[k] == r.message
    ensures forall j, l :: 0 <= j < |visits| && 0 <= l < |visits[j].response.messages| ==>
              visits[j].response.messages[l].id == r.message.id ==> j == i && l == k
  {
    i, k := LastingRowIsReturned(visits, room, api, r);
    forall j, l | 0 <= j < |visits| && 0 <= l < |visits[j].response.messages|
      && visits[j].response.messages[l].id == r.message.id
      ensures j == i && l == k
    {
      if j < i || (j == i && l < k) {
        NoMessageTwice(visits, room, api, j, l, i, k);
      } else if i < j || (j == i && k < l) {
        NoMessageTwice(visits, room, api, i, k, j, l);
      }
    }
  }

  // ---------------------------------------------------------------- a table that does not

  ghost predicate SameStore(visits: seq<Visit>, store: set<Row>)
  {
    forall i :: 0 <= i < |visits| ==> visits[i].store == store
  }

  /** One step of a walk over one table: the next list is what the page left over. */
  lemma FixedStep(
    v: Visit, cut: Option<Pos>, s: seq<Row>, page: seq<Row>, w: Visit, t: seq<Row>, rest: seq<Row>,
    room: string, api: Api, whole: seq<Row>)
    requires Shows(v, cut, s, page, room, api) && v.response.next.Some? && v.response.messages != []
    requires Shows(w, Some(MessagePos(v.response.messages[0], api)), t, rest, room, api) && w.store == v.store
    requires Lists(whole, Candidates(v.store, room, None)) && |s| <= |whole| && s == whole[..|s|]
    ensures page != [] && Ends(page, s) && t == s[..|s| - |page|] && |t| <= |whole| && t == whole[..|t|]
  {
    ShownRows(v, cut, s, page, room, api);
    NextListIsTheRest(whole, Candidates(v.store, room, None), s, page, t);
  }

  lemma NextCut(visits: seq<Visit>, lists: seq<seq<Row>>, pages: seq<seq<Row>>, room: string, api: Api, h: nat)
    requires AllShow(visits, lists, pages, room, api) && h + 1 < |visits|
    ensures Shows(visits[h], Cut(visits, h, api), lists[h], pages[h], room, api)
    ensures visits[h].response.next.Some? && visits[h].response.messages != []
    ensures Shows(visits[h + 1], Some(MessagePos(visits[h].response.messages[0], api)), lists[h + 1], pages[h + 1], room, api)
  {
    assert Shows(visits[h], Cut(visits, h, api), lists[h], pages[h], room, api);
    assert Shows(visits[h + 1], Cut(visits, h + 1, api), lists[h + 1], pages[h + 1], room, api);
    assert visits[h].response.next.Some?;
  }

  ghost predicate PrefixAt(lists: seq<seq<Row>>, i: nat)
    requires i < |lists|
  {
    |lists[i]| <= |lists[0]| && lists[i] == lists[0][..|lists[i]|]
  }

  lemma FixedStepAt(
    visits: seq<Visit>, lists: seq<seq<Row>>, pages: seq<seq<Row>>, room: string, api: Api, h: nat)
    requires AllShow(visits, lists, pages, room, api) && h + 1 < |visits| && visits[h].store == visits[h + 1].store
    requires Lists(lists[0], Candidates(visits[h].store, room, None)) && PrefixAt(lists, h)
    ensures CutBetween(lists, pages, h) && PrefixAt(lists, h + 1)
  {
    NextCut(visits, lists, pages, room, api, h);
    FixedStep(visits[h], Cut(visits, h, api), lists[h], pages[h], visits[h + 1], lists[h + 1], pages[h + 1], room, api, lists[0]);
  }

  /** Every list of a walk over one table is what the page before left over. */
  lemma {:induction false} FixedWalkCuts(
    visits: seq<Visit>, lists: seq<seq<Row>>, pages: seq<seq<Row>>, room: string, api: Api, store: set<Row>, i: nat)
    requires AllShow(visits, lists, pages, room, api) && SameStore(visits, store) && i < |visits|
    requires Lists(lists[0], Candidates(store, room, None))
    ensures PrefixAt(lists, i) && (i > 0 ==> CutBetween(lists, pages, i - 1))
    decreases i
  {
    if i > 0 {
      FixedWalkCuts(visits, lists, pages, room, api, store, i - 1);
      FixedStepAt(visits, lists, pages, room, api, i - 1);
    }
  }

  lemma FirstList(
    visits: seq<Visit>, lists: seq<seq<Row>>, pages: seq<seq<Row>>, room: string, api: Api, store: set<Row>)
    requires AllShow(visits, lists, pages, room, api) && SameStore(visits, store) && visits != []
    ensures Lists(lists[0], Candidates(store, room, None))
  {
    assert Shows(visits[0], Cut(visits, 0, api), lists[0], pages[0], room, api);
  }

  lemma AllCut(visits: seq<Visit>, lists: seq<seq<Row>>, pages: seq<seq<Row>>, room: string, api: Api, store: set<Row>)
    requires AllShow(visits, lists, pages, room, api) && SameStore(visits, store) && visits != []
    ensures forall h :: 0 <= h < |visits| - 1 ==> CutBetween(lists, pages, h)
  {
    FirstList(visits, lists, pages, room, api, store);
    forall h | 0 <= h < |visits| - 1 ensures CutBetween(lists, pages, h) {
      FixedWalkCuts(visits, lists, pages, room, api, store, h + 1);
    }
  }

  lemma LastPage(visits: seq<Visit>, lists: seq<seq<Row>>, pages: seq<seq<Row>>, room: string, api: Api, n: nat)
    requires AllShow(visits, lists, pages, room, api) && n < |visits| && !visits[n].response.hasMore
    ensures Ends(pages[n], lists[n]) && |pages[n]| == |lists[n]|
  {
    ShownRows(visits[n], Cut(visits, n, api), lists[n], pages[n], room, api);
    assert Shows(visits[n], Cut(visits, n, api), lists[n], pages[n], room, api);
  }

  ghost function JoinedMessages(visits: seq<Visit>): seq<Message>
    requires forall i :: 0 <= i < |visits| ==> visits[i].response.Page?
  {
    if visits == [] then []
    else visits[|visits| - 1].response.messages + JoinedMessages(visits[..|visits| - 1])
  }

  lemma {:induction false} JoinedRowsAndMessages(visits: seq<Visit>, pages: seq<seq<Row>>)
    requires |pages| == |visits|
    requires forall i :: 0 <= i < |visits| ==> visits[i].response.Page? && visits[i].response.messages == MessagesOf(pages[i])
    ensures JoinedMessages(visits) == MessagesOf(Joined(pages))
    decreases |visits|
  {
    if visits != [] {
      JoinedRowsAndMessages(visits[..|visits| - 1], pages[..|pages| - 1]);
    }
  }

  lemma FixedWalkJoins(
    visits: seq<Visit>, lists: seq<seq<Row>>, pages: seq<seq<Row>>, room: string, api: Api, store: set<Row>)
    requires AllShow(visits, lists, pages, room, api) && SameStore(visits, store) && visits != []
    requires !visits[|visits| - 1].response.hasMore
    ensures Joined(pages) == lists[0] && Lists(lists[0], Candidates(store, room, None))
  {
    FirstList(visits, lists, pages, room, api, store);
    AllCut(visits, lists, pages, room, api, store);
    LastPage(visits, lists, pages, room, api, |visits| - 1);
    JoinedIsTheList(lists, pages);
  }

  /** Over a table that does not change, the pages of a complete walk joined oldest first are the
      room's rows in chronological order, whatever the limits and whatever the sort key. */
  lemma FixedWalkIsTheHistory(visits: seq<Visit>, room: string, api: Api, store: set<Row>)
    requires IsWalk(visits, room, api) && SameStore(visits, store) && !visits[|visits| - 1].response.hasMore
    ensures UniqueIds(store) && JoinedMessages(visits) == MessagesOf(Chronological(Candidates(store, room, None)))
  {
    var lists, pages := WalkLists(visits, room, api);
    FixedWalkJoins(visits, lists, pages, room, api, store);
    forall i | 0 <= i < |visits| ensures visits[i].response.messages == MessagesOf(pages[i]) {
      ShownRows(visits[i], Cut(visits, i, api), lists[i], pages[i], room, api);
    }
    JoinedRowsAndMessages(visits, pages);
    assert Shows(visits[0], Cut(visits, 0, api), lists[0], pages[0], room, api);
    var rows := Candidates(store, room, None);
    ChronologicalLists(rows);
    ListIsUnique(Chronological(rows), lists[0], rows);
  }

  // ---------------------------------------------------------------- a table that changes above the first page

  /** Below the first page all requests find the same rows; newer rows may come and go. */
  ghost predicate AgreeBelow(visits: seq<Visit>, room: string, api: Api)
    requires Linked(visits)
  {
    forall i :: 1 <= i < |visits| ==>
      Candidates(visits[i].store, room, Cut(visits, 1, api)) == Candidates(visits[0].store, room, Cut(visits, 1, api))
  }

  lemma CandidatesBelow(a: set<Row>, b: set<Row>, room: string, p: Pos, q: Pos)
    requires Candidates(a, room, Some(q)) == Candidates(b, room, Some(q)) && q.key.Some? && (p == q || Before(p, q))
    ensures Candidates(a, room, Some(p)) == Candidates(b, room, Some(p))
  {
    forall r ensures r in Candidates(a, room, Some(p)) <==> r in Candidates(b, room, Some(p)) {
      assert r in Candidates(a, room, Some(q)) <==> r in Candidates(b, room, Some(q));
    }
  }

  lemma CutIsOldestShown(
    visits: seq<Visit>, lists: seq<seq<Row>>, pages: seq<seq<Row>>, room: string, api: Api, h: nat)
    requires AllShow(visits, lists, pages, room, api) && h + 1 < |visits|
    ensures pages[h] != [] && Cut(visits, h + 1, api) == Some(PosOf(pages[h][0])) && pages[h][0].sortKey.Some?
  {
    NextCut(visits, lists, pages, room, api, h);
    ShownRows(visits[h], Cut(visits, h, api), lists[h], pages[h], room, api);
  }

  /** The cursors of a walk stand for ever older positions. */
  lemma CutsDescend(visits: seq<Visit>, room: string, api: Api, i: nat)
    requires IsWalk(visits, room, api) && 1 <= i < |visits|
    ensures var (p, q) := (Cut(visits, i, api), Cut(visits, 1, api));
            p.Some? && q.Some? && q.value.key.Some? && (p == q || Before(p.value, q.value))
  {
    var lists, pages := WalkLists(visits, room, api);
    CutIsOldestShown(visits, lists, pages, room, api, 0);
    CutIsOldestShown(visits, lists, pages, room, api, i - 1);
    if i > 1 {
      WalkIsChain(visits, lists, pages, room, api);
      LaterPagesAreOlder(lists, pages, 0, 0, i - 1, 0);
    }
  }

  lemma PointsAt(visits: seq<Visit>, room: string, api: Api, n: nat)
    requires IsWalk(visits, room, api) && n < |visits|
    ensures Points(visits[n].response, room, api)
  {
    for i := 0 to n + 1
      invariant i > 0 ==> Points(visits[i - 1].response, room, api)
    {
      var _, _ := NextPoints(visits, room, api, i);
    }
  }

  lemma AnswersAgree(a: set<Row>, b: set<Row>, api: Api, q: Request, before: Option<Pos>)
    requires UniqueIds(a) && UniqueIds(b) && CanonicalRoom(q.room) && Continuation(api, q.room, q.before) == Some(before)
    requires Candidates(a, q.room, before) == Candidates(b, q.room, before)
    ensures Answer(api, a, q) == Answer(api, b, q)
  {
    AnswerIsRespond(a, api, q, before);
    AnswerIsRespond(b, api, q, before);
  }

  /** The same walk over the table as it was at the first request. */
  ghost function Frozen(visits: seq<Visit>): (r: seq<Visit>)
    requires visits != []
    ensures |r| == |visits|
    ensures forall i :: 0 <= i < |visits| ==> r[i] == visits[i].(store := visits[0].store)
  {
    seq(|visits|, i requires 0 <= i < |visits| => visits[i].(store := visits[0].store))
  }

  lemma SameCandidates(visits: seq<Visit>, room: string, api: Api, i: nat)
    requires IsWalk(visits, room, api) && AgreeBelow(visits, room, api) && 1 <= i < |visits|
    ensures var cut := Cut(visits, i, api); Candidates(visits[i].store, room, cut) == Candidates(visits[0].store, room, cut)
  {
    CutsDescend(visits, room, api, i);
    CandidatesBelow(visits[i].store, visits[0].store, room, Cut(visits, i, api).value, Cut(visits, 1, api).value);
  }

  lemma ContinuesAtCut(visits: seq<Visit>, room: string, api: Api, i: nat)
    requires IsWalk(visits, room, api) && 1 <= i < |visits|
    ensures Continuation(api, room, RequestOf(visits, i, room).before) == Some(Cut(visits, i, api))
  {
    PointsAt(visits, room, api, i - 1);
    CutIsContinuation(visits, room, api, i);
  }

  lemma FrozenAnswer(visits: seq<Visit>, room: string, api: Api, i: nat)
    requires IsWalk(visits, room, api) && AgreeBelow(visits, room, api) && i < |visits|
    ensures WellFormedStore(visits[0].store, api)
    ensures visits[i].response == Answer(api, visits[0].store, RequestOf(visits, i, room))
  {
    assert Answered(visits, 0, room, api);
    if i > 0 {
      assert Answered(visits, i, room, api);
      ContinuesAtCut(visits, room, api, i);
      SameCandidates(visits, room, api, i);
      AnswersAgree(visits[i].store, visits[0].store, api, RequestOf(visits, i, room), Cut(visits, i, api));
    }
  }

  lemma FrozenIsWalk(visits: seq<Visit>, room: string, api: Api)
    requires IsWalk(visits, room, api) && AgreeBelow(visits, room, api)
    ensures IsWalk(Frozen(visits), room, api) && SameStore(Frozen(visits), visits[0].store)
  {
    var frozen := Frozen(visits);
    forall i | 0 <= i < |visits| ensures Answered(frozen, i, room, api) {
      FrozenAnswer(visits, room, api, i);
      assert RequestOf(frozen, i, room) == RequestOf(visits, i, room);
    }
  }

  lemma {:induction false} JoinedSame(a: seq<Visit>, b: seq<Visit>)
    requires |a| == |b| && forall i :: 0 <= i < |a| ==> a[i].response.Page? && b[i].response == a[i].response
    ensures JoinedMessages(a) == JoinedMessages(b)
    decreases |a|
  {
    if a != [] {
      JoinedSame(a[..|a| - 1], b[..|b| - 1]);
    }
  }

  /** While messages keep arriving, the pages of a complete walk joined oldest first are the room's rows as they
      were at the first request, as long as the rows below the first page stay. */
  lemma StableWalkIsTheHistory(visits: seq<Visit>, room: string, api: Api)
    requires IsWalk(visits, room, api) && AgreeBelow(visits, room, api) && !visits[|visits| - 1].response.hasMore
    ensures UniqueIds(visits[0].store)
    ensures JoinedMessages(visits) == MessagesOf(Chronological(Candidates(visits[0].store, room, None)))
  {
    FrozenIsWalk(visits, room, api);
    FixedWalkIsTheHistory(Frozen(visits), room, api, visits[0].store);
    JoinedSame(visits, Frozen(visits));
  }

  /** Following the cursors ends: over a table that does not change, a walk has at most one
      page more than the room has rows. */
  lemma FixedWalkIsFinite(visits: seq<Visit>, room: string, api: Api, store: set<Row>)
    requires IsWalk(visits, room, api) && SameStore(visits, store)
    ensures |visits| <= |Candidates(store, room, None)| + 1
  {
    var lists, pages := WalkLists(visits, room, api);
    FirstList(visits, lists, pages, room, api, store);
    AllCut(visits, lists, pages, room, api, store);
    ListsShrink(lists, pages, |visits| - 1);
    ListLength(lists[0], Candidates(store, room, None));
  }

  lemma ListsShrink(lists: seq<seq<Row>>, pages: seq<seq<Row>>, n: nat)
    requires |pages| == |lists| == n + 1 && forall h :: 0 <= h < n ==> CutBetween(lists, pages, h)
    ensures |lists[n]| + n <= |lists[0]|
  {
    for i := 0 to n
      invariant |lists[i]| + i <= |lists[0]|
    {
      assert CutBetween(lists, pages, i);
    }
  }

  lemma {:induction false} ListLength(s: seq<Row>, rows: set<Row>)
    requires Lists(s, rows)
    ensures |s| == |rows|
    decreases |s|
  {
    ListIsEmptyExactlyWhen(s, rows);
    if s != [] {
      DropNewest(s, rows);
      ListLength(s[..|s| - 1], rows - {s[|s| - 1]});
    }
  }

  /** A page says there is more exactly when the room has a row older than everything on the page. */
  lemma HasMoreExactlyWhen(visits: seq<Visit>, room: string, api: Api, i: nat)
    requires IsWalk(visits, room, api) && i < |visits|
    ensures var v := visits[i];
            v.response.hasMore <==>
            v.response.messages != [] &&
            exists r :: r in v.store && r.message.room == room && Before(PosOf(r), MessagePos(v.response.messages[0], api))
  {
    var lists, pages := WalkLists(visits, room, api);
    var v, s, page := visits[i], lists[i], pages[i];
    ShownRows(v, Cut(visits, i, api), s, page, room, api);
    if v.response.hasMore {
      var r := s[0];
      assert r in s;
      assert r in v.store && r.message.room == room && Before(PosOf(r), MessagePos(v.response.messages[0], api));
    } else if v.response.messages != [] {
      forall r | r in v.store && r.message.room == room ensures !Before(PosOf(r), PosOf(page[0])) {
        if Before(PosOf(r), PosOf(page[0])) {
          assert page[0] in s;
          assert r in s;
          var k := OnThePageOrOlder(page, s, r);
          assert false;
        }
      }
    }
  }

  /** When every row can be put in a cursor, the answer is a page. */
  lemma RespondIsPage(api: Api, room: string, rows: set<Row>, limit: int)
    requires Faithful(api.codec) && limit >= 1 && UniqueIds(rows)
    requires forall r :: r in rows ==> Encodable(room, r.message.timestamp, r.message.id)
    ensures Respond(api, room, rows, limit).Page?
  {
    ChronologicalLists(rows);
    if |rows| > limit {
      var first := Last(Chronological(rows), limit)[0];
      assert first in Chronological(rows);
      assert Encodable(room, first.message.timestamp, first.message.id);
    }
  }

  /** Every well-formed request to a well-formed table is answered with a page. */
  lemma AnswerIsPage(store: set<Row>, api: Api, q: Request, before: Option<Pos>)
    requires Faithful(api.codec) && WellFormedStore(store, api) && CanonicalRoom(q.room)
    requires Continuation(api, q.room, q.before) == Some(before) && Limit(q.limit).Some?
    ensures Answer(api, store, q).Page?
  {
    AnswerIsRespond(store, api, q, before);
    assert forall r :: r in store ==> WellFormedRow(r, api);
    RespondIsPage(api, q.room, Candidates(store, q.room, before), Limit(q.limit).value);
  }

  lemma AnsweredKept(visits: seq<Visit>, room: string, api: Api, v: Visit, i: nat)
    requires Linked(visits) && Linked(visits + [v]) && i < |visits| && Answered(visits, i, room, api)
    ensures Answered(visits + [v], i, room, api)
  {
    assert RequestOf(visits + [v], i, room) == RequestOf(visits, i, room);
  }

  lemma AnsweredLast(visits: seq<Visit>, room: string, api: Api, v: Visit, q: Request)
    requires visits != [] && Linked(visits) && Linked(visits + [v]) && visits[|visits| - 1].response.next.Some?
    requires q == Request(room, v.limit, [visits[|visits| - 1].response.next.value])
    requires WellFormedStore(v.store, api) && v.response == Answer(api, v.store, q)
    ensures Answered(visits + [v], |visits|, room, api)
  {
    assert RequestOf(visits + [v], |visits|, room) == q;
  }

  lemma WalkAppend(visits: seq<Visit>, room: string, api: Api, v: Visit, q: Request)
    requires IsWalk(visits, room, api) && visits[|visits| - 1].response.next.Some? && v.response.Page?
    requires q == Request(room, v.limit, [visits[|visits| - 1].response.next.value])
    requires WellFormedStore(v.store, api) && v.response == Answer(api, v.store, q)
    ensures IsWalk(visits + [v], room, api)
  {
    AnsweredLast(visits, room, api, v, q);
    forall i | 0 <= i < |visits| + 1 ensures Answered(visits + [v], i, room, api) {
      if i < |visits| {
        assert Answered(visits, i, room, api);
        AnsweredKept(visits, room, api, v, i);
      }
    }
  }

  lemma NextIsPage(visits: seq<Visit>, room: string, api: Api, store: set<Row>, limit: LimitParam)
    requires IsWalk(visits, room, api) && visits[|visits| - 1].response.next.Some?
    requires WellFormedStore(store, api) && Limit(limit).Some?
    ensures Answer(api, store, Request(room, limit, [visits[|visits| - 1].response.next.value])).Page?
  {
    PointsAt(visits, room, api, |visits| - 1);
    var last := visits[|visits| - 1].response;
    AnswerIsPage(store, api, Request(room, limit, [last.next.value]), Some(MessagePos(last.messages[0], api)));
  }

  /** As long as a page hands on a cursor, the next request is answered with a page. */
  lemma WalkExtends(visits: seq<Visit>, room: string, api: Api, store: set<Row>, limit: LimitParam) returns (v: Visit)
    requires IsWalk(visits, room, api) && visits[|visits| - 1].response.next.Some?
    requires WellFormedStore(store, api) && Limit(limit).Some?
    ensures v.store == store && v.limit == limit && IsWalk(visits + [v], room, api)
  {
    NextIsPage(visits, room, api, store, limit);
    var q := Request(room, limit, [visits[|visits| - 1].response.next.value]);
    v := Visit(store, limit, Answer(api, store, q));
    WalkAppend(visits, room, api, v, q);
  }

  lemma WalkOfOne(v: Visit, room: string, api: Api)
    requires Faithful(api.codec) && CanonicalRoom(room) && WellFormedStore(v.store, api) && v.response.Page?
    requires v.response == Answer(api, v.store, Request(room, v.limit, []))
    ensures IsWalk([v], room, api)
  {
    assert RequestOf([v], 0, room) == Request(room, v.limit, []);
  }

  lemma WalkStarts(room: string, api: Api, store: set<Row>, limit: LimitParam) returns (v: Visit)
    requires Faithful(api.codec) && WellFormedStore(store, api) && CanonicalRoom(room) && Limit(limit).Some?
    ensures v.store == store && v.limit == limit && IsWalk([v], room, api)
  {
    var q := Request(room, limit, []);
    AnswerIsPage(store, api, q, None);
    v := Visit(store, limit, Answer(api, store, q));
    WalkOfOne(v, room, api);
  }

  lemma NextExactlyWhenMore(visits: seq<Visit>, room: string, api: Api, i: nat)
    requires IsWalk(visits, room, api) && i < |visits|
    ensures visits[i].response.hasMore == visits[i].response.next.Some?
  {
    var lists, pages := WalkLists(visits, room, api);
    assert Shows(visits[i], Cut(visits, i, api), lists[i], pages[i], room, api);
  }

  /** Following the cursors from the first page reaches a page without one. */
  lemma CompleteWalk(room: string, api: Api, store: set<Row>, limit: LimitParam) returns (visits: seq<Visit>)
    requires Faithful(api.codec) && WellFormedStore(store, api) && CanonicalRoom(room) && Limit(limit).Some?
    ensures IsWalk(visits, room, api) && SameStore(visits, store) && !visits[|visits| - 1].response.hasMore
    ensures forall i :: 0 <= i < |visits| ==> visits[i].limit == limit
  {
    var v := WalkStarts(room, api, store, limit);
    visits := [v];
    while visits[|visits| - 1].response.next.Some?
      invariant IsWalk(visits, room, api) && SameStore(visits, store)
      invariant forall i :: 0 <= i < |visits| ==> visits[i].limit == limit
      decreases |Candidates(store, room, None)| + 1 - |visits|
    {
      v := WalkExtends(visits, room, api, store, limit);
      FixedWalkIsFinite(visits + [v], room, api, store);
      visits := visits + [v];
    }
    NextExactlyWhenMore(visits, room, api, |visits| - 1);
  }
}
