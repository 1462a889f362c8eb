/** The web client and the history endpoint together: the first page after connecting, requests for older pages, and
    live frames (new messages, notices and the rows the server replays), in any order and over a table that changes.
    (frontend/src/App.jsx, `App`; backend/server.go, `messagesHandler`; backend/hub.go, `sendMessageHistory`.) */
module Scrollback {
  import opened Text
  import opened Rooms
  import opened Messages
  import opened Store
  import opened History
  import opened Merge
  import opened Seqs
  import View
  import Walks

  const PAGE := Number(50)

  /** The client with its requests: `open` are the tickets of older-page requests not answered yet. The last three fields are
      history: what was shown when the current reading began, the pages it has merged, and everything
      received at the end since. */
  datatype World = World(
    view: View.State, open: set<View.Ticket>, early: seq<Message>, walk: seq<Walks.Visit>, late: seq<Message>)

  datatype Move =
    | Reset
    | SwitchRoom(room: string)
    | Live(message: Message)
    | First(store: set<Row>)
    | Ask(renderedRoom: string, busy: bool)
    | Arrive(ticket: View.Ticket, store: set<Row>)
    | Fail(ticket: View.Ticket)

  /** What the client reads from a response. */
  function Data(r: Response): View.PageData
    requires r.Page?
  {
    View.PageData(r.messages, r.hasMore, r.next)
  }

  function OlderRequest(t: View.Ticket): Request { Request(t.room, PAGE, [t.before]) }

  /** An answer comes only for a request that was made and not answered; the table may be any at each request. */
  ghost predicate Enabled(api: Api, w: World, mv: Move)
  {
    match mv
    case SwitchRoom(room) => CanonicalRoom(room)
    case First(store) => Walks.WellFormedStore(store, api)
    case Arrive(t, store) => t in w.open && Walks.WellFormedStore(store, api)
    case Fail(t) => t in w.open
    case _ => true
  }

  ghost function Next(api: Api, w: World, mv: Move): World
    requires Enabled(api, w, mv)
  {
    match mv
    case Reset => World(View.Step(w.view, View.Reset), w.open, [], [], [])
    case SwitchRoom(room) => World(View.Step(w.view, View.SwitchRoom(room)), w.open, [], [], [])
    case Live(m) => w.(view := View.Step(w.view, View.Live(m)), late := w.late + [m])
    case First(store) => AfterFirst(w, store, Answer(api, store, Request(w.view.room, PAGE, [])))
    case Ask(room, busy) =>
      var e := View.LoadOlder(room, busy);
      w.(view := View.Step(w.view, e), open := if View.Starts(w.view, e) then w.open + {View.TicketOf(w.view, e)} else w.open)
    case Arrive(t, store) => AfterOlder(w, t, store, Answer(api, store, OlderRequest(t)))
    case Fail(t) => Failed(w, t)
  }

  ghost function AfterFirst(w: World, store: set<Row>, r: Response): World
  {
    if !r.Page? then w
    else
      var view := View.Step(w.view, View.FirstPage(Data(r)));
      if w.view.cursor.None? then World(view, w.open, w.view.history, [Walks.Visit(store, PAGE, r)], [])
      else w.(view := view, late := w.late + r.messages)
  }

  ghost function AfterOlder(w: World, t: View.Ticket, store: set<Row>, r: Response): World
  {
    if !r.Page? then Failed(w, t)
    else
      w.(view := View.Step(w.view, View.OlderArrived(t, Data(r))), open := w.open - {t},
         walk := if View.IsCurrent(w.view, t) then w.walk + [Walks.Visit(store, PAGE, r)] else w.walk)
  }

  ghost function Failed(w: World, t: View.Ticket): World
  {
    w.(view := View.Step(w.view, View.OlderFailed(t)), open := w.open - {t})
  }

  ghost function After(api: Api, w: World, moves: seq<Move>): Option<World>
  {
    if moves == [] then Some(w)
    else
      var before :- After(api, w, moves[..|moves| - 1]);
      if Enabled(api, before, moves[|moves| - 1]) then Some(Next(api, before, moves[|moves| - 1])) else None
  }

  predicate Initial(w: World)
  {
    CanonicalRoom(w.view.room) && w.view.history == [] && w.view.cursor.None? && !w.view.loading && w.open == {} && w.walk == []
  }

  // ---------------------------------------------------------------- tickets

  /** An open ticket that is still current was made with the cursor the view has now, and there is only one. */
  ghost predicate TicketsInv(open: set<View.Ticket>, version: nat, cursor: Option<string>)
  {
    && (forall t :: t in open ==> t.version <= version && (t.version == version ==> cursor == Some(t.before)))
    && (forall t, u :: t in open && u in open && t.version == u.version ==> t == u)
  }

  lemma TicketsOutdated(open: set<View.Ticket>, version: nat, cursor: Option<string>, next: Option<string>)
    requires TicketsInv(open, version, cursor)
    ensures TicketsInv(open, version + 1, next)
    ensures cursor.None? ==> TicketsInv(open, version, next)
  {
  }

  lemma TicketsAnswered(open: set<View.Ticket>, version: nat, cursor: Option<string>, t: View.Ticket, next: Option<string>)
    requires TicketsInv(open, version, cursor) && t in open
    ensures TicketsInv(open - {t}, version, cursor) && (t.version == version ==> TicketsInv(open - {t}, version, next))
  {
  }

  lemma TicketsIssued(open: set<View.Ticket>, version: nat, before: string, room: string)
    requires TicketsInv(open, version, Some(before))
    ensures TicketsInv(open + {View.Ticket(version + 1, room, before)}, version + 1, Some(before))
  {
  }

  // ---------------------------------------------------------------- the invariant

  /** The older pages of a reading, merged one before the other. */
  ghost function Stack(walk: seq<Walks.Visit>): seq<Message>
    requires forall i :: 0 <= i < |walk| ==> walk[i].response.Page?
  {
    if |walk| <= 1 then [] else Appended(walk[|walk| - 1].response.messages, Stack(walk[..|walk| - 1]))
  }

  /** The pages merged are a walk, the view will continue it, and the history is the older pages followed by
      everything else in the order it came, each message once. */
  ghost predicate ReadingInv(
    walk: seq<Walks.Visit>, early: seq<Message>, late: seq<Message>, view: View.State, api: Api)
  {
    && Walks.IsWalk(walk, view.room, api)
    && view.cursor == walk[|walk| - 1].response.next
    && view.history == Appended(Stack(walk), early + walk[0].response.messages + late)
  }

  ghost predicate Inv(api: Api, w: World)
  {
    && Walks.Faithful(api.codec) && CanonicalRoom(w.view.room) && NoRepeat(w.view.history)
    && TicketsInv(w.open, w.view.version, w.view.cursor)
    && if w.walk == [] then w.view.cursor.None? else ReadingInv(w.walk, w.early, w.late, w.view, api)
  }

  lemma AnswerNoRepeat(api: Api, store: set<Row>, q: Request)
    requires UniqueIds(store) && Answer(api, store, q).Page?
    ensures NoRepeat(Answer(api, store, q).messages)
  {
    var room := NormalizeRoom(q.room).value;
    var rows := Candidates(store, room, Continuation(api, room, q.before).value);
    RespondNoRepeat(api, room, rows, Limit(q.limit).value);
  }

  lemma RespondNoRepeat(api: Api, room: string, rows: set<Row>, limit: int)
    requires UniqueIds(rows) && limit >= 1 && Respond(api, room, rows, limit).Page?
    ensures NoRepeat(Respond(api, room, rows, limit).messages)
  {
    Walks.RespondFacts(api, room, rows, limit);
    ChronologicalLists(rows);
    ListedNoRepeat(Chronological(rows), rows, limit);
  }

  lemma ListedNoRepeat(s: seq<Row>, rows: set<Row>, limit: nat)
    requires Lists(s, rows) && UniqueIds(rows)
    ensures NoRepeat(MessagesOf(Last(s, limit))) && NoRepeat(MessagesOf(s))
  {
    assert forall i :: 0 <= i < |s| ==> s[i] in s;
    assert forall i, j :: 0 <= i < j < |s| ==> Older(s[i], s[j]);
  }

  /** Everything received at the end of the history keeps the form. */
  lemma LateKeeps(
    walk: seq<Walks.Visit>, early: seq<Message>, late: seq<Message>, view: View.State, api: Api, more: seq<Message>, next: View.State)
    requires ReadingInv(walk, early, late, view, api)
    requires next.history == Appended(view.history, more) && next.cursor == view.cursor && next.room == view.room
    ensures ReadingInv(walk, early, late + more, next, api)
  {
    MergedLate(Stack(walk), early + walk[0].response.messages, late, more);
  }

  lemma MergedLate(stack: seq<Message>, head: seq<Message>, late: seq<Message>, more: seq<Message>)
    ensures Appended(Appended(stack, head + late), more) == Appended(stack, head + (late + more))
  {
    AppendedConcat(stack, head + late, more);
    assert (head + late) + more == head + (late + more);
  }

  /** A first page without a reading going on begins one. */
  lemma FirstBegins(view: View.State, api: Api, v: Walks.Visit, next: View.State)
    requires Walks.IsWalk([v], view.room, api) && v.response.Page? && NoRepeat(view.history) && next.room == view.room
    requires next.history == Appended(view.history, v.response.messages) && next.cursor == v.response.next
    ensures ReadingInv([v], view.history, [], next, api)
  {
    var page := v.response.messages;
    assert [] + view.history == view.history;
    AppendedDisjoint([], view.history);
    AppendedConcat([], view.history, page);
    assert view.history + page + [] == view.history + page;
  }

  /** The current older page continues the walk and goes to the front. */
  lemma OlderContinues(
    walk: seq<Walks.Visit>, early: seq<Message>, late: seq<Message>, view: View.State, api: Api, v: Walks.Visit, next: View.State)
    requires ReadingInv(walk, early, late, view, api) && v.response.Page? && Walks.IsWalk(walk + [v], view.room, api)
    requires next.history == Prepended(view.history, v.response.messages) && next.cursor == v.response.next && next.room == view.room
    ensures ReadingInv(walk + [v], early, late, next, api)
  {
    var more := walk + [v];
    assert more[..|walk|] == walk && more[0] == walk[0];
    AppendedAssoc(v.response.messages, Stack(walk), early + walk[0].response.messages + late);
  }

  lemma FirstKeepsInv(api: Api, w: World, store: set<Row>, r: Response)
    requires Inv(api, w) && Walks.WellFormedStore(store, api) && r == Answer(api, store, Request(w.view.room, PAGE, []))
    ensures Inv(api, AfterFirst(w, store, r))
  {
    if r.Page? {
      var next := View.Step(w.view, View.FirstPage(Data(r)));
      AppendedNoRepeat(w.view.history, r.messages);
      if w.view.cursor.None? {
        var v := Walks.Visit(store, PAGE, r);
        Walks.WalkOfOne(v, w.view.room, api);
        FirstBegins(w.view, api, v, next);
        TicketsOutdated(w.open, w.view.version, w.view.cursor, next.cursor);
      } else {
        LateKeeps(w.walk, w.early, w.late, w.view, api, r.messages, next);
      }
    }
  }

  lemma OlderKeepsReading(
    walk: seq<Walks.Visit>, early: seq<Message>, late: seq<Message>, view: View.State, api: Api,
    v: Walks.Visit, q: Request, next: View.State)
    requires ReadingInv(walk, early, late, view, api) && view.cursor.Some? && Walks.WellFormedStore(v.store, api)
    requires v.response.Page? && v.response == Answer(api, v.store, q) && q == Request(view.room, v.limit, [view.cursor.value])
    requires next.history == Prepended(view.history, v.response.messages) && next.cursor == v.response.next && next.room == view.room
    ensures ReadingInv(walk + [v], early, late, next, api)
  {
    Walks.WalkAppend(walk, view.room, api, v, q);
    OlderContinues(walk, early, late, view, api, v, next);
  }

  lemma CurrentKeepsInv(api: Api, w: World, t: View.Ticket, v: Walks.Visit, q: Request, next: View.State)
    requires Inv(api, w) && t in w.open && View.IsCurrent(w.view, t) && Walks.WellFormedStore(v.store, api)
    requires v.response.Page? && v.response == Answer(api, v.store, q) && q == Request(t.room, v.limit, [t.before])
    requires NoRepeat(v.response.messages) && next.version == w.view.version
    requires next.history == Prepended(w.view.history, v.response.messages) && next.cursor == v.response.next && next.room == w.view.room
    ensures Inv(api, World(next, w.open - {t}, w.early, w.walk + [v], w.late))
  {
    OlderKeepsReading(w.walk, w.early, w.late, w.view, api, v, q, next);
    AppendedNoRepeat(v.response.messages, w.view.history);
    TicketsAnswered(w.open, w.view.version, w.view.cursor, t, next.cursor);
  }

  lemma OlderKeepsInv(api: Api, w: World, t: View.Ticket, store: set<Row>, r: Response)
    requires Inv(api, w) && t in w.open && Walks.WellFormedStore(store, api) && r == Answer(api, store, OlderRequest(t))
    ensures Inv(api, AfterOlder(w, t, store, r))
  {
    if r.Page? && View.IsCurrent(w.view, t) {
      AnswerNoRepeat(api, store, OlderRequest(t));
      MergedView(w.view, t, Data(r));
      CurrentKeepsInv(api, w, t, Walks.Visit(store, PAGE, r), OlderRequest(t), View.Step(w.view, View.OlderArrived(t, Data(r))));
    } else {
      StaleOlder(w, t, store, r);
      StaleKeepsInv(api, w, t, AfterOlder(w, t, store, r));
    }
  }

  lemma MergedView(view: View.State, t: View.Ticket, page: View.PageData)
    requires View.IsCurrent(view, t)
    ensures var next := View.Step(view, View.OlderArrived(t, page));
            && next.history == Prepended(view.history, page.messages) && next.cursor == page.next
            && next.room == view.room && next.version == view.version
  {
  }

  lemma StaleOlder(w: World, t: View.Ticket, store: set<Row>, r: Response)
    requires !r.Page? || !View.IsCurrent(w.view, t)
    ensures var (u, next) := (w.view, AfterOlder(w, t, store, r));
            && next.open == w.open - {t} && next.walk == w.walk && next.early == w.early && next.late == w.late
            && next.view.history == u.history && next.view.cursor == u.cursor
            && next.view.room == u.room && next.view.version == u.version
  {
  }

  lemma StaleKeepsInv(api: Api, w: World, t: View.Ticket, next: World)
    requires Inv(api, w) && t in w.open && next.open == w.open - {t} && next.view.version == w.view.version
    requires next.view.history == w.view.history && next.view.cursor == w.view.cursor && next.view.room == w.view.room
    requires next.walk == w.walk && next.early == w.early && next.late == w.late
    ensures Inv(api, next)
  {
    TicketsAnswered(w.open, w.view.version, w.view.cursor, t, w.view.cursor);
  }

  lemma FailKeepsInv(api: Api, w: World, t: View.Ticket)
    requires Inv(api, w) && t in w.open
    ensures Inv(api, Failed(w, t))
  {
    StaleKeepsInv(api, w, t, Failed(w, t));
  }

  lemma LiveKeepsInv(api: Api, w: World, m: Message)
    requires Inv(api, w)
    ensures Inv(api, w.(view := View.Step(w.view, View.Live(m)), late := w.late + [m]))
  {
    AppendedNoRepeat(w.view.history, [m]);
    if w.walk != [] {
      LateKeeps(w.walk, w.early, w.late, w.view, api, [m], View.Step(w.view, View.Live(m)));
    }
  }

  lemma AskKeepsInv(api: Api, w: World, room: string, busy: bool)
    requires Inv(api, w)
    ensures Inv(api, Next(api, w, Ask(room, busy)))
  {
    if View.Starts(w.view, View.LoadOlder(room, busy)) {
      TicketsIssued(w.open, w.view.version, w.view.cursor.value, room);
    }
  }

  lemma ClearKeepsInv(api: Api, w: World, room: string)
    requires Inv(api, w) && CanonicalRoom(room)
    ensures Inv(api, World(View.Cleared(w.view, room), w.open, [], [], []))
  {
    TicketsOutdated(w.open, w.view.version, w.view.cursor, None);
  }

  lemma MoveKeepsInv(api: Api, w: World, mv: Move)
    requires Inv(api, w) && Enabled(api, w, mv)
    ensures Inv(api, Next(api, w, mv))
  {
    match mv
    case Reset => ClearKeepsInv(api, w, w.view.room);
    case SwitchRoom(room) => ClearKeepsInv(api, w, room);
    case Live(m) => LiveKeepsInv(api, w, m);
    case First(store) => FirstKeepsInv(api, w, store, Answer(api, store, Request(w.view.room, PAGE, [])));
    case Ask(room, busy) => AskKeepsInv(api, w, room, busy);
    case Arrive(t, store) => OlderKeepsInv(api, w, t, store, Answer(api, store, OlderRequest(t)));
    case Fail(t) => FailKeepsInv(api, w, t);
  }

  lemma {:induction false} RunKeepsInv(api: Api, w: World, moves: seq<Move>)
    requires Inv(api, w) && After(api, w, moves).Some?
    ensures Inv(api, After(api, w, moves).value)
    decreases |moves|
  {
    if moves != [] {
      RunKeepsInv(api, w, moves[..|moves| - 1]);
      MoveKeepsInv(api, After(api, w, moves[..|moves| - 1]).value, moves[|moves| - 1]);
    }
  }

  lemma InitialInv(api: Api, w: World)
    requires Initial(w) && Walks.Faithful(api.codec)
    ensures Inv(api, w)
  {
  }

  /** In every state of every run: the pages merged so far are a walk over the endpoint, in order and without a gap, though
      nothing but tickets and cursors relates a page to the next; the next request will continue it; no id is shown twice;
      and the history is the older pages followed by everything else received, each message once. */
  lemma ReadingInOrder(api: Api, w: World, moves: seq<Move>)
    requires Initial(w) && Walks.Faithful(api.codec) && After(api, w, moves).Some?
    ensures var t := After(api, w, moves).value;
            && NoRepeat(t.view.history) && CanonicalRoom(t.view.room)
            && (t.walk != [] ==> ReadingInv(t.walk, t.early, t.late, t.view, api))
            && (t.view.cursor.Some? ==> t.walk != [])
  {
    InitialInv(api, w);
    RunKeepsInv(api, w, moves);
  }

  // ---------------------------------------------------------------- the loading flag

  ghost predicate Awaited(open: set<View.Ticket>, version: nat) { exists t :: t in open && t.version == version }

  /** Whether the latest request was answered but had been rendered for another room, so that its answer did not count. */
  ghost predicate OrphanedAfter(w: World, mv: Move, orphaned: bool)
  {
    match mv
    case Reset => false
    case SwitchRoom(_) => false
    case Ask(room, busy) => orphaned && !View.Starts(w.view, View.LoadOlder(room, busy))
    case Arrive(t, _) => orphaned || (t.version == w.view.version && t.room != w.view.room)
    case Fail(t) => orphaned || (t.version == w.view.version && t.room != w.view.room)
    case _ => orphaned
  }

  ghost predicate Orphaned(api: Api, w: World, moves: seq<Move>)
    requires After(api, w, moves).Some?
    decreases |moves|
  {
    moves != [] &&
    var front := moves[..|moves| - 1];
    OrphanedAfter(After(api, w, front).value, moves[|moves| - 1], Orphaned(api, w, front))
  }

  ghost predicate LoadingInv(w: World, orphaned: bool)
  {
    && (w.view.loading <==> orphaned || Awaited(w.open, w.view.version))
    && (orphaned ==> !Awaited(w.open, w.view.version))
  }

  lemma AnsweredLoading(open: set<View.Ticket>, version: nat, cursor: Option<string>, t: View.Ticket)
    requires TicketsInv(open, version, cursor) && t in open
    ensures Awaited(open - {t}, version) <==> Awaited(open, version) && t.version != version
  {
    if Awaited(open, version) && t.version != version {
      var u :| u in open && u.version == version;
      assert u in open - {t};
    }
  }

  lemma IssuedLoading(open: set<View.Ticket>, version: nat, t: View.Ticket)
    requires t.version == version
    ensures Awaited(open + {t}, version)
  {
    assert t in open + {t};
  }

  lemma OutdatedLoading(open: set<View.Ticket>, version: nat, cursor: Option<string>)
    requires TicketsInv(open, version, cursor)
    ensures !Awaited(open, version + 1)
  {
  }

  lemma AnswerLoading(api: Api, w: World, t: View.Ticket, next: World, orphaned: bool)
    requires Inv(api, w) && LoadingInv(w, orphaned) && t in w.open
    requires next.open == w.open - {t} && next.view.version == w.view.version
    requires next.view.loading == (w.view.loading && !View.IsCurrent(w.view, t))
    ensures LoadingInv(next, orphaned || (t.version == w.view.version && t.room != w.view.room))
  {
    AnsweredLoading(w.open, w.view.version, w.view.cursor, t);
    assert t.version == w.view.version ==> Awaited(w.open, w.view.version);
  }

  lemma OlderFlags(w: World, t: View.Ticket, store: set<Row>, r: Response)
    ensures var next := AfterOlder(w, t, store, r);
            && next.open == w.open - {t} && next.view.version == w.view.version
            && next.view.loading == (w.view.loading && !View.IsCurrent(w.view, t))
  {
  }

  lemma FirstFlags(w: World, store: set<Row>, r: Response)
    ensures var next := AfterFirst(w, store, r);
            next.open == w.open && next.view.version == w.view.version && next.view.loading == w.view.loading
  {
  }

  lemma AskLoading(api: Api, w: World, room: string, busy: bool, orphaned: bool)
    requires LoadingInv(w, orphaned)
    ensures LoadingInv(Next(api, w, Ask(room, busy)), OrphanedAfter(w, Ask(room, busy), orphaned))
  {
    var e := View.LoadOlder(room, busy);
    if View.Starts(w.view, e) {
      IssuedLoading(w.open, w.view.version + 1, View.TicketOf(w.view, e));
    }
  }

  lemma MoveLoading(api: Api, w: World, mv: Move, orphaned: bool)
    requires Inv(api, w) && Enabled(api, w, mv) && LoadingInv(w, orphaned)
    ensures LoadingInv(Next(api, w, mv), OrphanedAfter(w, mv, orphaned))
  {
    match mv
    case Reset => OutdatedLoading(w.open, w.view.version, w.view.cursor);
    case SwitchRoom(_) => OutdatedLoading(w.open, w.view.version, w.view.cursor);
    case Live(_) =>
    case First(store) => FirstFlags(w, store, Answer(api, store, Request(w.view.room, PAGE, [])));
    case Ask(room, busy) => AskLoading(api, w, room, busy, orphaned);
    case Arrive(t, store) =>
      OlderFlags(w, t, store, Answer(api, store, OlderRequest(t)));
      AnswerLoading(api, w, t, Next(api, w, mv), orphaned);
    case Fail(t) => AnswerLoading(api, w, t, Next(api, w, mv), orphaned);
  }

  /** In every state of every run the client shows that it is loading exactly while its latest request is unanswered; the one
      exception is a request that was rendered for a room already left, whose answer does not count. */
  lemma {:induction false} LoadingExactlyWhen(api: Api, w: World, moves: seq<Move>)
    requires Initial(w) && Walks.Faithful(api.codec) && After(api, w, moves).Some?
    ensures var t := After(api, w, moves).value;
            t.view.loading <==> Orphaned(api, w, moves) || exists u :: u in t.open && u.version == t.view.version
    ensures LoadingInv(After(api, w, moves).value, Orphaned(api, w, moves))
    decreases |moves|
  {
    if moves != [] {
      var front := moves[..|moves| - 1];
      LoadingExactlyWhen(api, w, front);
      InitialInv(api, w);
      RunKeepsInv(api, w, front);
      MoveLoading(api, After(api, w, front).value, moves[|moves| - 1], Orphaned(api, w, front));
    }
  }

  // ---------------------------------------------------------------- what a complete reading shows

  lemma {:induction false} StackJoins(walk: seq<Walks.Visit>)
    requires walk != [] && (forall i :: 0 <= i < |walk| ==> walk[i].response.Page?)
    requires NoRepeat(Walks.JoinedMessages(walk))
    ensures Stack(walk) + walk[0].response.messages == Walks.JoinedMessages(walk)
    decreases |walk|
  {
    var n := |walk| - 1;
    var front := walk[..n];
    var last := walk[n].response.messages;
    if n == 0 {
      assert Walks.JoinedMessages(front) == [];
    } else {
      var below := Walks.JoinedMessages(front);
      NoRepeatSuffix(last, below);
      StackJoins(front);
      assert (last + below)[..|last| + |Stack(front)|] == last + Stack(front);
      NoRepeatPrefix(last + below, |last| + |Stack(front)|);
      AppendedDisjoint(last, Stack(front));
      assert last + Stack(front) + walk[0].response.messages == last + (Stack(front) + walk[0].response.messages);
    }
  }

  lemma NoRepeatSuffix(a: seq<Message>, b: seq<Message>)
    requires NoRepeat(a + b)
    ensures NoRepeat(b)
  {
    assert forall i :: 0 <= i < |b| ==> b[i] == (a + b)[|a| + i];
  }

  lemma NoRepeatPrefix(s: seq<Message>, n: nat)
    requires NoRepeat(s) && n <= |s|
    ensures NoRepeat(s[..n])
  {
  }

  /** The room's history as it was when the reading began. */
  ghost function RoomHistory(w: World): seq<Message>
    requires w.walk != [] && UniqueIds(w.walk[0].store)
  {
    MessagesOf(Chronological(Candidates(w.walk[0].store, w.view.room, None)))
  }

  /** The reading has come to a page without a cursor, and the rows below its first page stayed as they were. */
  ghost predicate Complete(api: Api, w: World)
  {
    Inv(api, w) && w.walk != [] && w.view.cursor.None? && Walks.AgreeBelow(w.walk, w.view.room, api)
  }

  lemma PagesAreTheHistory(api: Api, w: World)
    requires Complete(api, w)
    ensures UniqueIds(w.walk[0].store) && NoRepeat(RoomHistory(w)) && AllNumbered(RoomHistory(w))
    ensures Stack(w.walk) + w.walk[0].response.messages == RoomHistory(w)
  {
    Walks.NextExactlyWhenMore(w.walk, w.view.room, api, |w.walk| - 1);
    Walks.StableWalkIsTheHistory(w.walk, w.view.room, api);
    assert Walks.Answered(w.walk, 0, w.view.room, api);
    var rows := Candidates(w.walk[0].store, w.view.room, None);
    ChronologicalLists(rows);
    ListedNoRepeat(Chronological(rows), rows, 0);
    ListedAreNumbered(Chronological(rows), rows, api);
    StackJoins(w.walk);
  }

  lemma ListedAreNumbered(s: seq<Row>, rows: set<Row>, api: Api)
    requires Lists(s, rows) && forall r :: r in rows ==> Walks.WellFormedRow(r, api)
    ensures AllNumbered(MessagesOf(s))
  {
    assert forall i :: 0 <= i < |s| ==> s[i] in s;
  }

  lemma NumberedThree(early: seq<Message>, page: seq<Message>, late: seq<Message>)
    ensures Numbered(early + page + late) == Numbered(early) + (Numbered(page) + Numbered(late))
  {
    assert early + page + late == early + (page + late);
    NumberedConcat(early, page + late);
    NumberedConcat(page, late);
  }

  lemma NumberedParts(stack: seq<Message>, early: seq<Message>, page: seq<Message>, late: seq<Message>)
    requires AllNumbered(stack) && AllNumbered(page)
    ensures Numbered(Appended(stack, early + page + late)) == Appended(stack, Numbered(early) + (page + Numbered(late)))
  {
    NumberedAppended(stack, early + page + late);
    NumberedThree(early, page, late);
    NumberedFacts(stack);
    NumberedFacts(page);
  }

  lemma PageThenLate(stack: seq<Message>, page: seq<Message>, late: seq<Message>)
    requires NoRepeat(stack + page)
    ensures Appended(stack, page + late) == Appended(stack + page, late)
  {
    AppendedConcat(stack, page, late);
    AppendedDisjoint(stack, page);
  }

  lemma Parts(stack: seq<Message>, page: seq<Message>, all: seq<Message>)
    requires stack + page == all && AllNumbered(all)
    ensures AllNumbered(stack) && AllNumbered(page)
  {
    assert forall i :: 0 <= i < |stack| ==> stack[i] == all[i];
    assert forall i :: 0 <= i < |page| ==> page[i] == all[|stack| + i];
  }

  /** A complete reading shows the room's history as it was when the reading began, in chronological order, and then the
      messages received since that are not part of it, in the order they came. Messages without an id aside, this is so
      if and only if what was shown before is a beginning of it once the older pages are in front. */
  lemma CompleteReadingExactlyWhen(api: Api, w: World)
    requires Complete(api, w)
    ensures UniqueIds(w.walk[0].store)
    ensures Numbered(w.view.history) == Appended(RoomHistory(w), Numbered(w.late))
            <==> Appended(Stack(w.walk), Numbered(w.early)) <= Appended(RoomHistory(w), Numbered(w.late))
  {
    PagesAreTheHistory(api, w);
    var stack, page, late := Stack(w.walk), w.walk[0].response.messages, Numbered(w.late);
    Parts(stack, page, RoomHistory(w));
    NumberedParts(stack, w.early, page, w.late);
    PageThenLate(stack, page, late);
    NumberedFacts(w.late);
    EarlyMakesNoDifferenceExactlyWhen(stack, Numbered(w.early), page + late);
  }

  /** When the first page was the first thing to arrive, it is so for all messages. */
  lemma CompleteReading(api: Api, w: World)
    requires Complete(api, w) && w.early == []
    ensures UniqueIds(w.walk[0].store)
    ensures w.view.history == Appended(RoomHistory(w), w.late)
  {
    PagesAreTheHistory(api, w);
    var stack, page := Stack(w.walk), w.walk[0].response.messages;
    assert [] + page == page;
    PageThenLate(stack, page, w.late);
  }

  lemma StretchFits(all: seq<Message>, n: nat, a: nat, b: nat)
    requires NoRepeat(all) && AllNumbered(all) && a <= n <= |all| && a <= b <= |all|
    ensures Appended(all[..n], all[a..b]) <= all
  {
    if b <= n {
      StretchIsSeen(all, n, a, b);
    } else {
      StretchIsSeen(all, n, a, n);
      assert all[a..b] == all[a..n] + all[n..b];
      AppendedConcat(all[..n], all[a..n], all[n..b]);
      StretchContinues(all, n, b);
    }
  }

  lemma StretchContinues(all: seq<Message>, n: nat, b: nat)
    requires NoRepeat(all) && n <= b <= |all|
    ensures Appended(all[..n], all[n..b]) == all[..b]
  {
    assert all[..n] + all[n..b] == all[..b];
    NoRepeatPrefix(all, b);
    AppendedDisjoint(all[..n], all[n..b]);
  }

  lemma StretchIsSeen(all: seq<Message>, n: nat, a: nat, b: nat)
    requires AllNumbered(all) && a <= b <= n <= |all|
    ensures Appended(all[..n], all[a..b]) == all[..n]
  {
    forall id | id in IdsOf(all[a..b]) ensures id in IdsOf(all[..n]) {
      var m :| m in all[a..b] && HasId(m) && m.id == id;
      var i :| 0 <= i < b - a && all[a..b][i] == m;
      IdsAt(all[..n], a + i);
    }
    AppendedSeen(all[..n], all[a..b]);
  }

  /** In particular when the rows shown before are any stretch of the history that starts on or before the first page, as
      when the server's replay of the latest rows, cut off anywhere, was faster than the first page. */
  lemma ReplayFirst(api: Api, w: World, a: nat, b: nat)
    requires Complete(api, w)
    requires UniqueIds(w.walk[0].store) && a <= |Stack(w.walk)| && a <= b <= |RoomHistory(w)|
    requires Numbered(w.early) == RoomHistory(w)[a..b]
    ensures Numbered(w.view.history) == Appended(RoomHistory(w), Numbered(w.late))
  {
    PagesAreTheHistory(api, w);
    var all := RoomHistory(w);
    assert all[..|Stack(w.walk)|] == Stack(w.walk);
    StretchFits(all, |Stack(w.walk)|, a, b);
    AppendedKeeps(all, Numbered(w.late));
    CompleteReadingExactlyWhen(api, w);
  }

  // ---------------------------------------------------------------- readings can be completed

  lemma AfterPush(api: Api, w: World, moves: seq<Move>, mv: Move)
    requires After(api, w, moves).Some? && Enabled(api, After(api, w, moves).value, mv)
    ensures After(api, w, moves + [mv]) == Some(Next(api, After(api, w, moves).value, mv))
  {
    assert (moves + [mv])[..|moves|] == moves;
  }

  lemma Asked(api: Api, w: World, ticket: View.Ticket)
    requires w.view.cursor.Some? && ticket == View.Ticket(w.view.version + 1, w.view.room, w.view.cursor.value)
    ensures var u := Next(api, w, Ask(w.view.room, false));
            && u.walk == w.walk && u.early == w.early && u.view.cursor == w.view.cursor && u.view.room == w.view.room
            && ticket in u.open && View.IsCurrent(u.view, ticket)
  {
  }

  lemma Arrived(api: Api, w: World, ticket: View.Ticket, store: set<Row>)
    requires Enabled(api, w, Arrive(ticket, store)) && View.IsCurrent(w.view, ticket)
    requires UniqueIds(store) && Answer(api, store, OlderRequest(ticket)).Page?
    ensures var t := Next(api, w, Arrive(ticket, store));
            && t.walk == w.walk + [Walks.Visit(store, PAGE, Answer(api, store, OlderRequest(ticket)))]
            && t.early == w.early && t.view.room == w.view.room
  {
  }

  ghost predicate Longer(w: World, t: World, store: set<Row>)
  {
    && |t.walk| == |w.walk| + 1 && t.walk[..|w.walk|] == w.walk && t.walk[|w.walk|].store == store
    && t.view.room == w.view.room && t.early == w.early
  }

  lemma AskStep(api: Api, w: World) returns (ticket: View.Ticket, u: World)
    requires Inv(api, w) && w.view.cursor.Some?
    ensures u == Next(api, w, Ask(w.view.room, false)) && Inv(api, u)
    ensures u.walk == w.walk && u.early == w.early && u.view.room == w.view.room
    ensures ticket in u.open && View.IsCurrent(u.view, ticket)
  {
    ticket := View.Ticket(w.view.version + 1, w.view.room, w.view.cursor.value);
    u := Next(api, w, Ask(w.view.room, false));
    MoveKeepsInv(api, w, Ask(w.view.room, false));
    Asked(api, w, ticket);
  }

  lemma CurrentIsPage(api: Api, w: World, ticket: View.Ticket, store: set<Row>)
    requires Inv(api, w) && ticket in w.open && View.IsCurrent(w.view, ticket) && Walks.WellFormedStore(store, api)
    ensures Answer(api, store, OlderRequest(ticket)).Page?
  {
    assert w.view.cursor == Some(ticket.before);
    Walks.NextIsPage(w.walk, w.view.room, api, store, PAGE);
  }

  lemma ArriveStep(api: Api, w: World, ticket: View.Ticket, store: set<Row>) returns (t: World)
    requires Inv(api, w) && ticket in w.open && View.IsCurrent(w.view, ticket) && Walks.WellFormedStore(store, api)
    ensures t == Next(api, w, Arrive(ticket, store)) && Inv(api, t) && Longer(w, t, store)
  {
    t := Next(api, w, Arrive(ticket, store));
    MoveKeepsInv(api, w, Arrive(ticket, store));
    CurrentIsPage(api, w, ticket, store);
    Arrived(api, w, ticket, store);
  }

  /** Asking for the older page and getting it makes the walk one page longer. */
  lemma AskAndArrive(api: Api, w: World, store: set<Row>) returns (ask: Move, arrive: Move)
    requires Inv(api, w) && w.view.cursor.Some? && Walks.WellFormedStore(store, api)
    ensures Enabled(api, w, ask) && Enabled(api, Next(api, w, ask), arrive)
    ensures var t := Next(api, Next(api, w, ask), arrive); Inv(api, t) && Longer(w, t, store)
  {
    var ticket, u := AskStep(api, w);
    var t := ArriveStep(api, u, ticket, store);
    ask, arrive := Ask(w.view.room, false), Arrive(ticket, store);
  }

  lemma SameStorePush(w: World, t: World, store: set<Row>)
    requires Walks.SameStore(w.walk, store) && Longer(w, t, store)
    ensures Walks.SameStore(t.walk, store)
  {
    assert forall i :: 0 <= i < |w.walk| ==> t.walk[i] == w.walk[i];
  }

  lemma Begun(api: Api, w: World, store: set<Row>)
    requires Initial(w) && Walks.Faithful(api.codec) && Walks.WellFormedStore(store, api)
    ensures After(api, w, [First(store)]) == Some(Next(api, w, First(store)))
    ensures var u := Next(api, w, First(store)); Inv(api, u) && u.walk != [] && u.early == [] && Walks.SameStore(u.walk, store)
  {
    InitialInv(api, w);
    AfterPush(api, w, [], First(store));
    assert [] + [First(store)] == [First(store)];
    MoveKeepsInv(api, w, First(store));
    Walks.AnswerIsPage(store, api, Request(w.view.room, PAGE, []), None);
  }

  lemma AskedOnce(api: Api, w: World, moves: seq<Move>, u: World, store: set<Row>) returns (more: seq<Move>, t: World)
    requires After(api, w, moves) == Some(u) && Inv(api, u) && u.view.cursor.Some? && Walks.WellFormedStore(store, api)
    ensures After(api, w, more) == Some(t) && Inv(api, t) && Longer(u, t, store)
  {
    var ask, arrive := AskAndArrive(api, u, store);
    AfterPush(api, w, moves, ask);
    AfterPush(api, w, moves + [ask], arrive);
    more, t := moves + [ask] + [arrive], Next(api, Next(api, u, ask), arrive);
  }

  lemma SameStoreAgrees(walk: seq<Walks.Visit>, room: string, api: Api, store: set<Row>)
    requires walk != [] && Walks.Linked(walk) && Walks.SameStore(walk, store)
    ensures Walks.AgreeBelow(walk, room, api)
  {
  }

  /** From an empty view over a table that stays, a client that asks for older messages as long as they are offered comes
      to a complete reading. */
  lemma ReadingCanComplete(api: Api, w: World, store: set<Row>) returns (moves: seq<Move>)
    requires Initial(w) && Walks.Faithful(api.codec) && Walks.WellFormedStore(store, api)
    ensures After(api, w, moves).Some? && Complete(api, After(api, w, moves).value)
    ensures After(api, w, moves).value.walk[0].store == store && After(api, w, moves).value.early == []
  {
    Begun(api, w, store);
    moves := [First(store)];
    var u := Next(api, w, First(store));
    while u.view.cursor.Some?
      invariant After(api, w, moves) == Some(u) && Inv(api, u) && u.walk != [] && u.early == [] && Walks.SameStore(u.walk, store)
      decreases |Candidates(store, u.view.room, None)| + 1 - |u.walk|
    {
      var more, t := AskedOnce(api, w, moves, u, store);
      SameStorePush(u, t, store);
      Walks.FixedWalkIsFinite(t.walk, t.view.room, api, store);
      moves, u := more, t;
    }
    SameStoreAgrees(u.walk, u.view.room, api, store);
  }

  // ---------------------------------------------------------------- any change of the table

  lemma {:induction false} StackIds(walk: seq<Walks.Visit>, i: nat)
    requires (forall k :: 0 <= k < |walk| ==> walk[k].response.Page?) && 1 <= i < |walk|
    ensures IdsOf(walk[i].response.messages) <= IdsOf(Stack(walk))
    decreases |walk|
  {
    var n := |walk| - 1;
    AppendedIds(walk[n].response.messages, Stack(walk[..n]));
    if i < n {
      StackIds(walk[..n], i);
    }
  }

  lemma PageIsShown(w: World, api: Api, i: nat)
    requires Inv(api, w) && i < |w.walk|
    ensures IdsOf(w.walk[i].response.messages) <= IdsOf(w.view.history)
  {
    var page := w.walk[0].response.messages;
    AppendedIds(Stack(w.walk), w.early + page + w.late);
    JoinedIds(w.early + page, w.late);
    JoinedIds(w.early, page);
    if i > 0 {
      StackIds(w.walk, i);
    }
  }

  /** Whatever is inserted or pruned meanwhile, a row that was there for the whole reading is shown, once. */
  lemma LastingRowIsShown(api: Api, w: World, r: Row)
    requires Inv(api, w) && w.walk != [] && w.view.cursor.None?
    requires r.message.room == w.view.room && forall j :: 0 <= j < |w.walk| ==> r in w.walk[j].store
    ensures r.message.id in IdsOf(w.view.history) && NoRepeat(w.view.history)
  {
    Walks.NextExactlyWhenMore(w.walk, w.view.room, api, |w.walk| - 1);
    var i, k := Walks.LastingRowIsReturned(w.walk, w.view.room, api, r);
    assert Walks.Answered(w.walk, 0, w.view.room, api);
    assert Walks.WellFormedRow(r, api);
    IdsAt(w.walk[i].response.messages, k);
    PageIsShown(w, api, i);
  }
}
