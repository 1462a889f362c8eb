/** The history state of the web client (frontend/src/App.jsx, `App`): live frames, the first page
    after connecting, and versioned requests for older pages, in any order. */
module View {
  import opened Text
  import opened Messages
  import opened Merge

  datatype PageData = PageData(messages: seq<Message>, hasMore: bool, next: Option<string>)

  /** The refs and the state that `resetHistory` and `loadOlderMessages` share. */
  datatype State = State(
    room: string, history: seq<Message>, cursor: Option<string>, hasOlder: bool, loading: bool, failed: bool, version: nat)

  /** What a request for an older page captures when it starts. */
  datatype Ticket = Ticket(version: nat, room: string, before: string)

  datatype Event =
    | Reset
    | SwitchRoom(room: string)
    | Live(message: Message)
    | FirstPage(page: PageData)
    | LoadOlder(renderedRoom: string, busy: bool)
    | OlderArrived(ticket: Ticket, page: PageData)
    | OlderFailed(ticket: Ticket)

  predicate Starts(s: State, e: Event) { e.LoadOlder? && s.cursor.Some? && !e.busy }

  function TicketOf(s: State, e: Event): Ticket
    requires Starts(s, e)
  {
    Ticket(s.version + 1, e.renderedRoom, s.cursor.value)
  }

  predicate IsCurrent(s: State, t: Ticket) { t.version == s.version && t.room == s.room }

  function Cleared(s: State, room: string): State
  {
    State(room, [], None, false, false, false, s.version + 1)
  }

  function Step(s: State, e: Event): State
  {
    match e
    case Reset => Cleared(s, s.room)
    case SwitchRoom(room) => Cleared(s, room)
    case Live(m) => s.(history := Appended(s.history, [m]))
    case FirstPage(page) =>
      var t := s.(history := Appended(s.history, page.messages));
      if s.cursor.None? then t.(cursor := page.next, hasOlder := page.hasMore && page.next.Some?) else t
    case LoadOlder(_, _) => if Starts(s, e) then s.(version := s.version + 1, loading := true, failed := false) else s
    case OlderArrived(t, page) =>
      if IsCurrent(s, t) then
        s.(history := Prepended(s.history, page.messages), cursor := page.next,
           hasOlder := page.hasMore && page.next.Some?, loading := false)
      else s
    case OlderFailed(t) => if IsCurrent(s, t) then s.(failed := true, loading := false) else s
  }

  function Run(s: State, events: seq<Event>): State
  {
    if events == [] then s else Step(Run(s, events[..|events| - 1]), events[|events| - 1])
  }

  // ---------------------------------------------------------------- the component

  class App {
    var room: string
    var history: seq<Message>
    var cursor: Option<string>
    var hasOlder: bool
    var loading: bool
    var failed: bool
    var version: nat

    constructor (room: string)
      ensures Now() == State(room, [], None, false, false, false, 0)
    {
      this.room, history, cursor := room, [], None;
      hasOlder, loading, failed, version := false, false, false, 0;
    }

    function Now(): State
      reads this
    {
      State(room, history, cursor, hasOlder, loading, failed, version)
    }

    method ResetHistory()
      modifies this
      ensures Now() == Step(old(Now()), Reset)
    {
      version := version + 1;
      history := [];
      cursor := None;
      hasOlder := false;
      loading := false;
      failed := false;
    }

    method ChangeRoom(next: string)
      modifies this
      ensures Now() == Step(old(Now()), SwitchRoom(next))
    {
      room := next;
      ResetHistory();
    }

    method Receive(m: Message)
      modifies this
      ensures Now() == Step(old(Now()), Live(m))
    {
      history := AppendUniqueMessages(history, [m]);
    }

    method FirstPageArrives(page: PageData)
      modifies this
      ensures Now() == Step(old(Now()), FirstPage(page))
    {
      history := AppendUniqueMessages(history, page.messages);
      if cursor.None? {
        cursor := page.next;
        hasOlder := page.hasMore && page.next.Some?;
      }
    }

    /** The part of `loadOlderMessages` before its await. */
    method LoadOlderMessages(renderedRoom: string, busy: bool) returns (ticket: Option<Ticket>)
      modifies this
      ensures var e := LoadOlder(renderedRoom, busy);
              && Now() == Step(old(Now()), e)
              && ticket == if Starts(old(Now()), e) then Some(TicketOf(old(Now()), e)) else None
    {
      var before := cursor;
      if before.None? || busy {
        return None;
      }
      version := version + 1;
      loading := true;
      failed := false;
      return Some(Ticket(version, renderedRoom, before.value));
    }

    /** The part of `loadOlderMessages` after its await; `page` is absent when the request failed. */
    method OlderMessagesArrive(ticket: Ticket, page: Option<PageData>) returns (merged: bool)
      modifies this
      ensures Now() == Step(old(Now()), if page.Some? then OlderArrived(ticket, page.value) else OlderFailed(ticket))
      ensures merged == (page.Some? && IsCurrent(old(Now()), ticket))
    {
      if ticket.version != version || ticket.room != room {
        return false;
      }
      if page.Some? {
        history := PrependUniqueMessages(history, page.value.messages);
        cursor := page.value.next;
        hasOlder := page.value.hasMore && page.value.next.Some?;
        merged := true;
      } else {
        failed := true;
        merged := false;
      }
      loading := false;
    }
  }

  // ---------------------------------------------------------------- stale pages

  predicate Supersedes(s: State, e: Event) { e.Reset? || e.SwitchRoom? || Starts(s, e) }

  function At(s: State, events: seq<Event>, k: nat): State
    requires k <= |events|
  {
    Run(s, events[..k])
  }

  lemma AtNext(s: State, events: seq<Event>, k: nat)
    requires k < |events|
    ensures At(s, events, k + 1) == Step(At(s, events, k), events[k])
  {
    assert events[..k + 1][..k] == events[..k];
  }

  /** Some event strictly between `a` and `b` reset the history or started a newer request. */
  predicate Superseded(s: State, events: seq<Event>, a: nat, b: nat)
    requires b <= |events|
  {
    a + 1 < b && (Superseded(s, events, a, b - 1) || Supersedes(At(s, events, b - 1), events[b - 1]))
  }

  lemma StepVersion(s: State, e: Event)
    ensures var t := Step(s, e);
            if Supersedes(s, e) then t.version == s.version + 1 else t.version == s.version && t.room == s.room
  {
  }

  lemma {:induction false} SupersededExactlyWhen(s: State, events: seq<Event>, a: nat, b: nat)
    requires b <= |events|
    ensures Superseded(s, events, a, b) <==> exists k :: a < k < b && Supersedes(At(s, events, k), events[k])
    decreases b
  {
    if a + 1 < b {
      SupersededExactlyWhen(s, events, a, b - 1);
    }
  }

  lemma {:induction false} VersionCounts(s: State, events: seq<Event>, a: nat, b: nat)
    requires a < b <= |events|
    ensures var (p, q) := (At(s, events, a + 1), At(s, events, b));
            if Superseded(s, events, a, b) then q.version > p.version else q.version == p.version && q.room == p.room
    decreases b
  {
    if a + 1 < b {
      VersionCounts(s, events, a, b - 1);
      AtNext(s, events, b - 1);
      StepVersion(At(s, events, b - 1), events[b - 1]);
    }
  }

  /** A page asked for at step `a` that arrives at step `b` is current if and only if nothing reset
      the history and no newer request started in between (and the request was for the room shown). */
  lemma MergedExactlyWhen(s: State, events: seq<Event>, a: nat, b: nat)
    requires a < b < |events| && Starts(At(s, events, a), events[a])
    ensures var t := TicketOf(At(s, events, a), events[a]);
            IsCurrent(At(s, events, b), t)
            <==> (forall k :: a < k < b ==> !Supersedes(At(s, events, k), events[k])) && t.room == At(s, events, a).room
  {
    SupersededExactlyWhen(s, events, a, b);
    AtNext(s, events, a);
    VersionCounts(s, events, a, b);
  }

  // ---------------------------------------------------------------- nothing repeated, nothing lost

  /** What has been received since the last reset, after one more event in state `s`. */
  function Gained(before: seq<Message>, s: State, e: Event): seq<Message>
  {
    match e
    case Reset => []
    case SwitchRoom(_) => []
    case Live(m) => before + [m]
    case FirstPage(page) => before + page.messages
    case OlderArrived(t, page) => if IsCurrent(s, t) then before + page.messages else before
    case _ => before
  }

  /** Everything received since the last reset: live frames, first pages, and the older pages that were current. */
  function Received(s: State, events: seq<Event>): seq<Message>
  {
    if events == [] then s.history
    else
      var front := events[..|events| - 1];
      Gained(Received(s, front), Run(s, front), events[|events| - 1])
  }

  /** The server never puts an id on one page twice (`Walks.NoMessageTwice`). */
  ghost predicate GoodPages(events: seq<Event>)
  {
    forall k :: 0 <= k < |events| && events[k].OlderArrived? ==> NoRepeat(events[k].page.messages)
  }

  ghost predicate Faithful(shown: seq<Message>, received: seq<Message>)
  {
    NoRepeat(shown) && IdsOf(shown) == IdsOf(received) && Unnumbered(shown) == Unnumbered(received)
  }

  lemma AppendFaithful(shown: seq<Message>, received: seq<Message>, incoming: seq<Message>)
    requires Faithful(shown, received)
    ensures Faithful(Appended(shown, incoming), received + incoming)
  {
    AppendedIds(shown, incoming);
    AppendedUnnumbered(shown, incoming);
    AppendedNoRepeat(shown, incoming);
    JoinedIds(received, incoming);
    JoinedUnnumbered(received, incoming);
  }

  lemma PrependFaithful(shown: seq<Message>, received: seq<Message>, incoming: seq<Message>)
    requires Faithful(shown, received) && NoRepeat(incoming)
    ensures Faithful(Prepended(shown, incoming), received + incoming)
  {
    AppendedIds(incoming, shown);
    AppendedUnnumbered(incoming, shown);
    AppendedNoRepeat(incoming, shown);
    JoinedIds(received, incoming);
    JoinedUnnumbered(received, incoming);
  }

  lemma StepFaithful(t: State, got: seq<Message>, e: Event)
    requires Faithful(t.history, got) && (e.OlderArrived? ==> NoRepeat(e.page.messages))
    ensures Faithful(Step(t, e).history, Gained(got, t, e))
  {
    match e
    case Live(m) => AppendFaithful(t.history, got, [m]);
    case FirstPage(page) => AppendFaithful(t.history, got, page.messages);
    case OlderArrived(_, page) => PrependFaithful(t.history, got, page.messages);
    case Reset => NothingIsFaithful();
    case SwitchRoom(_) => NothingIsFaithful();
    case _ =>
  }

  lemma NothingIsFaithful()
    ensures Faithful([], [])
  {
  }

  /** For any interleaving of live frames, pages and resets, the shown history never repeats an id,
      shows every id received since the last reset and no other, and shows every message without
      an id as often as it was received. */
  lemma {:induction false} NothingRepeatedNothingLost(s: State, events: seq<Event>)
    requires NoRepeat(s.history) && GoodPages(events)
    ensures Faithful(Run(s, events).history, Received(s, events))
    decreases |events|
  {
    if events != [] {
      var front := events[..|events| - 1];
      NothingRepeatedNothingLost(s, front);
      StepFaithful(Run(s, front), Received(s, front), events[|events| - 1]);
    }
  }

  /** The endpoint hands on a cursor exactly when there is more (`Walks.NextExactlyWhenMore`). */
  predicate Consistent(e: Event)
  {
    e.FirstPage? || e.OlderArrived? ==> e.page.hasMore == e.page.next.Some?
  }

  /** In every run older messages are offered exactly while there is a cursor to ask for them with. */
  lemma {:induction false} OfferedExactlyWithCursor(s: State, events: seq<Event>)
    requires s.hasOlder == s.cursor.Some? && forall k :: 0 <= k < |events| ==> Consistent(events[k])
    ensures Run(s, events).hasOlder == Run(s, events).cursor.Some?
    decreases |events|
  {
    if events != [] {
      OfferedExactlyWithCursor(s, events[..|events| - 1]);
      assert Consistent(events[|events| - 1]);
    }
  }

  predicate FailsAt(s: State, events: seq<Event>, k: nat)
    requires k < |events|
  {
    events[k].OlderFailed? && IsCurrent(At(s, events, k), events[k].ticket)
  }

  /** A failed request is the last word: nothing reset the history and no newer request started since. */
  ghost predicate Complains(s: State, events: seq<Event>, n: nat)
    requires n <= |events|
  {
    exists k :: 0 <= k < n && FailsAt(s, events, k) && !Superseded(s, events, k, n)
  }

  lemma FlagStep(s: State, e: Event)
    ensures Step(s, e).failed == if Supersedes(s, e) then false else s.failed || (e.OlderFailed? && IsCurrent(s, e.ticket))
  {
  }

  /** In every run the error is shown exactly while the latest request has failed. */
  lemma {:induction false} FailureShownExactlyWhen(s: State, events: seq<Event>, n: nat)
    requires n <= |events| && !s.failed
    ensures At(s, events, n).failed <==> Complains(s, events, n)
    decreases n
  {
    if n > 0 {
      var m := n - 1;
      FailureShownExactlyWhen(s, events, m);
      AtNext(s, events, m);
      FlagStep(At(s, events, m), events[m]);
      ComplainsNext(s, events, m);
    } else {
      assert events[..0] == [];
    }
  }

  lemma ComplainsNext(s: State, events: seq<Event>, m: nat)
    requires m < |events|
    ensures Complains(s, events, m + 1) <==>
            FailsAt(s, events, m) || (Complains(s, events, m) && !Supersedes(At(s, events, m), events[m]))
  {
    if FailsAt(s, events, m) {
      assert !Superseded(s, events, m, m + 1);
    }
    if Complains(s, events, m) && !Supersedes(At(s, events, m), events[m]) {
      var k :| 0 <= k < m && FailsAt(s, events, k) && !Superseded(s, events, k, m);
      assert !Superseded(s, events, k, m + 1);
    }
    if Complains(s, events, m + 1) && !FailsAt(s, events, m) {
      var k :| 0 <= k < m + 1 && FailsAt(s, events, k) && !Superseded(s, events, k, m + 1);
      assert k < m;
      assert !Superseded(s, events, k, m);
    }
  }
}
