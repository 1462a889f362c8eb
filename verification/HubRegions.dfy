/** What each region protected by the hub's mutex does to the hub's shared state
    (backend/hub.go). Generic in the client, so that the objects of `HubObjects` and the
    interleaving models of `Lifecycle` and `Delivery` use the same definitions. */
module HubRegions {
  import opened Messages

  const SEND_QUEUE_SIZE := 256
  const LEAVE_QUEUE_SIZE := 256

  datatype Core<C(==)> = Core(clients: set<C>, finished: set<C>, draining: bool, drainPending: set<C>)

  function Register<C>(k: Core<C>, c: C): Core<C>
  {
    if k.draining then k else k.(clients := k.clients + {c})
  }

  function Disconnect<C>(k: Core<C>, c: C): Core<C>
  {
    if c !in k.clients then k else k.(clients := k.clients - {c}, finished := k.finished - {c})
  }

  /** Whether the finishing read loop still owes the drain coordinator an event. */
  predicate OwesEvent<C>(k: Core<C>, c: C)
  {
    k.draining && c in k.drainPending
  }

  function NotifyFinished<C>(k: Core<C>, c: C): Core<C>
  {
    var marked := k.(finished := k.finished + {c});
    if OwesEvent(k, c) then marked.(drainPending := k.drainPending - {c}) else marked
  }

  /** The clients a drain that starts now has to wait for. */
  function Snapshot<C>(k: Core<C>): set<C>
  {
    k.clients - k.finished
  }

  function BeginDrain<C>(k: Core<C>): Core<C>
  {
    Core({}, k.finished - k.clients, true, Snapshot(k))
  }

  // ---------------------------------------------------------------- fan-out

  /** Whether a client of `room` is offered the message; an empty room is everybody's. */
  predicate Wants(room: string, m: Message) { m.room == "" || room == m.room }

  /** Whether the fan-out of `m` keeps a client of `room` whose queue has room or not. */
  predicate Stays(room: string, m: Message, hasRoom: bool) { !Wants(room, m) || hasRoom }

  /** `queueLeaveNotification`: a full queue drops the notice. */
  function Queue(q: seq<Message>, m: Message): seq<Message>
  {
    if |q| < LEAVE_QUEUE_SIZE then q + [m] else q
  }

  /** The leave queue after a client goes; an anonymous client leaves silently. */
  function AfterLeave(q: seq<Message>, room: string, username: string): seq<Message>
  {
    if username == ANONYMOUS then q else Queue(q, LeaveNotice(room, username))
  }

  /** The sets and the leave queue together. */
  datatype Shared<C(==)> = Shared(core: Core<C>, leaveQueue: seq<Message>)

  /** A client with the room and the name it leaves with. */
  datatype Leaver<C> = Leaver(client: C, room: string, username: string)

  /** `disconnectClientLocked`. */
  function Evict<C>(s: Shared<C>, x: Leaver<C>): Shared<C>
  {
    if x.client !in s.core.clients then s
    else Shared(Disconnect(s.core, x.client), AfterLeave(s.leaveQueue, x.room, x.username))
  }

  function EvictAll<C>(s: Shared<C>, gone: seq<Leaver<C>>): Shared<C>
    decreases |gone|
  {
    if gone == [] then s else EvictAll(Evict(s, gone[0]), gone[1..])
  }

  lemma {:induction false} EvictAllPush<C>(s: Shared<C>, gone: seq<Leaver<C>>, x: Leaver<C>)
    ensures EvictAll(s, gone + [x]) == Evict(EvictAll(s, gone), x)
    decreases |gone|
  {
    if gone == [] {
      assert [] + [x] == [x];
      assert EvictAll(Evict(s, x), [x][1..]) == Evict(s, x);
    } else {
      EvictAllPush(Evict(s, gone[0]), gone[1..], x);
      assert (gone + [x])[1..] == gone[1..] + [x];
    }
  }
}
