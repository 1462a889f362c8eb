/** What reaches whom. The hub's broadcast queue, its fan-out and every client's bounded send queue,
    layered over `Lifecycle`: each step here is either a lifecycle step with its effect on messages or a
    step that leaves the lifecycle alone, so the two sets of results are about the same runs. */
module Delivery {
  import opened Text
  import opened Rooms
  import opened Messages
  import opened Frames
  import opened HubRegions
  import L = Lifecycle
  import Broker
  import Clock
  import opened Store

  const BROADCAST_SIZE := 1024

  type Client = L.Client

  /** A queued message, tagged with where it came from: the hub's fan-out, or the history replay,
      the welcome and the rate-limit notices, which bypass the hub loop. */
  datatype Item = Live(message: Message) | Aside(message: Message)

  datatype Conn = Conn(
    closed: bool,
    queue: seq<Item>,       // buffer of the send channel
    written: seq<Item>,     // history: what the writer put on the socket
    lost: seq<Item>,        // history: at most one item, whose write failed
    taken: seq<Item>,       // history: what the queue accepted
    from: int,              // position in the hub's dequeue order at registration
    upto: Option<int>)      // position at removal, once removed

  datatype World = World(
    life: L.State,
    conns: map<Client, Conn>,
    broadcast: seq<Message>,
    current: Message,        // the message the hub loop holds
    log: seq<Message>)       // history: the hub's dequeue order

  datatype Step =
    | Connect(c: Client, rawRoom: string, username: string, userID: string, authenticated: bool)
    | Life(step: L.Step)
    | Dequeue
    | Fan(c: Client)
    | ReadFrame(c: Client, input: Input)
    | Join(c: Client, saved: Option<Saved>)
    | Announce(saved: Option<Saved>, queued: bool)
    | Remote(message: Message)
    | Replay(c: Client, store: set<Row>, k: nat)
    | Welcome(c: Client)
    | Write(c: Client, ok: bool)
    | CloseConn(c: Client)

  /** Lifecycle steps that carry no message of their own. */
  predicate Plain(step: L.Step)
  {
    match step
    case ByClient(_, client) => !client.RegisterClient? && !client.Rename?
    case ByHub(hub) => !hub.HubDequeue? && !hub.HubFan?
    case ByWorker(worker) => worker != L.WorkerPublish
    case ByDrain(_) => true
  }

  predicate HasRoom(k: Conn) { !k.closed && |k.queue| < SEND_QUEUE_SIZE }

  /** Whether the hub's message leaves the client registered. */
  predicate Kept(w: World, c: Client)
    requires Known(w, c)
  {
    Stays(w.life.profile[c].room, w.current, HasRoom(w.conns[c]))
  }

  predicate CanPublish(w: World) { |w.broadcast| < BROADCAST_SIZE }

  predicate Known(w: World, c: Client) { c in w.conns && c in w.life.profile }

  predicate FanEnabled(w: World, c: Client)
  {
    Known(w, c) && c in w.life.core.clients && L.HubEnabled(w.life, L.HubFan(c, true))
  }

  ghost predicate Enabled(w: World, step: Step)
  {
    match step
    case Connect(c, raw, _, _, _) =>
      NormalizeRoom(raw).Ok? && L.ClientEnabled(w.life, c, L.RegisterClient(ProfileOf(step)))
    case Life(l) =>
      Plain(l) && L.Enabled(w.life, l) && (l == L.ByHub(L.HubDisconnect) ==> w.life.hub.c in w.conns)
    case Dequeue => L.HubEnabled(w.life, L.HubDequeue) && w.broadcast != []
    case Fan(c) => FanEnabled(w, c)
    case ReadFrame(c, input) =>
      && Known(w, c) && L.InPhase(w.life, c, L.Reading)
      && (Handle(w.life.profile[c], input).Ingested? ==> CanPublish(w))
    case Join(c, _) => Known(w, c) && L.InPhase(w.life, c, L.Reading) && CanPublish(w)
    case Announce(_, queued) =>
      L.WorkerEnabled(w.life, L.WorkerPublish) && (if queued then CanPublish(w) else w.life.drain.done)
    case Remote(m) => Broker.Arrives(m) && CanPublish(w)
    case Replay(c, store, k) => Known(w, c) && UniqueIds(store) && k < |Recent(store, w.life.profile[c].room)|
    case Welcome(c) => Known(w, c)
    case Write(c, _) => Known(w, c) && w.conns[c].queue != [] && w.conns[c].lost == []
    case CloseConn(c) => Known(w, c)
  }

  function ProfileOf(step: Step): Profile
    requires step.Connect?
  {
    var room := NormalizeRoom(step.rawRoom);
    Profile(if room.Ok? then room.value else "", step.username, step.userID, step.authenticated)
  }

  /** `enqueue`: a closed or full queue refuses. */
  function Enqueue(k: Conn, i: Item): Conn
  {
    if !HasRoom(k) then k
    else k.(queue := k.queue + [i], taken := k.taken + [i])
  }

  function EnqueueAside(w: World, c: Client, m: Message): World
    requires c in w.conns
  {
    w.(conns := w.conns[c := Enqueue(w.conns[c], Aside(m))])
  }

  function Removed(k: Conn, at: int): Conn { k.(closed := true, upto := Some(at)) }

  /** The effect of a plain lifecycle step on messages. */
  function Effect(w: World, step: L.Step): World
    requires Enabled(w, Life(step))
  {
    match step
    case ByHub(HubLock) => w.(log := w.log + [w.current])
    case ByHub(HubDisconnect) =>
      var c := w.life.hub.c;
      if c in w.life.core.clients then w.(conns := w.conns[c := Removed(w.conns[c], |w.log|)]) else w
    case ByDrain(DrainBegin) =>
      w.(conns := map c | c in w.conns ::
           if c in w.life.core.clients then w.conns[c].(upto := Some(|w.log|)) else w.conns[c])
    case ByDrain(DrainClose(c)) =>
      if c in w.conns then w.(conns := w.conns[c := w.conns[c].(closed := true)]) else w
    case _ => w
  }

  /** One turn of the fan-out loop, as the client sees it. */
  function FanConn(k: Conn, room: string, m: Message, position: int): Conn
  {
    if !Wants(room, m) then k
    else if HasRoom(k) then Enqueue(k, Live(m))
    else Removed(k, position)
  }

  function FanOne(w: World, c: Client): World
    requires FanEnabled(w, c)
  {
    w.(life := L.ApplyHub(w.life, L.HubFan(c, Kept(w, c))),
       conns := w.conns[c := FanConn(w.conns[c], w.life.profile[c].room, w.current, |w.log| - 1)])
  }

  /** A client the draining hub refuses is closed and never offered anything. */
  function NewConn(refused: bool, position: int): Conn
  {
    Conn(refused, [], [], [], [], position, if refused then Some(position) else None)
  }

  function FrameEffect(w: World, c: Client, o: Outcome): World
    requires Known(w, c) && (o.Renamed? ==> L.ClientEnabled(w.life, c, L.Rename(o.name)))
  {
    match o
    case Renamed(name) => w.(life := L.ApplyClient(w.life, c, L.Rename(name)))
    case Rejected(RateLimited) => EnqueueAside(w, c, RateLimitNotice(w.life.profile[c].room))
    case Rejected(_) => w
    case Ingested(m) => w.(broadcast := w.broadcast + [m])
  }

  /** The writer takes the head of the queue; a failed write closes the connection and ends the writer. */
  function WriteOne(k: Conn, ok: bool): Conn
    requires k.queue != []
  {
    if ok then k.(queue := k.queue[1..], written := k.written + [k.queue[0]])
    else k.(queue := k.queue[1..], lost := [k.queue[0]], closed := true)
  }

  function Apply(w: World, step: Step): World
    requires Enabled(w, step)
  {
    match step
    case Connect(c, _, _, _, _) =>
      w.(life := L.ApplyClient(w.life, c, L.RegisterClient(ProfileOf(step))),
         conns := w.conns[c := NewConn(w.life.core.draining, |w.log|)])
    case Life(l) => Effect(w, l).(life := L.Apply(w.life, l))
    case Dequeue =>
      w.(life := L.ApplyHub(w.life, L.HubDequeue), current := w.broadcast[0], broadcast := w.broadcast[1..])
    case Fan(c) => FanOne(w, c)
    case ReadFrame(c, input) => FrameEffect(w, c, Handle(w.life.profile[c], input))
    case Join(c, saved) =>
      var p := w.life.profile[c];
      w.(broadcast := w.broadcast + [WithSaved(JoinNotice(p.room, p.username), saved)])
    case Announce(saved, queued) =>
      var m := WithSaved(w.life.leave.worker.notice, saved);
      w.(life := L.ApplyWorker(w.life, L.WorkerPublish),
         broadcast := if queued then w.broadcast + [m] else w.broadcast)
    case Remote(m) => w.(broadcast := w.broadcast + [m])
    case Replay(c, store, k) => EnqueueAside(w, c, Recent(store, w.life.profile[c].room)[k])
    case Welcome(c) => EnqueueAside(w, c, WelcomeNotice(w.life.profile[c].room))
    case Write(c, ok) => w.(conns := w.conns[c := WriteOne(w.conns[c], ok)])
    case CloseConn(c) => w.(conns := w.conns[c := w.conns[c].(closed := true)])
  }

  const INITIAL := World(L.INITIAL, map[], [], Notice(DEFAULT_ROOM, ""), [])

  ghost predicate Leads(w: World, steps: seq<Step>, t: World)
    decreases |steps|
  {
    if steps == [] then w == t
    else Enabled(w, steps[0]) && Leads(Apply(w, steps[0]), steps[1..], t)
  }

  // ---------------------------------------------------------------- projection onto the lifecycle

  /** The lifecycle step a step performs, if any. */
  function Shadow(w: World, step: Step): seq<L.Step>
    requires Enabled(w, step)
  {
    match step
    case Connect(c, _, _, _, _) => [L.ByClient(c, L.RegisterClient(ProfileOf(step)))]
    case Life(l) => [l]
    case Dequeue => [L.ByHub(L.HubDequeue)]
    case Fan(c) => [L.ByHub(L.HubFan(c, Kept(w, c)))]
    case ReadFrame(c, input) =>
      var o := Handle(w.life.profile[c], input);
      if o.Renamed? then [L.ByClient(c, L.Rename(o.name))] else []
    case Announce(_, _) => [L.ByWorker(L.WorkerPublish)]
    case _ => []
  }

  lemma StepProjects(w: World, step: Step)
    requires Enabled(w, step)
    ensures L.Leads(w.life, Shadow(w, step), Apply(w, step).life)
  {
    if Shadow(w, step) != [] {
      var l := Shadow(w, step)[0];
      assert Shadow(w, step)[1..] == [];
      assert L.Enabled(w.life, l);
      assert L.Apply(w.life, l) == Apply(w, step).life;
    }
  }

  /** Every run projects to a lifecycle run. */
  lemma {:induction false} RunProjects(w: World, steps: seq<Step>, t: World) returns (lifeSteps: seq<L.Step>)
    requires Leads(w, steps, t)
    ensures L.Leads(w.life, lifeSteps, t.life)
    decreases |steps|
  {
    if steps == [] {
      lifeSteps := [];
    } else {
      var m := Apply(w, steps[0]);
      StepProjects(w, steps[0]);
      var rest := RunProjects(m, steps[1..], t);
      L.LeadsConcat(w.life, Shadow(w, steps[0]), m.life, rest, t.life);
      lifeSteps := Shadow(w, steps[0]) + rest;
    }
  }

  // ---------------------------------------------------------------- room isolation

  ghost predicate AllCanonical(q: seq<Message>)
  {
    forall i :: 0 <= i < |q| ==> CanonicalRoom(q[i].room)
  }

  ghost predicate AllIn(q: seq<Item>, room: string)
  {
    forall i :: 0 <= i < |q| ==> q[i].message.room == room
  }

  ghost predicate LeaveCanonical(l: L.Leave)
  {
    && AllCanonical(l.queue)
    && (l.worker.Saving? || l.worker.Announcing? ==> CanonicalRoom(l.worker.notice.room))
  }

  ghost predicate LifeRooms(s: L.State)
  {
    && LeaveCanonical(s.leave)
    && forall c :: c in s.profile ==> CanonicalRoom(s.profile[c].room)
  }

  ghost predicate HubRooms(w: World)
  {
    AllCanonical(w.broadcast) && AllCanonical(w.log) && CanonicalRoom(w.current.room)
  }

  ghost predicate ConnRooms(k: Conn, room: string)
  {
    AllIn(k.queue, room) && AllIn(k.written, room) && AllIn(k.lost, room)
  }

  ghost predicate ClientRooms(conns: map<Client, Conn>, profile: map<Client, Profile>)
  {
    && conns.Keys == profile.Keys
    && forall c :: c in conns ==> ConnRooms(conns[c], profile[c].room)
  }

  /** Every message on the server side carries a canonical room, and every item of a client the client's own. */
  ghost predicate RoomsInv(w: World)
  {
    LifeRooms(w.life) && HubRooms(w) && ClientRooms(w.conns, w.life.profile)
  }

  lemma DisconnectKeepsRooms(s: L.State, c: Client)
    requires LifeRooms(s) && c in s.profile
    ensures LifeRooms(L.DisconnectClient(s, c))
    ensures L.DisconnectClient(s, c).profile == s.profile
  {
  }

  lemma HubStepRooms(s: L.State, step: L.HubStep)
    requires LifeRooms(s) && L.HubEnabled(s, step)
    ensures LifeRooms(L.ApplyHub(s, step)) && L.ApplyHub(s, step).profile == s.profile
  {
    match step
    case HubDisconnect => DisconnectKeepsRooms(s, s.hub.c);
    case HubFan(c, _) => DisconnectKeepsRooms(s, c);
    case _ =>
  }

  lemma WorkerStepRooms(s: L.State, step: L.WorkerStep)
    requires LifeRooms(s) && L.WorkerEnabled(s, step)
    ensures LifeRooms(L.ApplyWorker(s, step)) && L.ApplyWorker(s, step).profile == s.profile
  {
  }

  lemma ClientStepRooms(s: L.State, c: Client, step: L.ClientStep)
    requires LifeRooms(s) && L.ClientEnabled(s, c, step) && !step.RegisterClient? && !step.Rename?
    ensures LifeRooms(L.ApplyClient(s, c, step)) && L.ApplyClient(s, c, step).profile == s.profile
  {
  }

  lemma DrainStepRooms(s: L.State, step: L.DrainStep)
    requires LifeRooms(s) && L.DrainEnabled(s, step)
    ensures LifeRooms(L.ApplyDrain(s, step)) && L.ApplyDrain(s, step).profile == s.profile
  {
  }

  lemma PlainStepRooms(s: L.State, step: L.Step)
    requires LifeRooms(s) && L.Enabled(s, step) && Plain(step)
    ensures LifeRooms(L.Apply(s, step)) && L.Apply(s, step).profile == s.profile
  {
    match step
    case ByHub(hub) => HubStepRooms(s, hub);
    case ByWorker(worker) => WorkerStepRooms(s, worker);
    case ByClient(c, client) => ClientStepRooms(s, c, client);
    case ByDrain(drain) => DrainStepRooms(s, drain);
  }

  lemma EffectKeepsItems(w: World, step: L.Step)
    requires Enabled(w, Life(step))
    ensures var t := Effect(w, step);
            && t.conns.Keys == w.conns.Keys
            && t.broadcast == w.broadcast && t.current == w.current && (t.log == w.log || t.log == w.log + [w.current])
            && forall c :: c in w.conns ==>
                 && t.conns[c].queue == w.conns[c].queue && t.conns[c].written == w.conns[c].written
                 && t.conns[c].lost == w.conns[c].lost
  {
  }

  lemma LifeKeepsRooms(w: World, step: L.Step)
    requires RoomsInv(w) && Enabled(w, Life(step))
    ensures RoomsInv(Apply(w, Life(step)))
  {
    PlainStepRooms(w.life, step);
    EffectKeepsItems(w, step);
  }

  lemma FanKeepsRooms(w: World, c: Client)
    requires RoomsInv(w) && FanEnabled(w, c)
    ensures RoomsInv(FanOne(w, c))
  {
    HubStepRooms(w.life, L.HubFan(c, Kept(w, c)));
  }

  lemma AsideKeepsRooms(w: World, c: Client, m: Message)
    requires RoomsInv(w) && c in w.conns && m.room == w.life.profile[c].room
    ensures RoomsInv(EnqueueAside(w, c, m))
  {
  }

  lemma FrameKeepsRooms(w: World, c: Client, o: Outcome)
    requires RoomsInv(w) && Known(w, c) && (o.Renamed? ==> L.ClientEnabled(w.life, c, L.Rename(o.name)))
    requires o.Ingested? ==> o.message.room == w.life.profile[c].room
    ensures RoomsInv(FrameEffect(w, c, o))
  {
    if o == Rejected(RateLimited) {
      AsideKeepsRooms(w, c, RateLimitNotice(w.life.profile[c].room));
    }
  }

  lemma ConnChangeKeepsRooms(w: World, c: Client, k: Conn)
    requires RoomsInv(w) && c in w.conns && ConnRooms(k, w.life.profile[c].room)
    ensures RoomsInv(w.(conns := w.conns[c := k]))
  {
  }

  lemma WriteKeepsRooms(k: Conn, ok: bool, room: string)
    requires ConnRooms(k, room) && k.queue != []
    ensures ConnRooms(WriteOne(k, ok), room)
  {
  }

  lemma ConnectKeepsRooms(w: World, step: Step)
    requires RoomsInv(w) && Enabled(w, step) && step.Connect?
    ensures RoomsInv(Apply(w, step))
  {
  }

  lemma PublishKeepsRooms(w: World, step: Step)
    requires RoomsInv(w) && Enabled(w, step) && (step.Dequeue? || step.Join? || step.Announce? || step.Remote?)
    ensures RoomsInv(Apply(w, step))
  {
    if step.Remote? {
      Broker.ArrivalsHaveRooms(step.message);
    }
  }

  lemma ClientSideKeepsRooms(w: World, step: Step)
    requires RoomsInv(w) && Enabled(w, step)
    requires step.ReadFrame? || step.Replay? || step.Welcome? || step.Write? || step.CloseConn?
    ensures RoomsInv(Apply(w, step))
  {
    match step
    case ReadFrame(c, input) => FrameKeepsRooms(w, c, Handle(w.life.profile[c], input));
    case Replay(c, store, k) =>
      RecentIsOfTheRoom(store, w.life.profile[c].room, k);
      AsideKeepsRooms(w, c, Recent(store, w.life.profile[c].room)[k]);
    case Welcome(c) => AsideKeepsRooms(w, c, WelcomeNotice(w.life.profile[c].room));
    case Write(c, ok) =>
      WriteKeepsRooms(w.conns[c], ok, w.life.profile[c].room);
      ConnChangeKeepsRooms(w, c, WriteOne(w.conns[c], ok));
    case CloseConn(c) => ConnChangeKeepsRooms(w, c, w.conns[c].(closed := true));
  }

  lemma StepKeepsRooms(w: World, step: Step)
    requires RoomsInv(w) && Enabled(w, step)
    ensures RoomsInv(Apply(w, step))
  {
    match step
    case Connect(_, _, _, _, _) => ConnectKeepsRooms(w, step);
    case Life(l) => LifeKeepsRooms(w, l);
    case Fan(c) => FanKeepsRooms(w, c);
    case Dequeue => PublishKeepsRooms(w, step);
    case Join(_, _) => PublishKeepsRooms(w, step);
    case Announce(_, _) => PublishKeepsRooms(w, step);
    case Remote(_) => PublishKeepsRooms(w, step);
    case _ => ClientSideKeepsRooms(w, step);
  }

  // ---------------------------------------------------------------- gap-free delivery

  /** The messages from position `from` up to `end` of the dequeue order that are for `room`, in order; those
      with an empty room count too when `any` says so. */
  function Stretch(log: seq<Message>, from: int, end: int, room: string, any: bool): seq<Message>
    requires 0 <= from <= end <= |log|
    decreases end - from
  {
    if from == end then []
    else
      var rest := Stretch(log, from, end - 1, room, any);
      var last := log[end - 1];
      if last.room == room || (any && last.room == "") then rest + [last] else rest
  }

  function Lives(items: seq<Item>): seq<Message>
  {
    if items == [] then []
    else
      var rest := Lives(items[..|items| - 1]);
      var last := items[|items| - 1];
      if last.Live? then rest + [last.message] else rest
  }

  lemma {:induction false} StretchExtends(log: seq<Message>, m: Message, from: int, end: int, room: string)
    requires 0 <= from <= end <= |log|
    ensures Stretch(log + [m], from, end, room, true) == Stretch(log, from, end, room, true)
    decreases end - from
  {
    if from < end {
      StretchExtends(log, m, from, end - 1, room);
    }
  }

  /** Where the stretch of the dequeue order a client has been offered ends. */
  function End(k: Conn, log: seq<Message>, behind: bool): int
  {
    if k.upto.Some? then k.upto.value else if behind then |log| - 1 else |log|
  }

  /** The queue accepted exactly the room's messages of one contiguous stretch of the dequeue order. */
  ghost predicate Offered(k: Conn, room: string, log: seq<Message>, behind: bool)
  {
    && 0 <= k.from <= End(k, log, behind) <= |log|
    && Lives(k.taken) == Stretch(log, k.from, End(k, log, behind), room, true)
  }

  /** What the queue accepted is on the socket, lost with the connection or still queued, in order. */
  ghost predicate Queued(k: Conn)
  {
    && k.taken == k.written + k.lost + k.queue
    && |k.queue| <= SEND_QUEUE_SIZE && |k.lost| <= 1 && (k.lost != [] ==> k.closed)
  }

  ghost predicate AllOffered(
    conns: map<Client, Conn>, profile: map<Client, Profile>, log: seq<Message>, clients: set<Client>, todo: set<Client>)
  {
    && conns.Keys == profile.Keys
    && todo <= clients <= conns.Keys
    && forall c :: c in conns ==>
         (c in clients <==> conns[c].upto.None?) && Offered(conns[c], profile[c].room, log, c in todo)
  }

  ghost predicate AllQueued(conns: map<Client, Conn>)
  {
    forall c :: c in conns ==> Queued(conns[c])
  }

  function Todo(h: L.HubLoop): set<Client> { if h.Fanning? then h.todo else {} }

  ghost predicate CurrentIsLast(w: World)
  {
    w.life.hub.Fanning? ==> w.log != [] && w.log[|w.log| - 1] == w.current
  }

  ghost predicate DeliveryInv(w: World)
  {
    && AllOffered(w.conns, w.life.profile, w.log, w.life.core.clients, Todo(w.life.hub))
    && AllQueued(w.conns)
    && CurrentIsLast(w)
  }

  lemma EnqueueTakes(k: Conn, i: Item)
    requires Queued(k)
    ensures Queued(Enqueue(k, i))
    ensures Lives(Enqueue(k, i).taken) ==
            if HasRoom(k) && i.Live? then Lives(k.taken) + [i.message] else Lives(k.taken)
  {
    assert (k.taken + [i])[..|k.taken|] == k.taken;
    assert k.written + k.lost + k.queue + [i] == k.written + k.lost + (k.queue + [i]);
  }

  lemma WriteKeepsQueued(k: Conn, ok: bool)
    requires Queued(k) && k.queue != [] && k.lost == []
    ensures Queued(WriteOne(k, ok))
  {
    assert k.queue == [k.queue[0]] + k.queue[1..];
  }

  /** The hub's message is appended for a matching client with room, evicts a matching client
      without, and leaves any other client alone. In each case the client has been offered
      everything up to the right place. */
  lemma FanOffers(k: Conn, room: string, log: seq<Message>)
    requires log != [] && k.upto.None? && Offered(k, room, log, true) && Queued(k)
    ensures var k' := FanConn(k, room, log[|log| - 1], |log| - 1);
            && Offered(k', room, log, false) && Queued(k')
            && (k'.upto.None? <==> Stays(room, log[|log| - 1], HasRoom(k)))
  {
    EnqueueTakes(k, Live(log[|log| - 1]));
  }

  /** Changing one client leaves the others as they were. */
  lemma ReplaceOne(
    conns: map<Client, Conn>, profile: map<Client, Profile>, log: seq<Message>, clients: set<Client>, todo: set<Client>,
    c: Client, k: Conn, clients': set<Client>, todo': set<Client>)
    requires AllOffered(conns, profile, log, clients, todo) && c in conns
    requires forall x :: x != c ==> (x in clients' <==> x in clients) && (x in todo' <==> x in todo)
    requires c in todo' ==> c in clients'
    requires (c in clients' <==> k.upto.None?) && Offered(k, profile[c].room, log, c in todo')
    ensures AllOffered(conns[c := k], profile, log, clients', todo')
  {
  }

  lemma FanLife(s: L.State, c: Client, kept: bool)
    requires L.HubEnabled(s, L.HubFan(c, kept))
    ensures var t := L.ApplyHub(s, L.HubFan(c, kept));
            && t.profile == s.profile && t.hub == L.Fanning(s.hub.todo - {c})
            && t.core.clients == if kept then s.core.clients else s.core.clients - {c}
  {
  }

  lemma FanConns(
    conns: map<Client, Conn>, profile: map<Client, Profile>, log: seq<Message>, clients: set<Client>, todo: set<Client>,
    c: Client, clients': set<Client>)
    requires AllOffered(conns, profile, log, clients, todo) && AllQueued(conns) && c in todo && log != []
    requires var m := log[|log| - 1];
             clients' == if Stays(profile[c].room, m, HasRoom(conns[c])) then clients else clients - {c}
    ensures var k := FanConn(conns[c], profile[c].room, log[|log| - 1], |log| - 1);
            AllOffered(conns[c := k], profile, log, clients', todo - {c}) && AllQueued(conns[c := k])
  {
    FanOffers(conns[c], profile[c].room, log);
    ReplaceOne(conns, profile, log, clients, todo, c,
               FanConn(conns[c], profile[c].room, log[|log| - 1], |log| - 1), clients', todo - {c});
  }

  lemma FanKeepsDelivery(w: World, c: Client)
    requires DeliveryInv(w) && FanEnabled(w, c)
    ensures DeliveryInv(FanOne(w, c))
  {
    var kept := Kept(w, c);
    FanLife(w.life, c, kept);
    FanConns(w.conns, w.life.profile, w.log, w.life.core.clients, w.life.hub.todo, c,
             if kept then w.life.core.clients else w.life.core.clients - {c});
  }

  /** A change to one client's queue that does not touch what it was offered. */
  lemma QueueChange(w: World, c: Client, k: Conn)
    requires DeliveryInv(w) && c in w.conns && Queued(k)
    requires k.upto == w.conns[c].upto && k.from == w.conns[c].from && Lives(k.taken) == Lives(w.conns[c].taken)
    ensures DeliveryInv(w.(conns := w.conns[c := k]))
  {
    ReplaceOne(w.conns, w.life.profile, w.log, w.life.core.clients, Todo(w.life.hub),
               c, k, w.life.core.clients, Todo(w.life.hub));
  }

  lemma AsideKeepsDelivery(w: World, c: Client, m: Message)
    requires DeliveryInv(w) && c in w.conns
    ensures DeliveryInv(EnqueueAside(w, c, m))
  {
    EnqueueTakes(w.conns[c], Aside(m));
    QueueChange(w, c, Enqueue(w.conns[c], Aside(m)));
  }

  predicate ChangesClients(step: L.Step)
  {
    step == L.ByHub(L.HubLock) || step == L.ByHub(L.HubDisconnect) || step == L.ByDrain(L.DrainBegin)
  }

  lemma OtherStepsKeepClients(s: L.State, step: L.Step)
    requires L.Enabled(s, step) && Plain(step) && !ChangesClients(step)
    ensures var t := L.Apply(s, step);
            && t.core.clients == s.core.clients && t.profile == s.profile && Todo(t.hub) == Todo(s.hub)
            && (t.hub.Fanning? ==> s.hub.Fanning?)
  {
  }

  lemma OtherStepsKeepDelivery(w: World, step: L.Step)
    requires DeliveryInv(w) && Enabled(w, Life(step)) && !ChangesClients(step)
    ensures DeliveryInv(Apply(w, Life(step)))
  {
    OtherStepsKeepClients(w.life, step);
    match step
    case ByDrain(DrainClose(c)) => if c in w.conns { QueueChange(w, c, w.conns[c].(closed := true)); }
    case _ =>
  }

  lemma LockKeepsDelivery(w: World)
    requires DeliveryInv(w) && Enabled(w, Life(L.ByHub(L.HubLock)))
    ensures DeliveryInv(Apply(w, Life(L.ByHub(L.HubLock))))
  {
    forall c | c in w.conns
      ensures Offered(w.conns[c], w.life.profile[c].room, w.log + [w.current], c in w.life.core.clients)
    {
      var k := w.conns[c];
      StretchExtends(w.log, w.current, k.from, End(k, w.log, false), w.life.profile[c].room);
    }
  }

  lemma RemoveConns(
    conns: map<Client, Conn>, profile: map<Client, Profile>, log: seq<Message>, clients: set<Client>, c: Client)
    requires AllOffered(conns, profile, log, clients, {}) && AllQueued(conns) && c in clients
    ensures var conns' := conns[c := Removed(conns[c], |log|)];
            AllOffered(conns', profile, log, clients - {c}, {}) && AllQueued(conns')
  {
    ReplaceOne(conns, profile, log, clients, {}, c, Removed(conns[c], |log|), clients - {c}, {});
  }

  lemma DisconnectLife(s: L.State)
    requires L.HubEnabled(s, L.HubDisconnect)
    ensures var t := L.ApplyHub(s, L.HubDisconnect);
            t.profile == s.profile && t.hub == L.Selecting && t.core.clients == s.core.clients - {s.hub.c}
  {
  }

  lemma DisconnectKeepsDelivery(w: World)
    requires DeliveryInv(w) && Enabled(w, Life(L.ByHub(L.HubDisconnect)))
    ensures DeliveryInv(Apply(w, Life(L.ByHub(L.HubDisconnect))))
  {
    DisconnectLife(w.life);
    var c := w.life.hub.c;
    if c in w.life.core.clients {
      RemoveConns(w.conns, w.life.profile, w.log, w.life.core.clients, c);
    } else {
      assert w.life.core.clients - {c} == w.life.core.clients;
    }
  }

  lemma BeginKeepsDelivery(w: World)
    requires DeliveryInv(w) && Enabled(w, Life(L.ByDrain(L.DrainBegin)))
    ensures DeliveryInv(Apply(w, Life(L.ByDrain(L.DrainBegin))))
  {
    BeginConns(w.conns, w.life.profile, w.log, w.life.core.clients);
  }

  lemma BeginConns(conns: map<Client, Conn>, profile: map<Client, Profile>, log: seq<Message>, clients: set<Client>)
    requires AllOffered(conns, profile, log, clients, {}) && AllQueued(conns)
    ensures var conns' := map c | c in conns :: if c in clients then conns[c].(upto := Some(|log|)) else conns[c];
            AllOffered(conns', profile, log, {}, {}) && AllQueued(conns')
  {
  }

  lemma QuietStepKeepsDelivery(w: World, step: Step)
    requires DeliveryInv(w) && Enabled(w, step)
    requires step.Dequeue? || step.Join? || step.Announce? || step.Remote?
    ensures DeliveryInv(Apply(w, step))
  {
  }

  lemma AddConn(
    conns: map<Client, Conn>, profile: map<Client, Profile>, log: seq<Message>, clients: set<Client>,
    c: Client, p: Profile, refused: bool)
    requires AllOffered(conns, profile, log, clients, {}) && AllQueued(conns) && c !in conns
    ensures var conns' := conns[c := NewConn(refused, |log|)];
            && AllOffered(conns', profile[c := p], log, if refused then clients else clients + {c}, {})
            && AllQueued(conns')
  {
  }

  lemma ConnectKeepsDelivery(w: World, step: Step)
    requires DeliveryInv(w) && Enabled(w, step) && step.Connect? && step.c !in w.conns
    ensures DeliveryInv(Apply(w, step))
  {
    AddConn(w.conns, w.life.profile, w.log, w.life.core.clients, step.c, ProfileOf(step), w.life.core.draining);
  }

  lemma RenameKeepsDelivery(w: World, c: Client, name: string)
    requires DeliveryInv(w) && Known(w, c)
    ensures AllOffered(w.conns, w.life.profile[c := w.life.profile[c].(username := name)], w.log,
                       w.life.core.clients, Todo(w.life.hub))
  {
  }

  lemma FrameKeepsDelivery(w: World, c: Client, o: Outcome)
    requires DeliveryInv(w) && Known(w, c) && (o.Renamed? ==> L.ClientEnabled(w.life, c, L.Rename(o.name)))
    ensures DeliveryInv(FrameEffect(w, c, o))
  {
    match o
    case Renamed(name) => RenameKeepsDelivery(w, c, name);
    case Rejected(RateLimited) => AsideKeepsDelivery(w, c, RateLimitNotice(w.life.profile[c].room));
    case _ =>
  }

  lemma LifeKeepsDelivery(w: World, step: L.Step)
    requires DeliveryInv(w) && Enabled(w, Life(step))
    ensures DeliveryInv(Apply(w, Life(step)))
  {
    if step == L.ByHub(L.HubLock) {
      LockKeepsDelivery(w);
    } else if step == L.ByHub(L.HubDisconnect) {
      DisconnectKeepsDelivery(w);
    } else if step == L.ByDrain(L.DrainBegin) {
      BeginKeepsDelivery(w);
    } else {
      OtherStepsKeepDelivery(w, step);
    }
  }

  lemma StepKeepsDelivery(w: World, step: Step)
    requires DeliveryInv(w) && Enabled(w, step) && (step.Connect? ==> step.c !in w.conns)
    ensures DeliveryInv(Apply(w, step))
  {
    match step
    case Connect(_, _, _, _, _) => ConnectKeepsDelivery(w, step);
    case Life(l) => LifeKeepsDelivery(w, l);
    case Dequeue => QuietStepKeepsDelivery(w, step);
    case Fan(c) => FanKeepsDelivery(w, c);
    case ReadFrame(c, input) => FrameKeepsDelivery(w, c, Handle(w.life.profile[c], input));
    case Join(_, _) => QuietStepKeepsDelivery(w, step);
    case Announce(_, _) => QuietStepKeepsDelivery(w, step);
    case Remote(_) => QuietStepKeepsDelivery(w, step);
    case Replay(c, store, k) => AsideKeepsDelivery(w, c, Recent(store, w.life.profile[c].room)[k]);
    case Welcome(c) => AsideKeepsDelivery(w, c, WelcomeNotice(w.life.profile[c].room));
    case Write(c, ok) =>
      WriteKeepsQueued(w.conns[c], ok);
      QueueChange(w, c, WriteOne(w.conns[c], ok));
    case CloseConn(c) => QueueChange(w, c, w.conns[c].(closed := true));
  }

  ghost predicate Inv(w: World) { L.Inv(w.life) && RoomsInv(w) && DeliveryInv(w) }

  lemma StepKeepsInv(w: World, step: Step)
    requires Inv(w) && Enabled(w, step)
    ensures Inv(Apply(w, step))
  {
    StepProjects(w, step);
    L.LeadsKeepsInv(w.life, Shadow(w, step), Apply(w, step).life);
    StepKeepsRooms(w, step);
    StepKeepsDelivery(w, step);
  }

  lemma {:induction false} LeadsKeepsInv(w: World, steps: seq<Step>, t: World)
    requires Inv(w) && Leads(w, steps, t)
    ensures Inv(t)
    decreases |steps|
  {
    if steps != [] {
      StepKeepsInv(w, steps[0]);
      LeadsKeepsInv(Apply(w, steps[0]), steps[1..], t);
    }
  }

  // ---------------------------------------------------------------- results over whole runs

  lemma InitialInv()
    ensures Inv(INITIAL)
  {
    L.ReachableInv([], L.INITIAL);
  }

  lemma ReachableInv(steps: seq<Step>, w: World)
    requires Leads(INITIAL, steps, w)
    ensures Inv(w)
  {
    InitialInv();
    LeadsKeepsInv(INITIAL, steps, w);
  }

  lemma TakenRooms(k: Conn, room: string)
    requires Queued(k) && ConnRooms(k, room)
    ensures AllIn(k.taken, room)
  {
  }

  lemma ClientIsolation(w: World, c: Client)
    requires RoomsInv(w) && AllQueued(w.conns) && c in w.conns
    ensures c in w.life.profile && CanonicalRoom(w.life.profile[c].room) && AllIn(w.conns[c].taken, w.life.profile[c].room)
  {
    TakenRooms(w.conns[c], w.life.profile[c].room);
  }

  /** Everything ever queued to a client carries the client's own canonical room, and everything the hub
      ever broadcasts carries some canonical room: the empty room that would match every client
      is never fanned out. */
  lemma RoomIsolation(steps: seq<Step>, w: World)
    requires Leads(INITIAL, steps, w)
    ensures forall c :: c in w.conns ==>
              && c in w.life.profile && CanonicalRoom(w.life.profile[c].room)
              && AllIn(w.conns[c].taken, w.life.profile[c].room)
    ensures AllCanonical(w.log) && AllCanonical(w.broadcast)
    ensures forall i :: 0 <= i < |w.log| ==> w.log[i].room != ""
  {
    ReachableInv(steps, w);
    forall c | c in w.conns
      ensures c in w.life.profile && CanonicalRoom(w.life.profile[c].room) && AllIn(w.conns[c].taken, w.life.profile[c].room)
    {
      ClientIsolation(w, c);
    }
  }

  /** Without messages for everybody, the wildcard makes no difference. */
  lemma {:induction false} NoWildcard(log: seq<Message>, from: int, end: int, room: string)
    requires 0 <= from <= end <= |log| && AllCanonical(log)
    ensures Stretch(log, from, end, room, true) == Stretch(log, from, end, room, false)
    decreases end - from
  {
    if from < end {
      NoWildcard(log, from, end - 1, room);
    }
  }

  // ---------------------------------------------------------------- what is published, in order

  /** The same message with the id and the time it was stored with. */
  function Stored(m: Message, saved: Option<Saved>): Message
  {
    match saved
    case None => m
    case Some(row) => Message(row.id, m.userID, m.username, m.content, m.kind, m.room, row.timestamp)
  }

  /** What a step publishes, read off the step: an ingested frame, a join notice, the announcement of a leave notice,
      or a message from another instance. */
  function Published(w: World, step: Step): seq<Message>
  {
    match step
    case ReadFrame(c, input) =>
      if c in w.life.profile && Handle(w.life.profile[c], input).Ingested?
      then [Handle(w.life.profile[c], input).message] else []
    case Join(c, saved) =>
      if c !in w.life.profile then []
      else
        var p := w.life.profile[c];
        [Stored(Message(0, "", "System", p.username + " joined the chat", "notification", p.room, Clock.ZERO), saved)]
    case Announce(saved, queued) =>
      if queued && w.life.leave.worker.Announcing? then [Stored(w.life.leave.worker.notice, saved)] else []
    case Remote(m) => [m]
    case _ => []
  }

  ghost function AllPublished(w: World, steps: seq<Step>): seq<Message>
    decreases |steps|
  {
    if steps == [] || !Enabled(w, steps[0]) then []
    else Published(w, steps[0]) + AllPublished(Apply(w, steps[0]), steps[1..])
  }

  /** The message the hub loop has taken and not yet fanned out. */
  function Held(w: World): seq<Message> { if w.life.hub.Dequeued? then [w.current] else [] }

  /** Fanned out, held, and waiting. */
  function Pipeline(w: World): seq<Message> { w.log + Held(w) + w.broadcast }

  lemma PlainStepHub(s: L.State, step: L.Step)
    requires L.Enabled(s, step) && Plain(step) && step != L.ByHub(L.HubLock)
    ensures L.Apply(s, step).hub.Dequeued? == s.hub.Dequeued?
  {
  }

  lemma LifePipeline(w: World, step: L.Step)
    requires Enabled(w, Life(step))
    ensures Pipeline(Apply(w, Life(step))) == Pipeline(w)
  {
    if step == L.ByHub(L.HubLock) {
      assert w.log + [w.current] + [] == w.log + [w.current];
    } else {
      PlainStepHub(w.life, step);
      EffectKeepsItems(w, step);
    }
  }

  lemma DequeuePipeline(log: seq<Message>, broadcast: seq<Message>)
    requires broadcast != []
    ensures log + [] + broadcast == log + [broadcast[0]] + broadcast[1..]
  {
    assert broadcast == [broadcast[0]] + broadcast[1..];
  }

  lemma PublishPipeline(log: seq<Message>, held: seq<Message>, broadcast: seq<Message>, more: seq<Message>)
    ensures log + held + (broadcast + more) == log + held + broadcast + more
  {
  }

  /** Steps that publish put their message at the end; the hub loop takes from the front. */
  lemma StepPipeline(w: World, step: Step)
    requires Enabled(w, step)
    ensures Pipeline(Apply(w, step)) == Pipeline(w) + Published(w, step)
  {
    assert Pipeline(w) + [] == Pipeline(w);
    match step
    case Life(l) => LifePipeline(w, l);
    case Dequeue => DequeuePipeline(w.log, w.broadcast);
    case ReadFrame(c, input) => FramePipeline(w, c, input);
    case Join(_, _) => PublishPipeline(w.log, Held(w), w.broadcast, Published(w, step));
    case Announce(_, _) =>
      assert w.broadcast + [] == w.broadcast;
      PublishPipeline(w.log, Held(w), w.broadcast, Published(w, step));
    case Remote(_) => PublishPipeline(w.log, Held(w), w.broadcast, Published(w, step));
    case _ =>
  }

  lemma FramePipeline(w: World, c: Client, input: Input)
    requires Enabled(w, ReadFrame(c, input))
    ensures Pipeline(Apply(w, ReadFrame(c, input))) == Pipeline(w) + Published(w, ReadFrame(c, input))
  {
    assert Pipeline(w) + [] == Pipeline(w);
    PublishPipeline(w.log, Held(w), w.broadcast, Published(w, ReadFrame(c, input)));
  }

  lemma {:induction false} LeadsPipeline(w: World, steps: seq<Step>, t: World)
    requires Leads(w, steps, t)
    ensures Pipeline(t) == Pipeline(w) + AllPublished(w, steps)
    decreases |steps|
  {
    if steps == [] {
      assert Pipeline(w) + [] == Pipeline(w);
    } else {
      StepPipeline(w, steps[0]);
      LeadsPipeline(Apply(w, steps[0]), steps[1..], t);
      L.Joins(Pipeline(w), Published(w, steps[0]), AllPublished(Apply(w, steps[0]), steps[1..]));
    }
  }

  /** First in, first out: in every run the messages published, in the order of the steps that published them, are those fanned out,
      then the one the hub loop holds, then those waiting. Nothing is lost, repeated, invented or overtaken. */
  lemma PublishedInOrder(steps: seq<Step>, w: World)
    requires Leads(INITIAL, steps, w)
    ensures AllPublished(INITIAL, steps) == w.log + Held(w) + w.broadcast
  {
    LeadsPipeline(INITIAL, steps, w);
    assert Pipeline(INITIAL) + AllPublished(INITIAL, steps) == AllPublished(INITIAL, steps);
  }

  /** The fan-out of the hub's message to a client: a client of another room is left alone; one of the room with fewer than 256 messages
      waiting gets it last in its queue; one whose queue is full or closed is removed, and that is the only way a
      fan-out removes anybody. */
  lemma FanExactly(w: World, c: Client)
    requires Enabled(w, Fan(c))
    ensures var (k, t) := (w.conns[c], Apply(w, Fan(c)));
            var concerned := w.current.room == "" || w.current.room == w.life.profile[c].room;
            && c in t.conns
            && (c !in t.life.core.clients <==> concerned && (k.closed || |k.queue| >= 256))
            && t.conns[c].queue == (if concerned && c in t.life.core.clients then k.queue + [Live(w.current)] else k.queue)
            && forall x :: x in w.conns && x != c ==> x in t.conns && t.conns[x] == w.conns[x]
  {
    FanLife(w.life, c, Kept(w, c));
  }

  /** Connecting gives a client the room that was asked for, in normal form, and its identity; a draining hub refuses it. */
  lemma ConnectExactly(w: World, step: Step)
    requires Enabled(w, step) && step.Connect?
    ensures var (c, t) := (step.c, Apply(w, step));
            && c in t.life.profile && c in t.conns && NormalizeRoom(step.rawRoom) == Ok(t.life.profile[c].room)
            && t.life.profile[c].username == step.username && t.life.profile[c].userID == step.userID
            && t.life.profile[c].authenticated == step.authenticated
            && (!w.life.core.draining ==> c in t.life.core.clients) && (w.life.core.draining ==> t.life.core.clients == w.life.core.clients)
            && t.conns[c].queue == [] && t.conns[c].closed == w.life.core.draining
  {
  }

  /** The frames of one client, in the order they were read. */
  function InputsOf(c: Client, steps: seq<Step>): seq<Input>
  {
    if steps == [] then []
    else (if steps[0].ReadFrame? && steps[0].c == c then [steps[0].input] else []) + InputsOf(c, steps[1..])
  }

  lemma StepProfile(w: World, step: Step, c: Client)
    requires L.Inv(w.life) && Enabled(w, step) && c in w.life.profile
    ensures var p := w.life.profile[c];
            && c in Apply(w, step).life.profile
            && Apply(w, step).life.profile[c] ==
                 if step.ReadFrame? && step.c == c then After(p, Handle(p, step.input)) else p
  {
    match step
    case Life(l) => PlainStepProfile(w.life, l);
    case ReadFrame(_, _) =>
    case Fan(x) => FanLife(w.life, x, Kept(w, x));
    case _ =>
  }

  lemma PlainStepProfile(s: L.State, step: L.Step)
    requires L.Enabled(s, step) && Plain(step)
    ensures L.Apply(s, step).profile == s.profile
  {
  }

  /** In every run a client's profile is the one it connected with, changed by its own frames and nothing else. */
  lemma {:induction false} ProfileFollowsFrames(w: World, steps: seq<Step>, t: World, c: Client)
    requires L.Inv(w.life) && Leads(w, steps, t) && c in w.life.profile
    ensures c in t.life.profile && t.life.profile[c] == ProfileAfter(w.life.profile[c], InputsOf(c, steps))
    decreases |steps|
  {
    if steps != [] {
      var step, m := steps[0], Apply(w, steps[0]);
      StepProfile(w, step, c);
      StepProjects(w, step);
      L.LeadsKeepsInv(w.life, Shadow(w, step), m.life);
      ProfileFollowsFrames(m, steps[1..], t, c);
      if step.ReadFrame? && step.c == c {
        ProfileAfterFirst(w.life.profile[c], step.input, InputsOf(c, steps[1..]));
      } else {
        assert [] + InputsOf(c, steps[1..]) == InputsOf(c, steps[1..]);
      }
    }
  }

  /** What closes a client's connection: its removal by the hub, the drain, a failed write, or the connection itself. */
  ghost predicate Closes(w: World, step: Step, c: Client)
    requires Enabled(w, step)
  {
    match step
    case Life(l) => L.Removes(w.life, l) == Some(c) || l == L.ByDrain(L.DrainClose(c))
    case Fan(x) => x == c && !Kept(w, c)
    case Write(x, ok) => x == c && !ok
    case CloseConn(x) => x == c
    case _ => false
  }

  lemma LifeCloses(w: World, l: L.Step, c: Client)
    requires Enabled(w, Life(l)) && c in w.conns
    ensures c in Effect(w, l).conns
    ensures Effect(w, l).conns[c].closed <==> w.conns[c].closed || L.Removes(w.life, l) == Some(c) || l == L.ByDrain(L.DrainClose(c))
  {
  }

  lemma FrameCloses(w: World, x: Client, o: Outcome, c: Client)
    requires Known(w, x) && (o.Renamed? ==> L.ClientEnabled(w.life, x, L.Rename(o.name))) && c in w.conns
    ensures c in FrameEffect(w, x, o).conns && FrameEffect(w, x, o).conns[c].closed == w.conns[c].closed
  {
  }

  /** A connection is closed by exactly these steps, and stays closed. */
  lemma ClosedExactlyWhen(w: World, step: Step, c: Client)
    requires Enabled(w, step) && c in w.conns && c in w.life.phase
    ensures c in Apply(w, step).conns
    ensures Apply(w, step).conns[c].closed <==> w.conns[c].closed || Closes(w, step, c)
  {
    match step
    case Life(l) => LifeCloses(w, l, c);
    case ReadFrame(x, input) => FrameCloses(w, x, Handle(w.life.profile[x], input), c);
    case _ =>
  }

  /** What a step offers to one client alone, past the hub loop: a replayed row, the welcome, or the answer to a frame that came
      too fast. */
  function OfferedAside(w: World, step: Step): Option<(Client, Message)>
    requires Enabled(w, step)
  {
    match step
    case Replay(c, store, k) => Some((c, Recent(store, w.life.profile[c].room)[k]))
    case Welcome(c) =>
      Some((c, Message(0, "", "System", "Welcome to the chat! You can see the last 50 messages.", "notification",
                       w.life.profile[c].room, Clock.ZERO)))
    case ReadFrame(c, input) =>
      if Handle(w.life.profile[c], input) != Rejected(RateLimited) then None
      else Some((c, Message(0, "", "System", "You are sending messages too quickly. Please slow down.", "notification",
                            w.life.profile[c].room, Clock.ZERO)))
    case _ => None
  }

  /** Such a message goes last in the client's queue if it is open and holds fewer than 256, and nowhere else. */
  lemma AsideExactly(w: World, step: Step)
    requires Enabled(w, step) && OfferedAside(w, step).Some?
    ensures var (c, m) := OfferedAside(w, step).value;
            && c in w.conns
            && Apply(w, step) == w.(conns := w.conns[c :=
                 if w.conns[c].closed || |w.conns[c].queue| >= 256 then w.conns[c]
                 else w.conns[c].(queue := w.conns[c].queue + [Aside(m)], taken := w.conns[c].taken + [Aside(m)])])
  {
    NoticeFields(w.life.profile[OfferedAside(w, step).value.0].room, "");
  }

  /** Gap-free delivery. The broadcast messages a client's queue accepted are exactly the messages of
      its room in one contiguous stretch of the hub's dequeue order, from its registration to its removal;
      a client that is still registered has been offered everything fanned out so far. What was
      written to its socket is a prefix of what the queue accepted. */
  lemma GapFreeDelivery(steps: seq<Step>, w: World, c: Client)
    requires Leads(INITIAL, steps, w) && c in w.conns
    ensures c in w.life.profile
    ensures var k := w.conns[c];
            var end := End(k, w.log, c in Todo(w.life.hub));
            && 0 <= k.from <= end <= |w.log|
            && Lives(k.taken) == Stretch(w.log, k.from, end, w.life.profile[c].room, false)
            && (c in w.life.core.clients && !w.life.hub.Fanning? ==> end == |w.log|)
            && k.written <= k.taken
  {
    ReachableInv(steps, w);
    var k := w.conns[c];
    NoWildcard(w.log, k.from, End(k, w.log, c in Todo(w.life.hub)), w.life.profile[c].room);
  }
}
