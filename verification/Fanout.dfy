/** Any number of instances around a broker that may lose, duplicate and reorder events
    (backend/hub.go: `publishContext`, `queueBrokerMessage`, `handleRemoteEvent` and the broker loops). */
module Fanout {
  import opened Text
  import opened Rooms
  import opened Json
  import opened Messages
  import opened Envelopes
  import opened Broker
  import opened Dedupe
  import opened Seqs
  import Frames
  import Clock

  const PUBLISH_QUEUE_SIZE := 1024

  /** What was put on an instance's broadcast queue: a message of its own, with the event id drawn for
      it, or an event from elsewhere, with its place among the accepted ids. */
  datatype Entry = Local(message: Message, eventID: string) | Remote(event: Envelope, at: nat)

  /** One instance. `queue` logs everything ever put on the broadcast queue, `sent` everything the broker took. */
  datatype Node = Node(
    fan: Broker.Fanout, draining: bool, accepted: seq<string>, queue: seq<Entry>, outbox: seq<Envelope>, sent: seq<Packet>)

  function EventsFor(n: Node, m: Message, eventID: string): seq<Envelope>
  {
    if !Frames.Durable(m) then []
    else
      match New(eventID, m.room, n.fan.instance, Payload(m.id, m.userID, m.username, m.content, m.kind), m.timestamp)
      case Err(_) => []
      case Ok(e) => if |n.outbox| < PUBLISH_QUEUE_SIZE then [e] else []
  }

  function PublishLocal(n: Node, m: Message, eventID: string): Node
  {
    n.(queue := n.queue + [Local(m, eventID)], outbox := n.outbox + EventsFor(n, m, eventID))
  }

  /** One turn of the publisher loop; `ok` is the broker's answer. */
  function SendOut(n: Node, ok: bool): Node
    requires n.outbox != []
  {
    n.(outbox := n.outbox[1..], sent := Taken(n.sent, ok, Publish(n.fan, n.outbox[0])))
  }

  function Taken(sent: seq<Packet>, ok: bool, p: Option<Packet>): seq<Packet>
  {
    if ok && p.Some? then sent + [p.value] else sent
  }

  /** `full` tells whether the broadcast queue refuses. */
  function HandleRemote(n: Node, e: Envelope, full: bool): Node
  {
    if e.origin == n.fan.instance || !IsNew(n.accepted, e.eventID) then n
    else
      var seen := n.(accepted := n.accepted + [e.eventID]);
      if n.draining || full then seen else seen.(queue := n.queue + [Remote(e, |n.accepted|)])
  }

  function Deliver(read: Reader, n: Node, p: Packet, full: bool): Node
  {
    if !Hears(n.fan.namespace, Some(p.channel)) then n
    else
      match Accept(read, n.fan, p)
      case None => n
      case Some(e) => HandleRemote(n, e, full)
  }

  // ---------------------------------------------------------------- the system

  /** The instances, the event ids drawn so far, and how all of them decode what the broker delivers. */
  datatype System = System(read: Reader, nodes: seq<Node>, issued: set<string>)

  datatype Step =
    | PublishStep(i: nat, message: Message, eventID: string)
    | SendStep(i: nat, ok: bool)
    | DeliverStep(i: nat, source: nat, k: nat, full: bool)
    | DrainStep(i: nat)

  /** Event ids are drawn at random and never repeat. The broker may deliver anything ever sent, to anyone,
      any number of times, in any order, or never. */
  predicate Enabled(s: System, step: Step)
  {
    && step.i < |s.nodes|
    && match step
       case PublishStep(_, m, id) => m.id < INT64_LIMIT && ValidEventID(id) && id !in s.issued
       case SendStep(i, _) => s.nodes[i].outbox != []
       case DeliverStep(_, source, k, _) => source < |s.nodes| && k < |s.nodes[source].sent|
       case DrainStep(_) => true
  }

  function NodeAfter(s: System, step: Step): Node
    requires Enabled(s, step)
  {
    var n := s.nodes[step.i];
    match step
    case PublishStep(_, m, id) => PublishLocal(n, m, id)
    case SendStep(_, ok) => SendOut(n, ok)
    case DeliverStep(_, source, k, full) => Deliver(s.read, n, s.nodes[source].sent[k], full)
    case DrainStep(_) => n.(draining := true)
  }

  function Next(s: System, step: Step): System
    requires Enabled(s, step)
  {
    System(s.read, s.nodes[step.i := NodeAfter(s, step)], if step.PublishStep? then s.issued + {step.eventID} else s.issued)
  }

  /** An instance as it starts, from whatever names it was configured with. */
  ghost predicate Fresh(n: Node)
  {
    && (exists namespace, instance :: Configure(namespace, instance) == Some(n.fan))
    && n.accepted == [] && n.queue == [] && n.outbox == [] && n.sent == []
  }

  ghost predicate Initial(s: System)
  {
    ReadsBack(s.read) && s.issued == {} && forall i :: 0 <= i < |s.nodes| ==> Fresh(s.nodes[i])
  }

  function TryStep(s: System, step: Step): Option<System>
  {
    if Enabled(s, step) then Some(Next(s, step)) else None
  }

  /** The state after a run, if every step of it was enabled. */
  function After(s: System, run: seq<Step>): Option<System> { Iterate(TryStep, s, run) }

  // ---------------------------------------------------------------- what every instance keeps

  function LocalCount(queue: seq<Entry>): nat
  {
    if queue == [] then 0 else LocalCount(queue[..|queue| - 1]) + if queue[|queue| - 1].Local? then 1 else 0
  }

  /** The event stands for a message this instance published itself. */
  ghost predicate Origin(queue: seq<Entry>, instance: string, e: Envelope)
  {
    exists k :: 0 <= k < |queue| && IsEventOf(queue[k], instance, e)
  }

  predicate IsEventOf(x: Entry, instance: string, e: Envelope)
  {
    x.Local? && x.message.id < INT64_LIMIT && e == ToEvent(x.message, x.eventID, instance)
  }

  ghost predicate Genuine(fan: Broker.Fanout, queue: seq<Entry>, p: Packet)
  {
    exists e :: Publish(fan, e) == Some(p) && Origin(queue, fan.instance, e)
  }

  ghost predicate OutboxOk(queue: seq<Entry>, instance: string, outbox: seq<Envelope>)
  {
    forall k :: 0 <= k < |outbox| ==> Origin(queue, instance, outbox[k])
  }

  ghost predicate SentOk(fan: Broker.Fanout, queue: seq<Entry>, sent: seq<Packet>)
  {
    forall k :: 0 <= k < |sent| ==> Genuine(fan, queue, sent[k])
  }

  ghost predicate OutgoingOk(n: Node)
  {
    && OutboxOk(n.queue, n.fan.instance, n.outbox) && SentOk(n.fan, n.queue, n.sent)
    && |n.outbox| <= PUBLISH_QUEUE_SIZE && |n.outbox| + |n.sent| <= LocalCount(n.queue)
  }

  predicate RemoteOk(x: Entry, instance: string, accepted: seq<string>)
  {
    x.Remote? ==> x.at < |accepted| && accepted[x.at] == x.event.eventID && x.event.origin != instance
  }

  ghost predicate IncomingOk(instance: string, accepted: seq<string>, queue: seq<Entry>)
  {
    && Spaced(accepted)
    && (forall k :: 0 <= k < |queue| ==> RemoteOk(queue[k], instance, accepted))
    && (forall k, l :: 0 <= k < l < |queue| && queue[k].Remote? && queue[l].Remote? ==> queue[k].at < queue[l].at)
  }

  ghost predicate NodeInv(n: Node)
  {
    Configured(n.fan) && OutgoingOk(n) && IncomingOk(n.fan.instance, n.accepted, n.queue)
  }

  lemma OriginGrows(queue: seq<Entry>, x: Entry, instance: string, e: Envelope)
    requires Origin(queue, instance, e)
    ensures Origin(queue + [x], instance, e)
  {
    var k :| 0 <= k < |queue| && IsEventOf(queue[k], instance, e);
    assert IsEventOf((queue + [x])[k], instance, e);
  }

  lemma GenuineGrows(fan: Broker.Fanout, queue: seq<Entry>, x: Entry, p: Packet)
    requires Genuine(fan, queue, p)
    ensures Genuine(fan, queue + [x], p)
  {
    var e :| Publish(fan, e) == Some(p) && Origin(queue, fan.instance, e);
    OriginGrows(queue, x, fan.instance, e);
  }

  lemma OutboxGrows(queue: seq<Entry>, x: Entry, instance: string, outbox: seq<Envelope>)
    requires OutboxOk(queue, instance, outbox)
    ensures OutboxOk(queue + [x], instance, outbox)
  {
    forall k | 0 <= k < |outbox| ensures Origin(queue + [x], instance, outbox[k]) {
      OriginGrows(queue, x, instance, outbox[k]);
    }
  }

  lemma SentGrows(fan: Broker.Fanout, queue: seq<Entry>, x: Entry, sent: seq<Packet>)
    requires SentOk(fan, queue, sent)
    ensures SentOk(fan, queue + [x], sent)
  {
    forall k | 0 <= k < |sent| ensures Genuine(fan, queue + [x], sent[k]) {
      GenuineGrows(fan, queue, x, sent[k]);
    }
  }

  /** Logging an entry keeps what was already known of the outgoing side. */
  lemma QueueGrows(n: Node, x: Entry)
    requires OutgoingOk(n)
    ensures OutgoingOk(n.(queue := n.queue + [x]))
    ensures LocalCount(n.queue + [x]) == LocalCount(n.queue) + if x.Local? then 1 else 0
  {
    assert (n.queue + [x])[..|n.queue|] == n.queue;
    OutboxGrows(n.queue, x, n.fan.instance, n.outbox);
    SentGrows(n.fan, n.queue, x, n.sent);
  }

  lemma IncomingLocal(instance: string, accepted: seq<string>, queue: seq<Entry>, x: Entry)
    requires IncomingOk(instance, accepted, queue) && x.Local?
    ensures IncomingOk(instance, accepted, queue + [x])
  {
  }

  lemma EventsForFacts(n: Node, m: Message, eventID: string)
    ensures var es := EventsFor(n, m, eventID);
            es == [] || (es == [ToEvent(m, eventID, n.fan.instance)] && |n.outbox| < PUBLISH_QUEUE_SIZE)
  {
  }

  lemma OutboxTakes(queue: seq<Entry>, x: Entry, instance: string, outbox: seq<Envelope>, e: Envelope)
    requires OutboxOk(queue + [x], instance, outbox) && IsEventOf(x, instance, e)
    ensures OutboxOk(queue + [x], instance, outbox + [e])
  {
    assert IsEventOf((queue + [x])[|queue|], instance, e);
  }

  lemma PublishKeeps(n: Node, m: Message, eventID: string)
    requires NodeInv(n) && m.id < INT64_LIMIT
    ensures NodeInv(PublishLocal(n, m, eventID))
  {
    var x, es := Local(m, eventID), EventsFor(n, m, eventID);
    QueueGrows(n, x);
    IncomingLocal(n.fan.instance, n.accepted, n.queue, x);
    EventsForFacts(n, m, eventID);
    if es == [] {
      assert n.outbox + es == n.outbox;
    } else {
      OutboxTakes(n.queue, x, n.fan.instance, n.outbox, es[0]);
    }
  }

  lemma OutboxShrinks(queue: seq<Entry>, instance: string, outbox: seq<Envelope>)
    requires OutboxOk(queue, instance, outbox) && outbox != []
    ensures OutboxOk(queue, instance, outbox[1..]) && Origin(queue, instance, outbox[0])
  {
  }

  lemma SentTakes(fan: Broker.Fanout, queue: seq<Entry>, sent: seq<Packet>, e: Envelope)
    requires SentOk(fan, queue, sent) && Origin(queue, fan.instance, e) && Publish(fan, e).Some?
    ensures SentOk(fan, queue, sent + [Publish(fan, e).value])
  {
    var p := Publish(fan, e).value;
    assert Genuine(fan, queue, p);
  }

  lemma SendKeeps(n: Node, ok: bool)
    requires NodeInv(n) && n.outbox != []
    ensures NodeInv(SendOut(n, ok))
  {
    OutboxShrinks(n.queue, n.fan.instance, n.outbox);
    if Publish(n.fan, n.outbox[0]).Some? {
      SentTakes(n.fan, n.queue, n.sent, n.outbox[0]);
    }
  }

  lemma AcceptKeeps(instance: string, accepted: seq<string>, queue: seq<Entry>, id: string)
    requires IncomingOk(instance, accepted, queue) && IsNew(accepted, id)
    ensures IncomingOk(instance, accepted + [id], queue)
  {
    RememberKeepsSpaced(accepted, id);
  }

  lemma HandleKeeps(n: Node, e: Envelope, full: bool)
    requires NodeInv(n)
    ensures NodeInv(HandleRemote(n, e, full))
  {
    if e.origin != n.fan.instance && IsNew(n.accepted, e.eventID) {
      AcceptKeeps(n.fan.instance, n.accepted, n.queue, e.eventID);
      QueueGrows(n, Remote(e, |n.accepted|));
    }
  }

  // ---------------------------------------------------------------- what the system keeps

  /** Someone in the same namespace published the message. */
  ghost predicate Author(nodes: seq<Node>, o: nat, namespace: string, e: Envelope)
    requires o < |nodes|
  {
    nodes[o].fan.namespace == namespace && nodes[o].fan.instance == e.origin && Origin(nodes[o].queue, e.origin, e)
  }

  ghost predicate Authentic(nodes: seq<Node>, namespace: string, e: Envelope)
  {
    exists o :: 0 <= o < |nodes| && Author(nodes, o, namespace, e)
  }

  ghost predicate AllAuthentic(nodes: seq<Node>, i: nat)
    requires i < |nodes|
  {
    forall k :: 0 <= k < |nodes[i].queue| && nodes[i].queue[k].Remote? ==>
      Authentic(nodes, nodes[i].fan.namespace, nodes[i].queue[k].event)
  }

  ghost predicate Inv(s: System)
  {
    && (forall i :: 0 <= i < |s.nodes| ==> NodeInv(s.nodes[i]))
    && (forall i :: 0 <= i < |s.nodes| ==> AllAuthentic(s.nodes, i))
    && (forall i :: 0 <= i < |s.nodes| ==> AllIssued(s.nodes[i].accepted, s.issued))
    && IdsAreUnique(s) && ReadsBack(s.read)
  }

  /** Only ids that were drawn are ever accepted. */
  ghost predicate AllIssued(accepted: seq<string>, issued: set<string>)
  {
    forall k :: 0 <= k < |accepted| ==> accepted[k] in issued
  }

  predicate Issued(queue: seq<Entry>, issued: set<string>)
  {
    forall k :: 0 <= k < |queue| && queue[k].Local? ==> queue[k].eventID in issued
  }

  /** One event id is one publication. */
  ghost predicate IdsAreUnique(s: System)
  {
    && (forall i :: 0 <= i < |s.nodes| ==> Issued(s.nodes[i].queue, s.issued) && OwnApart(s.nodes[i].queue))
    && (forall i, j :: 0 <= i < |s.nodes| && 0 <= j < |s.nodes| && i != j ==> Apart(s.nodes[i].queue, s.nodes[j].queue))
  }

  lemma StepKeepsNodes(s: System, step: Step)
    requires Inv(s) && Enabled(s, step)
    ensures NodeInv(NodeAfter(s, step))
  {
    var n := s.nodes[step.i];
    match step
    case PublishStep(_, m, id) => PublishKeeps(n, m, id);
    case SendStep(_, ok) => SendKeeps(n, ok);
    case DeliverStep(_, source, k, full) => DeliverKeeps(s.read, n, s.nodes[source].sent[k], full);
    case DrainStep(_) =>
  }

  lemma DeliverKeeps(read: Reader, n: Node, p: Packet, full: bool)
    requires NodeInv(n)
    ensures NodeInv(Deliver(read, n, p, full))
  {
    if Accept(read, n.fan, p).Some? {
      HandleKeeps(n, Accept(read, n.fan, p).value, full);
    }
  }

  // ---------------------------------------------------------------- where remote messages come from

  /** Delivering a packet of instance `source` hands on the event it was sent with, if the namespaces
      agree, and nothing otherwise. */
  lemma DeliveredEvent(read: Reader, n: Node, source: Node, k: nat) returns (e: Envelope)
    requires ReadsBack(read) && Configured(n.fan) && Configured(source.fan) && k < |source.sent| && SentOk(source.fan, source.queue, source.sent)
    ensures Origin(source.queue, source.fan.instance, e) && e.origin == source.fan.instance
    ensures Publish(source.fan, e) == Some(source.sent[k])
    ensures Accept(read, n.fan, source.sent[k]) == if n.fan.namespace == source.fan.namespace then Some(e) else None
  {
    assert Genuine(source.fan, source.queue, source.sent[k]);
    e :| Publish(source.fan, e) == Some(source.sent[k]) && Origin(source.queue, source.fan.instance, e);
    AcceptedExactlyInNamespace(read, source.fan, n.fan, e);
  }

  lemma AuthorGrows(nodes: seq<Node>, i: nat, n: Node, o: nat, namespace: string, e: Envelope)
    requires i < |nodes| && o < |nodes| && Author(nodes, o, namespace, e)
    requires n.fan == nodes[i].fan && (n.queue == nodes[i].queue || exists x :: n.queue == nodes[i].queue + [x])
    ensures Author(nodes[i := n], o, namespace, e)
  {
    if o == i && n.queue != nodes[i].queue {
      var x :| n.queue == nodes[i].queue + [x];
      OriginGrows(nodes[i].queue, x, e.origin, e);
    }
  }

  lemma AuthenticGrows(nodes: seq<Node>, i: nat, n: Node, namespace: string, e: Envelope)
    requires i < |nodes| && Authentic(nodes, namespace, e)
    requires n.fan == nodes[i].fan && (n.queue == nodes[i].queue || exists x :: n.queue == nodes[i].queue + [x])
    ensures Authentic(nodes[i := n], namespace, e)
  {
    var o :| 0 <= o < |nodes| && Author(nodes, o, namespace, e);
    AuthorGrows(nodes, i, n, o, namespace, e);
  }

  /** What a step adds to the log of the instance that takes it. */
  lemma StepLogs(s: System, step: Step) returns (added: seq<Entry>)
    requires Inv(s) && Enabled(s, step)
    ensures var (n, t) := (s.nodes[step.i], NodeAfter(s, step));
            && |added| <= 1 && t.queue == n.queue + added && t.fan == n.fan
            && (step.PublishStep? ==> added == [Local(step.message, step.eventID)])
            && (!step.PublishStep? && added != [] ==>
                  added[0].Remote? && Authentic(s.nodes, n.fan.namespace, added[0].event))
  {
    var n := s.nodes[step.i];
    added := [];
    match step
    case PublishStep(_, m, id) =>
      added := [Local(m, id)];
    case DeliverStep(i, source, k, full) =>
      added := DeliverLogs(s, i, source, k, full);
    case _ =>
      assert n.queue + [] == n.queue;
  }

  lemma DeliverLogs(s: System, i: nat, source: nat, k: nat, full: bool) returns (added: seq<Entry>)
    requires Inv(s) && i < |s.nodes| && source < |s.nodes| && k < |s.nodes[source].sent|
    ensures var (n, t) := (s.nodes[i], Deliver(s.read, s.nodes[i], s.nodes[source].sent[k], full));
            && |added| <= 1 && t.queue == n.queue + added && t.fan == n.fan
            && (added != [] ==> added[0].Remote? && Authentic(s.nodes, n.fan.namespace, added[0].event))
  {
    var n := s.nodes[i];
    var e := DeliveredEvent(s.read, n, s.nodes[source], k);
    var t := Deliver(s.read, n, s.nodes[source].sent[k], full);
    assert n.queue + [] == n.queue;
    if t.queue == n.queue {
      added := [];
    } else {
      added := [Remote(e, |n.accepted|)];
      assert Author(s.nodes, source, n.fan.namespace, e);
    }
  }

  /** One instance logs at most one entry. */
  ghost predicate Logs(nodes: seq<Node>, i: nat, t: Node, added: seq<Entry>)
  {
    i < |nodes| && |added| <= 1 && t.queue == nodes[i].queue + added && t.fan == nodes[i].fan
  }

  lemma OthersStayAuthentic(nodes: seq<Node>, i: nat, t: Node, added: seq<Entry>, j: nat)
    requires Logs(nodes, i, t, added) && j < |nodes| && j != i && AllAuthentic(nodes, j)
    ensures AllAuthentic(nodes[i := t], j)
  {
    assert added != [] ==> t.queue == nodes[i].queue + [added[0]];
    assert added == [] ==> t.queue == nodes[i].queue;
    forall k | 0 <= k < |nodes[j].queue| && nodes[j].queue[k].Remote?
      ensures Authentic(nodes[i := t], nodes[j].fan.namespace, nodes[j].queue[k].event)
    {
      AuthenticGrows(nodes, i, t, nodes[j].fan.namespace, nodes[j].queue[k].event);
    }
  }

  lemma LoggerStaysAuthentic(nodes: seq<Node>, i: nat, t: Node, added: seq<Entry>)
    requires Logs(nodes, i, t, added) && AllAuthentic(nodes, i)
    requires added != [] && added[0].Remote? ==> Authentic(nodes, nodes[i].fan.namespace, added[0].event)
    ensures AllAuthentic(nodes[i := t], i)
  {
    assert added != [] ==> t.queue == nodes[i].queue + [added[0]];
    assert added == [] ==> t.queue == nodes[i].queue;
    forall k | 0 <= k < |t.queue| && t.queue[k].Remote?
      ensures Authentic(nodes[i := t], t.fan.namespace, t.queue[k].event)
    {
      assert k < |nodes[i].queue| ==> t.queue[k] == nodes[i].queue[k];
      AuthenticGrows(nodes, i, t, t.fan.namespace, t.queue[k].event);
    }
  }

  /** No two of these entries are publications with the same id. */
  ghost predicate Apart(a: seq<Entry>, b: seq<Entry>)
  {
    forall k, l :: 0 <= k < |a| && 0 <= l < |b| && a[k].Local? && b[l].Local? ==> a[k].eventID != b[l].eventID
  }

  ghost predicate OwnApart(a: seq<Entry>)
  {
    forall k, l :: 0 <= k < l < |a| && a[k].Local? && a[l].Local? ==> a[k].eventID != a[l].eventID
  }

  lemma IdsLog(a: seq<Entry>, added: seq<Entry>, issued: set<string>, after: set<string>)
    requires |added| <= 1 && Issued(a, issued) && OwnApart(a) && issued <= after
    requires added != [] && added[0].Local? ==> added[0].eventID !in issued && added[0].eventID in after
    ensures Issued(a + added, after) && OwnApart(a + added)
  {
  }

  lemma IdsOthers(a: seq<Entry>, added: seq<Entry>, b: seq<Entry>, issued: set<string>)
    requires |added| <= 1 && Issued(b, issued) && Apart(a, b)
    requires added != [] && added[0].Local? ==> added[0].eventID !in issued
    ensures Apart(a + added, b) && (Apart(b, a) ==> Apart(b, a + added))
  {
  }

  lemma IdsStep(s: System, i: nat, t: Node, added: seq<Entry>, after: set<string>)
    requires IdsAreUnique(s) && Logs(s.nodes, i, t, added) && s.issued <= after
    requires added != [] && added[0].Local? ==> added[0].eventID !in s.issued && added[0].eventID in after
    ensures IdsAreUnique(System(s.read, s.nodes[i := t], after))
  {
    IdsLog(s.nodes[i].queue, added, s.issued, after);
    forall j | 0 <= j < |s.nodes| && j != i ensures Apart(t.queue, s.nodes[j].queue) && Apart(s.nodes[j].queue, t.queue) {
      IdsOthers(s.nodes[i].queue, added, s.nodes[j].queue, s.issued);
    }
  }

  lemma AllStayAuthentic(s: System, i: nat, t: Node, added: seq<Entry>, nodes: seq<Node>)
    requires Inv(s) && Logs(s.nodes, i, t, added) && nodes == s.nodes[i := t]
    requires added != [] && added[0].Remote? ==> Authentic(s.nodes, s.nodes[i].fan.namespace, added[0].event)
    ensures forall j :: 0 <= j < |nodes| ==> AllAuthentic(nodes, j)
  {
    LoggerStaysAuthentic(s.nodes, i, t, added);
    forall j | 0 <= j < |nodes| ensures AllAuthentic(nodes, j) {
      if j != i {
        OthersStayAuthentic(s.nodes, i, t, added, j);
      }
    }
  }

  /** What a step accepts was drawn before. */
  lemma StepAccepts(s: System, step: Step)
    requires Inv(s) && Enabled(s, step)
    ensures AllIssued(NodeAfter(s, step).accepted, s.issued)
  {
    assert AllIssued(s.nodes[step.i].accepted, s.issued);
    if step.DeliverStep? {
      DeliverAccepts(s, step.i, step.source, step.k, step.full);
    }
  }

  lemma DeliverAccepts(s: System, i: nat, source: nat, k: nat, full: bool)
    requires Inv(s) && i < |s.nodes| && source < |s.nodes| && k < |s.nodes[source].sent|
    ensures AllIssued(Deliver(s.read, s.nodes[i], s.nodes[source].sent[k], full).accepted, s.issued)
  {
    var e := DeliveredEvent(s.read, s.nodes[i], s.nodes[source], k);
    OriginIsIssued(s.nodes[source].queue, s.nodes[source].fan.instance, e, s.issued);
    DeliverAdds(s.read, s.nodes[i], s.nodes[source].sent[k], full, e);
  }

  lemma OriginIsIssued(queue: seq<Entry>, instance: string, e: Envelope, issued: set<string>)
    requires Origin(queue, instance, e) && Issued(queue, issued)
    ensures e.eventID in issued
  {
  }

  lemma DeliverAdds(read: Reader, n: Node, p: Packet, full: bool, e: Envelope)
    requires Accept(read, n.fan, p) == None || Accept(read, n.fan, p) == Some(e)
    ensures var t := Deliver(read, n, p, full); t.accepted == n.accepted || t.accepted == n.accepted + [e.eventID]
  {
  }

  lemma Assemble(s: System, i: nat, t: Node, added: seq<Entry>, u: System)
    requires Inv(s) && NodeInv(t) && Logs(s.nodes, i, t, added) && AllIssued(t.accepted, s.issued)
    requires u.read == s.read && u.nodes == s.nodes[i := t] && s.issued <= u.issued
    requires added != [] ==>
               match added[0]
               case Local(_, id) => id !in s.issued && id in u.issued
               case Remote(e, _) => Authentic(s.nodes, s.nodes[i].fan.namespace, e)
    ensures Inv(u)
  {
    IdsStep(s, i, t, added, u.issued);
    AllStayAuthentic(s, i, t, added, u.nodes);
  }

  lemma StepKeepsInv(s: System, step: Step)
    requires Inv(s) && Enabled(s, step)
    ensures Inv(Next(s, step))
  {
    var added := StepLogs(s, step);
    StepKeepsNodes(s, step);
    StepAccepts(s, step);
    Assemble(s, step.i, NodeAfter(s, step), added, Next(s, step));
  }

  lemma {:induction false} RunKeepsInv(s: System, run: seq<Step>)
    requires Inv(s) && After(s, run).Some?
    ensures Inv(After(s, run).value)
    decreases |run|
  {
    if run != [] {
      RunKeepsInv(s, run[..|run| - 1]);
      StepKeepsInv(After(s, run[..|run| - 1]).value, run[|run| - 1]);
    }
  }

  lemma InitialInv(s: System)
    requires Initial(s)
    ensures Inv(s)
  {
    forall i | 0 <= i < |s.nodes| ensures NodeInv(s.nodes[i]) {
      assert Fresh(s.nodes[i]);
    }
  }

  lemma ReachableInv(s: System, run: seq<Step>)
    requires Initial(s) && After(s, run).Some?
    ensures Inv(After(s, run).value)
  {
    InitialInv(s);
    RunKeepsInv(s, run);
  }

  // ---------------------------------------------------------------- the guarantees over whole runs

  /** An instance never queues an event of its own again, and what it does queue was published as that very
      message, by another instance of its own namespace, exactly once. */
  lemma RemoteIsAnothersMessage(s: System, run: seq<Step>, i: nat, k: nat) returns (o: nat, l: nat)
    requires Initial(s) && After(s, run).Some? && i < |s.nodes|
    requires var nodes := After(s, run).value.nodes; i < |nodes| && k < |nodes[i].queue| && nodes[i].queue[k].Remote?
    ensures var nodes := After(s, run).value.nodes; var e := nodes[i].queue[k].event;
            && o < |nodes| && o != i && nodes[o].fan.namespace == nodes[i].fan.namespace
            && e.origin == nodes[o].fan.instance && e.origin != nodes[i].fan.instance
            && l < |nodes[o].queue| && nodes[o].queue[l] == Local(ToMessage(e), e.eventID)
    ensures var nodes := After(s, run).value.nodes; var e := nodes[i].queue[k].event;
            forall j, h :: 0 <= j < |nodes| && 0 <= h < |nodes[j].queue| && nodes[j].queue[h].Local? ==>
              nodes[j].queue[h].eventID == e.eventID ==> j == o && h == l
  {
    ReachableInv(s, run);
    o, l := AuthorOf(After(s, run).value, i, k);
    OnlyPublication(After(s, run).value, o, l);
  }

  lemma AuthorOf(s: System, i: nat, k: nat) returns (o: nat, l: nat)
    requires Inv(s) && i < |s.nodes| && k < |s.nodes[i].queue| && s.nodes[i].queue[k].Remote?
    ensures var (nodes, e) := (s.nodes, s.nodes[i].queue[k].event);
            && o < |nodes| && o != i && nodes[o].fan.namespace == nodes[i].fan.namespace
            && e.origin == nodes[o].fan.instance && e.origin != nodes[i].fan.instance
            && l < |nodes[o].queue| && nodes[o].queue[l] == Local(ToMessage(e), e.eventID)
  {
    var n := s.nodes[i];
    assert RemoteOk(n.queue[k], n.fan.instance, n.accepted);
    var e := n.queue[k].event;
    assert AllAuthentic(s.nodes, i);
    o :| 0 <= o < |s.nodes| && Author(s.nodes, o, n.fan.namespace, e);
    l :| 0 <= l < |s.nodes[o].queue| && IsEventOf(s.nodes[o].queue[l], e.origin, e);
  }

  lemma OnlyPublication(s: System, o: nat, l: nat)
    requires IdsAreUnique(s) && o < |s.nodes| && l < |s.nodes[o].queue| && s.nodes[o].queue[l].Local?
    ensures forall j, h :: 0 <= j < |s.nodes| && 0 <= h < |s.nodes[j].queue| && s.nodes[j].queue[h].Local? ==>
              s.nodes[j].queue[h].eventID == s.nodes[o].queue[l].eventID ==> j == o && h == l
  {
    forall j, h | 0 <= j < |s.nodes| && 0 <= h < |s.nodes[j].queue| && s.nodes[j].queue[h].Local?
      && s.nodes[j].queue[h].eventID == s.nodes[o].queue[l].eventID
      ensures j == o && h == l
    {
      assert j != o ==> Apart(s.nodes[j].queue, s.nodes[o].queue);
      assert OwnApart(s.nodes[o].queue);
    }
  }

  /** Whatever the broker duplicates or reorders, an instance queues an event a second time only after it has
      accepted at least 4096 other events in between. */
  lemma AtMostOnceInTheWindow(s: System, run: seq<Step>, i: nat, k: nat, l: nat)
    requires Initial(s) && After(s, run).Some? && i < |After(s, run).value.nodes|
    requires var n := After(s, run).value.nodes[i];
             && k < l < |n.queue| && n.queue[k].Remote? && n.queue[l].Remote?
             && n.queue[k].event.eventID == n.queue[l].event.eventID
    ensures var n := After(s, run).value.nodes[i];
            && n.queue[k].at + 4096 < n.queue[l].at < |n.accepted|
            && n.accepted[n.queue[k].at] == n.accepted[n.queue[l].at] == n.queue[k].event.eventID
  {
    ReachableInv(s, run);
    var n := After(s, run).value.nodes[i];
    assert NodeInv(n);
    assert RemoteOk(n.queue[k], n.fan.instance, n.accepted) && RemoteOk(n.queue[l], n.fan.instance, n.accepted);
  }

  /** The messages of its own that an instance has published. */
  lemma {:induction false} LocalCountIs(queue: seq<Entry>)
    ensures LocalCount(queue) == |set k | 0 <= k < |queue| && queue[k].Local?|
    decreases |queue|
  {
    var mine := set k | 0 <= k < |queue| && queue[k].Local?;
    if queue == [] {
      assert mine == {};
    } else {
      var front, n := queue[..|queue| - 1], |queue| - 1;
      LocalCountIs(front);
      var rest := set k | 0 <= k < |front| && front[k].Local?;
      assert mine == rest + (if queue[n].Local? then {n} else {});
      assert n !in rest;
    }
  }

  /** No instance ever hands the broker more events than it published messages itself. */
  lemma EventsNeverExceedPublications(s: System, run: seq<Step>, i: nat)
    requires Initial(s) && After(s, run).Some? && i < |After(s, run).value.nodes|
    ensures var n := After(s, run).value.nodes[i];
            |n.sent| + |n.outbox| <= LocalCount(n.queue) && |n.outbox| <= 1024
  {
    ReachableInv(s, run);
    assert NodeInv(After(s, run).value.nodes[i]);
  }

  /** A delivered copy is queued exactly when the namespaces agree, the instance ids differ, the event is not among
      the last 4096 accepted, the instance is not draining and its queue has room. */
  lemma QueuedExactlyWhen(read: Reader, n: Node, source: Node, k: nat, full: bool) returns (e: Envelope)
    requires ReadsBack(read) && NodeInv(n) && NodeInv(source) && k < |source.sent|
    ensures Publish(source.fan, e) == Some(source.sent[k])
    ensures var t := Deliver(read, n, source.sent[k], full);
            t.queue == if n.fan.namespace == source.fan.namespace && n.fan.instance != source.fan.instance
                          && IsNew(n.accepted, e.eventID) && !n.draining && !full
                       then n.queue + [Remote(e, |n.accepted|)] else n.queue
    ensures var t := Deliver(read, n, source.sent[k], full);
            t.accepted == if n.fan.namespace == source.fan.namespace && n.fan.instance != source.fan.instance && IsNew(n.accepted, e.eventID)
                          then n.accepted + [e.eventID] else n.accepted
  {
    e := DeliveredEvent(read, n, source, k);
    HeardIfSameNamespace(n, source, e, source.sent[k]);
    DeliverIs(read, n, source.sent[k], e, full, n.fan.namespace == source.fan.namespace);
  }

  lemma DeliverIs(read: Reader, n: Node, p: Packet, e: Envelope, full: bool, same: bool)
    requires Accept(read, n.fan, p) == (if same then Some(e) else None) && Hears(n.fan.namespace, Some(p.channel)) == same
    ensures Deliver(read, n, p, full) == if same then HandleRemote(n, e, full) else n
  {
  }

  lemma HeardIfSameNamespace(n: Node, source: Node, e: Envelope, p: Packet)
    requires Configured(n.fan) && Configured(source.fan) && Publish(source.fan, e) == Some(p)
    ensures Hears(n.fan.namespace, Some(p.channel)) <==> n.fan.namespace == source.fan.namespace
  {
    PublishedPacket(source.fan, e);
    ValidExactlyWhen(e);
    HearsExactlyItsNamespace(n.fan.namespace, source.fan.namespace, e.room);
  }

  // ---------------------------------------------------------------- messages do get across

  lemma AfterPush(s: System, run: seq<Step>, step: Step)
    requires After(s, run).Some? && Enabled(After(s, run).value, step)
    ensures After(s, run + [step]) == Some(Next(After(s, run).value, step))
  {
    IteratePush(TryStep, s, run, step);
  }

  lemma EventFor(n: Node, m: Message, eventID: string, e: Envelope)
    requires |n.outbox| < PUBLISH_QUEUE_SIZE && Frames.Durable(m)
    requires New(eventID, m.room, n.fan.instance, Payload(m.id, m.userID, m.username, m.content, m.kind), m.timestamp) == Ok(e)
    ensures PublishLocal(n, m, eventID) == n.(queue := n.queue + [Local(m, eventID)], outbox := n.outbox + [e])
  {
  }

  /** Publishing puts the event behind what waits in the outbox. */
  lemma Published(read: Reader, n: Node, m: Message, eventID: string, e: Envelope) returns (p: Packet)
    requires ReadsBack(read) && Configured(n.fan) && |n.outbox| < PUBLISH_QUEUE_SIZE
    requires ValidEventID(eventID) && Sendable(m) && Clock.Printable(m.timestamp) && m.id < INT64_LIMIT
    requires e == ToEvent(m, eventID, n.fan.instance)
    ensures Publish(n.fan, e) == Some(p)
    ensures PublishLocal(n, m, eventID) == n.(queue := n.queue + [Local(m, eventID)], outbox := n.outbox + [e])
  {
    SendableArrives(read, n.fan, n.fan, m, eventID);
    p := Publish(n.fan, e).value;
    EventFor(n, m, eventID, e);
  }

  /** `t` is `s` but for the outgoing side of instance `i`. */
  ghost predicate OnlySends(s: System, t: System, i: nat)
    requires i < |s.nodes|
  {
    && t.read == s.read && t.issued == s.issued && |t.nodes| == |s.nodes|
    && (forall j :: 0 <= j < |s.nodes| && j != i ==> t.nodes[j] == s.nodes[j])
    && t.nodes[i] == s.nodes[i].(outbox := t.nodes[i].outbox, sent := t.nodes[i].sent)
  }

  /** The event is the last to be sent, or the last sent. */
  ghost predicate LastOut(n: Node, e: Envelope, p: Packet)
  {
    if n.outbox != [] then n.outbox[|n.outbox| - 1] == e else n.sent != [] && n.sent[|n.sent| - 1] == p
  }

  lemma SendOne(n: Node, e: Envelope, p: Packet)
    requires n.outbox != [] && LastOut(n, e, p) && Publish(n.fan, e) == Some(p)
    ensures var t := SendOut(n, true);
            t == n.(outbox := n.outbox[1..], sent := t.sent) && LastOut(t, e, p) && |t.outbox| < |n.outbox|
  {
  }

  lemma SendNext(s: System, u: System, i: nat)
    requires i < |s.nodes| && OnlySends(s, u, i) && u.nodes[i].outbox != []
    requires var n := u.nodes[i]; SendOut(n, true) == n.(outbox := n.outbox[1..], sent := SendOut(n, true).sent)
    ensures Enabled(u, SendStep(i, true)) && OnlySends(s, Next(u, SendStep(i, true)), i)
    ensures Next(u, SendStep(i, true)).nodes[i] == SendOut(u.nodes[i], true)
  {
  }

  lemma SendKeepsLast(s: System, u: System, i: nat, e: Envelope, p: Packet)
    requires i < |s.nodes| && OnlySends(s, u, i) && u.nodes[i].outbox != [] && LastOut(u.nodes[i], e, p)
    requires Publish(s.nodes[i].fan, e) == Some(p)
    ensures Enabled(u, SendStep(i, true))
    ensures var t := Next(u, SendStep(i, true));
            OnlySends(s, t, i) && LastOut(t.nodes[i], e, p) && |t.nodes[i].outbox| < |u.nodes[i].outbox|
  {
    SendOne(u.nodes[i], e, p);
    SendNext(s, u, i);
  }

  /** The publisher works off the backlog; the last packet sent is then that of the last event. */
  lemma Flush(s: System, run0: seq<Step>, start: System, i: nat, e: Envelope, p: Packet) returns (run: seq<Step>, t: System)
    requires After(s, run0) == Some(start) && i < |start.nodes|
    requires start.nodes[i].outbox != [] && LastOut(start.nodes[i], e, p) && Publish(start.nodes[i].fan, e) == Some(p)
    ensures After(s, run) == Some(t) && OnlySends(start, t, i) && t.nodes[i].outbox == [] && LastOut(t.nodes[i], e, p)
  {
    run, t := run0, start;
    while t.nodes[i].outbox != []
      invariant After(s, run) == Some(t) && OnlySends(start, t, i) && LastOut(t.nodes[i], e, p)
      decreases |t.nodes[i].outbox|
    {
      SendKeepsLast(start, t, i, e, p);
      AfterPush(s, run, SendStep(i, true));
      run, t := run + [SendStep(i, true)], Next(t, SendStep(i, true));
    }
  }

  /** Another instance of the namespace that takes messages. */
  predicate Listening(s: System, i: nat, j: nat)
    requires i < |s.nodes| && j < |s.nodes|
  {
    && s.nodes[j].fan.namespace == s.nodes[i].fan.namespace && s.nodes[j].fan.instance != s.nodes[i].fan.instance
    && !s.nodes[j].draining
  }

  lemma HandledAsNew(n: Node, e: Envelope)
    requires n.fan.instance != e.origin && IsNew(n.accepted, e.eventID) && !n.draining
    ensures HandleRemote(n, e, false).queue == n.queue + [Remote(e, |n.accepted|)]
    ensures HandleRemote(n, e, false).sent == n.sent && HandleRemote(n, e, false).fan == n.fan
  {
  }

  lemma DeliveredTo(read: Reader, n: Node, source: Node, e: Envelope, p: Packet)
    requires ReadsBack(read) && Configured(n.fan) && Configured(source.fan)
    requires Publish(source.fan, e) == Some(p) && e.message.id < INT64_LIMIT && n.fan.namespace == source.fan.namespace
    ensures Deliver(read, n, p, false) == HandleRemote(n, e, false)
  {
    AcceptedExactlyInNamespace(read, source.fan, n.fan, e);
    HeardIfSameNamespace(n, source, e, p);
    DeliverIs(read, n, p, e, false, true);
  }

  /** What is ready to be delivered: the event lies with instance `i`, nobody has accepted it. */
  ghost predicate Ready(s: System, i: nat, k: nat, e: Envelope)
  {
    ReadsBack(s.read) && i < |s.nodes| && Lies(s.nodes[i], k, e) && Unaccepted(s.nodes, e.eventID)
  }

  ghost predicate Lies(n: Node, k: nat, e: Envelope)
  {
    k < |n.sent| && Publish(n.fan, e) == Some(n.sent[k]) && e.message.id < INT64_LIMIT && e.origin == n.fan.instance
  }

  ghost predicate Unaccepted(nodes: seq<Node>, eventID: string)
  {
    forall j :: 0 <= j < |nodes| ==> Configured(nodes[j].fan) && eventID !in nodes[j].accepted
  }

  lemma NotAcceptedIsNew(accepted: seq<string>, id: string)
    requires id !in accepted
    ensures IsNew(accepted, id)
  {
  }

  lemma DeliverOne(s: System, i: nat, k: nat, e: Envelope, j: nat)
    requires Ready(s, i, k, e) && j < |s.nodes| && Listening(s, i, j)
    ensures Enabled(s, DeliverStep(j, i, k, false))
    ensures var n := NodeAfter(s, DeliverStep(j, i, k, false));
            n.queue == s.nodes[j].queue + [Remote(e, |s.nodes[j].accepted|)] && n.sent == s.nodes[j].sent && n.fan == s.nodes[j].fan
  {
    NotAcceptedIsNew(s.nodes[j].accepted, e.eventID);
    DeliveredTo(s.read, s.nodes[j], s.nodes[i], e, s.nodes[i].sent[k]);
    HandledAsNew(s.nodes[j], e);
  }

  /** How far the delivery has come: the first `m` instances have the event if they listen, the rest are untouched. */
  ghost predicate DeliveredUpTo(u: System, t: System, i: nat, e: Envelope, m: nat)
    requires i < |u.nodes|
  {
    && t.read == u.read && |t.nodes| == |u.nodes| && t.nodes[i] == u.nodes[i]
    && (forall j :: m <= j < |u.nodes| ==> t.nodes[j] == u.nodes[j])
    && (forall j :: 0 <= j < |u.nodes| && j < m ==>
          t.nodes[j].queue == if Listening(u, i, j) then u.nodes[j].queue + [Remote(e, |u.nodes[j].accepted|)] else u.nodes[j].queue)
  }

  lemma DeliverNext(u: System, t: System, i: nat, k: nat, e: Envelope, m: nat)
    requires Ready(u, i, k, e) && DeliveredUpTo(u, t, i, e, m) && m < |u.nodes| && Listening(u, i, m)
    ensures Enabled(t, DeliverStep(m, i, k, false))
    ensures DeliveredUpTo(u, Next(t, DeliverStep(m, i, k, false)), i, e, m + 1)
  {
    DeliverOne(u, i, k, e, m);
    assert NodeAfter(t, DeliverStep(m, i, k, false)) == NodeAfter(u, DeliverStep(m, i, k, false));
    DeliveredReplaced(u, t, i, e, m, NodeAfter(u, DeliverStep(m, i, k, false)), Next(t, DeliverStep(m, i, k, false)));
  }

  lemma DeliveredReplaced(u: System, t: System, i: nat, e: Envelope, m: nat, n: Node, next: System)
    requires i < |u.nodes| && DeliveredUpTo(u, t, i, e, m) && m < |u.nodes| && Listening(u, i, m)
    requires n.queue == u.nodes[m].queue + [Remote(e, |u.nodes[m].accepted|)]
    requires next.read == t.read && next.nodes == t.nodes[m := n]
    ensures DeliveredUpTo(u, next, i, e, m + 1)
  {
  }

  lemma DeliverPush(s: System, run: seq<Step>, u: System, t: System, i: nat, k: nat, e: Envelope, m: nat) returns (t': System)
    requires After(s, run) == Some(t) && Ready(u, i, k, e) && DeliveredUpTo(u, t, i, e, m) && m < |u.nodes| && Listening(u, i, m)
    ensures After(s, run + [DeliverStep(m, i, k, false)]) == Some(t') && DeliveredUpTo(u, t', i, e, m + 1)
  {
    DeliverNext(u, t, i, k, e, m);
    AfterPush(s, run, DeliverStep(m, i, k, false));
    t' := Next(t, DeliverStep(m, i, k, false));
  }

  lemma DeliverSkip(u: System, t: System, i: nat, e: Envelope, m: nat)
    requires i < |u.nodes| && DeliveredUpTo(u, t, i, e, m) && m < |u.nodes| && !Listening(u, i, m)
    ensures DeliveredUpTo(u, t, i, e, m + 1)
  {
  }

  lemma NothingDelivered(u: System, i: nat, e: Envelope)
    requires i < |u.nodes|
    ensures DeliveredUpTo(u, u, i, e, 0)
  {
  }

  lemma {:induction false} DeliverFrom(s: System, run0: seq<Step>, u: System, t0: System, i: nat, k: nat, e: Envelope, m: nat)
    returns (run: seq<Step>, t: System)
    requires After(s, run0) == Some(t0) && Ready(u, i, k, e) && m <= |u.nodes| && DeliveredUpTo(u, t0, i, e, m)
    ensures After(s, run) == Some(t) && DeliveredUpTo(u, t, i, e, |u.nodes|)
    decreases |u.nodes| - m
  {
    if m == |u.nodes| {
      run, t := run0, t0;
    } else if Listening(u, i, m) {
      var t1 := DeliverPush(s, run0, u, t0, i, k, e, m);
      run, t := DeliverFrom(s, run0 + [DeliverStep(m, i, k, false)], u, t1, i, k, e, m + 1);
    } else {
      DeliverSkip(u, t0, i, e, m);
      run, t := DeliverFrom(s, run0, u, t0, i, k, e, m + 1);
    }
  }

  lemma NothingAcceptedYet(s: System, eventID: string)
    requires Inv(s) && eventID !in s.issued
    ensures Unaccepted(s.nodes, eventID)
  {
    forall j | 0 <= j < |s.nodes| ensures Configured(s.nodes[j].fan) && eventID !in s.nodes[j].accepted {
      assert NodeInv(s.nodes[j]) && AllIssued(s.nodes[j].accepted, s.issued);
    }
  }

  /** Every listening instance has the event queued behind what it had. */
  ghost predicate AllGot(s: System, t: System, i: nat, e: Envelope)
    requires i < |s.nodes|
  {
    && |t.nodes| == |s.nodes|
    && forall j :: 0 <= j < |s.nodes| && Listening(s, i, j) ==>
         t.nodes[j].queue == s.nodes[j].queue + [Remote(e, |s.nodes[j].accepted|)]
  }

  ghost predicate CanPublish(s: System, i: nat, m: Message, eventID: string)
  {
    && i < |s.nodes| && |s.nodes[i].outbox| < 1024 && Sendable(m) && Clock.Printable(m.timestamp)
    && m.id < INT64_LIMIT && ValidEventID(eventID) && eventID !in s.issued
  }

  /** When the broker loses nothing, a durable message gets to everybody: from every reachable state in which the
      instance's outbox is not full there is one run after which every other instance of the namespace that is not
      draining has queued it, unchanged, once, behind what it had. */
  lemma MessageGetsAcross(s: System, i: nat, m: Message, eventID: string) returns (run: seq<Step>, t: System)
    requires Inv(s) && CanPublish(s, i, m, eventID)
    ensures After(s, run) == Some(t)
    ensures var e := ToEvent(m, eventID, s.nodes[i].fan.instance); ToMessage(e) == m && AllGot(s, t, i, e)
  {
    NothingAcceptedYet(s, eventID);
    run, t := GetsAcross(s, i, m, eventID, ToEvent(m, eventID, s.nodes[i].fan.instance));
  }

  lemma GetsAcross(s: System, i: nat, m: Message, eventID: string, e: Envelope) returns (run: seq<Step>, t: System)
    requires ReadsBack(s.read) && Unaccepted(s.nodes, eventID) && CanPublish(s, i, m, eventID)
    requires e == ToEvent(m, eventID, s.nodes[i].fan.instance)
    ensures After(s, run) == Some(t) && AllGot(s, t, i, e)
  {
    var run1, u, k := PublishedAndSent(s, i, m, eventID, e);
    run, t := Spread(s, run1, u, i, k, e);
  }

  /** Publishing and working off the backlog leave the event with the broker and all other instances as they were. */
  lemma PublishedAndSent(s: System, i: nat, m: Message, eventID: string, e: Envelope)
    returns (run: seq<Step>, u: System, k: nat)
    requires ReadsBack(s.read) && Unaccepted(s.nodes, eventID) && CanPublish(s, i, m, eventID)
    requires e == ToEvent(m, eventID, s.nodes[i].fan.instance)
    ensures After(s, run) == Some(u) && Ready(u, i, k, e) && OthersSame(s, u, i)
  {
    var p := Published(s.read, s.nodes[i], m, eventID, e);
    var run1, start := PublishFirst(s, i, m, eventID, e, p);
    run, u := Flush(s, run1, start, i, e, p);
    k := FlushedIsReady(s, start, u, i, m, eventID, e, p);
  }

  ghost predicate OthersSame(s: System, u: System, i: nat)
  {
    && |u.nodes| == |s.nodes| && i < |s.nodes| && u.nodes[i].fan == s.nodes[i].fan
    && forall j :: 0 <= j < |s.nodes| && j != i ==> u.nodes[j] == s.nodes[j]
  }

  lemma Spread(s: System, run0: seq<Step>, u: System, i: nat, k: nat, e: Envelope) returns (run: seq<Step>, t: System)
    requires After(s, run0) == Some(u) && Ready(u, i, k, e) && OthersSame(s, u, i)
    ensures After(s, run) == Some(t) && AllGot(s, t, i, e)
  {
    NothingDelivered(u, i, e);
    run, t := DeliverFrom(s, run0, u, u, i, k, e, 0);
    AllHaveIt(s, u, t, i, e);
  }

  lemma AllHaveIt(s: System, u: System, t: System, i: nat, e: Envelope)
    requires OthersSame(s, u, i) && DeliveredUpTo(u, t, i, e, |u.nodes|)
    ensures AllGot(s, t, i, e)
  {
  }

  /** `t` is `s` but for what instance `i` published. */
  ghost predicate OnlyPublished(s: System, t: System, i: nat, m: Message, eventID: string, e: Envelope)
    requires i < |s.nodes|
  {
    && t.read == s.read && |t.nodes| == |s.nodes| && (forall j :: 0 <= j < |s.nodes| && j != i ==> t.nodes[j] == s.nodes[j])
    && t.nodes[i] == s.nodes[i].(queue := s.nodes[i].queue + [Local(m, eventID)], outbox := s.nodes[i].outbox + [e])
  }

  lemma PublishFirst(s: System, i: nat, m: Message, eventID: string, e: Envelope, p: Packet) returns (run: seq<Step>, start: System)
    requires i < |s.nodes| && Enabled(s, PublishStep(i, m, eventID))
    requires PublishLocal(s.nodes[i], m, eventID)
          == s.nodes[i].(queue := s.nodes[i].queue + [Local(m, eventID)], outbox := s.nodes[i].outbox + [e])
    ensures After(s, run) == Some(start) && OnlyPublished(s, start, i, m, eventID, e)
  {
    AfterPush(s, [], PublishStep(i, m, eventID));
    run, start := [] + [PublishStep(i, m, eventID)], Next(s, PublishStep(i, m, eventID));
  }

  lemma FlushedSender(s: System, start: System, u: System, i: nat, m: Message, eventID: string, e: Envelope)
    requires i < |s.nodes| && OnlyPublished(s, start, i, m, eventID, e) && OnlySends(start, u, i)
    ensures u.read == s.read && OthersSame(s, u, i) && u.nodes[i].accepted == s.nodes[i].accepted
  {
  }

  lemma FlushedIsReady(s: System, start: System, u: System, i: nat, m: Message, eventID: string, e: Envelope, p: Packet)
    returns (k: nat)
    requires ReadsBack(s.read) && i < |s.nodes| && OnlyPublished(s, start, i, m, eventID, e) && OnlySends(start, u, i)
    requires u.nodes[i].outbox == [] && LastOut(u.nodes[i], e, p) && Publish(s.nodes[i].fan, e) == Some(p)
    requires e.message.id < INT64_LIMIT && e.origin == s.nodes[i].fan.instance && e.eventID == eventID
    requires Unaccepted(s.nodes, eventID)
    ensures Ready(u, i, k, e) && OthersSame(s, u, i)
  {
    FlushedSender(s, start, u, i, m, eventID, e);
    k := LiesLast(u.nodes[i], e, p);
    StillUnaccepted(s.nodes, u.nodes, i, eventID);
  }

  lemma LiesLast(n: Node, e: Envelope, p: Packet) returns (k: nat)
    requires n.outbox == [] && LastOut(n, e, p) && Publish(n.fan, e) == Some(p)
    requires e.message.id < INT64_LIMIT && e.origin == n.fan.instance
    ensures Lies(n, k, e)
  {
    k := |n.sent| - 1;
  }

  lemma StillUnaccepted(a: seq<Node>, b: seq<Node>, i: nat, eventID: string)
    requires |a| == |b| && i < |a| && Unaccepted(a, eventID) && (forall j :: 0 <= j < |a| && j != i ==> b[j] == a[j])
    requires b[i].fan == a[i].fan && b[i].accepted == a[i].accepted
    ensures Unaccepted(b, eventID)
  {
  }

  // ---------------------------------------------------------------- what is published can be sent

  predicate IsOutcome(p: Frames.Profile, inputs: seq<Frames.Input>, k: nat, m: Message)
  {
    k < |inputs| && ProperProfile(p) && Frames.OutcomeAt(p, inputs, k) == Frames.Ingested(m) && Frames.Durable(m)
  }

  ghost predicate ChatPublication(m: Message) { exists p, inputs, k :: IsOutcome(p, inputs, k, m) }

  predicate IsSavedNotice(room: string, name: string, saved: Saved, m: Message)
  {
    && CanonicalRoom(room) && saved.id > 0 && saved.timestamp != Clock.ZERO
    && (m == WithSaved(JoinNotice(room, name), Some(saved)) || m == WithSaved(LeaveNotice(room, name), Some(saved)))
  }

  /** The messages an instance publishes itself with a positive id and a time: chat messages of properly connected
      clients, and saved notices that somebody joined or left. */
  ghost predicate DurablePublication(m: Message)
  {
    ChatPublication(m) || exists room, name, saved :: IsSavedNotice(room, name, saved, m)
  }

  predicate ProperProfile(p: Frames.Profile)
  {
    CanonicalRoom(p.room) && (p.userID == "" || ValidUserID(p.userID)) && !Blank(p.username)
  }

  lemma ChatIsSendable(p: Frames.Profile, inputs: seq<Frames.Input>, k: nat)
    requires ProperProfile(p) && k < |inputs| && Frames.OutcomeAt(p, inputs, k).Ingested?
    requires Frames.Durable(Frames.OutcomeAt(p, inputs, k).message)
    ensures Sendable(Frames.OutcomeAt(p, inputs, k).message)
  {
    Frames.PublishedIsWellFormed(p, inputs, k);
    Frames.IdentityIsFixed(p, inputs[..k]);
    var name := Frames.ProfileAfter(p, inputs[..k]).username;
    if name != p.username {
      assert !IsSpace(name[0]);
    }
  }

  lemma NoticeIsSendable(room: string, content: string, saved: Saved)
    requires CanonicalRoom(room) && content != "" && saved.id > 0 && saved.timestamp != Clock.ZERO
    ensures Sendable(WithSaved(Notice(room, content), Some(saved)))
  {
    assert !IsSpace(SYSTEM[0]);
  }

  /** Everything durable that the server publishes can be sent, so `MessageGetsAcross` is about all of it. */
  lemma PublicationIsSendable(m: Message)
    requires DurablePublication(m)
    ensures Sendable(m)
  {
    if ChatPublication(m) {
      var p, inputs, k :| IsOutcome(p, inputs, k, m);
      ChatIsSendable(p, inputs, k);
    } else {
      var room, name, saved :| IsSavedNotice(room, name, saved, m);
      NoticeIsSendable(room, name + " joined the chat", saved);
      NoticeIsSendable(room, name + " left the chat", saved);
    }
  }

  // ---------------------------------------------------------------- the hub's broker side

  function MessageIn(x: Entry): Message { if x.Local? then x.message else ToMessage(x.event) }

  ghost predicate Carries(broadcast: seq<Message>, queue: seq<Entry>)
  {
    |broadcast| == |queue| && forall k :: 0 <= k < |queue| ==> broadcast[k] == MessageIn(queue[k])
  }

  class Endpoint {
    const fan: Broker.Fanout
    const seen: SeenEvents
    var draining: bool
    var broadcast: seq<Message>
    ghost var queue: seq<Entry>
    var outbox: seq<Envelope>
    var sent: seq<Packet>

    ghost predicate Valid()
      reads this, seen
    {
      seen.Valid() && Carries(broadcast, queue)
    }

    ghost function Now(): Node
      reads this, seen
    {
      Node(fan, draining, seen.accepted, queue, outbox, sent)
    }

    constructor (fan: Broker.Fanout)
      ensures Valid() && fresh(seen) && Now() == Node(fan, false, [], [], [], [])
    {
      this.fan := fan;
      seen := new SeenEvents();
      draining, broadcast, queue, outbox, sent := false, [], [], [], [];
    }

    method PublishContext(m: Message, eventID: string)
      requires Valid()
      modifies this
      ensures Valid() && Now() == PublishLocal(old(Now()), m, eventID)
    {
      broadcast, queue := broadcast + [m], queue + [Local(m, eventID)];
      QueueBrokerMessage(m, eventID);
    }

    method QueueBrokerMessage(m: Message, eventID: string)
      requires Valid()
      modifies this`outbox
      ensures Valid() && outbox == old(outbox) + EventsFor(old(Now()), m, eventID)
    {
      if m.id <= 0 || m.timestamp == Clock.ZERO {
        return;
      }
      var event := New(eventID, m.room, fan.instance, Payload(m.id, m.userID, m.username, m.content, m.kind), m.timestamp);
      if event.Err? {
        return;
      }
      if |outbox| < PUBLISH_QUEUE_SIZE {
        outbox := outbox + [event.value];
      }
    }

    /** One turn of `runBrokerPublisher`. */
    method PublishNext(ok: bool)
      requires Valid() && outbox != []
      modifies this
      ensures Valid() && Now() == SendOut(old(Now()), ok)
    {
      var event := outbox[0];
      outbox := outbox[1..];
      sent := Taken(sent, ok, Publish(fan, event));
    }

    method HandleRemoteEvent(e: Envelope, full: bool)
      requires Valid()
      modifies this, seen
      ensures Valid() && Now() == HandleRemote(old(Now()), e, full)
    {
      if e.origin == fan.instance {
        return;
      }
      var isNew := seen.RememberBrokerEvent(e.eventID);
      if !isNew || draining || full {
        return;
      }
      var m := e.message;
      broadcast := broadcast + [Message(m.id, m.userID, m.username, m.content, m.kind, e.room, e.timestamp)];
      queue := queue + [Remote(e, |old(seen.accepted)|)];
    }
  }
}
