/** Client lifetimes, the leave-notification worker and the drain protocol as one interleaving
    system (backend/hub.go, backend/client.go). A step is one mutex-protected region or one channel
    operation of one thread: a client's read loop, the hub loop, the leave worker or the drain
    coordinator. The hub loop holds the mutex from `HubLock` to `HubUnlock`, one client at a time. */
module Lifecycle {
  import opened Messages
  import opened HubRegions
  import opened Frames
  import opened Seqs
  import opened Text
  import Clock

  type Client = nat

  /** Where a client's read loop stands. `Sending` is past the region of `notifyClientFinished`
      that took the client out of `drainPending`, and not yet past the channel send. */
  datatype Phase = Refused | Reading | Unregistering | Finishing | Sending | Finished

  datatype HubLoop = Selecting | Disconnecting(c: Client) | Dequeued | Fanning(todo: set<Client>) | Stopped

  datatype Worker =
    | NotStarted
    | Waiting
    | Saving(notice: Message, sweeping: bool)
    | Announcing(notice: Message, sweeping: bool)
    | Sweeping
    | Exited

  datatype Coordinator =
    | Idle
    | StoppingBroker(open: set<Client>)
    | Closing(open: set<Client>)
    | Receiving
    | Stopping(forced: bool)
    | Done(forced: bool)
    | AwaitingLeave(forced: bool)
    | LeaveSettled(forced: bool, failed: bool)
    | Returned(ok: bool)

  /** The two broker goroutines: they end when their context is cancelled. */
  datatype BrokerLoops = Absent | Running | Cancelled | Ended

  datatype Leave = Leave(
    worker: Worker,
    queue: seq<Message>,
    stop: bool,
    cancelled: bool,
    accepted: seq<Message>,   // history: every notice the queue took
    attempts: seq<Message>)   // history: every storage attempt of the worker

  datatype Drain = Drain(
    coord: Coordinator,
    broker: BrokerLoops,
    pending: set<Client>,     // the coordinator's local map
    remaining: int,           // and its counter
    events: seq<Client>,      // buffer of the event channel, whose capacity is |snapshot|
    snapshot: set<Client>,
    done: bool,
    expired: bool)            // the shutdown context is over

  datatype State = State(
    core: Core<Client>,
    phase: map<Client, Phase>,
    profile: map<Client, Profile>,
    hub: HubLoop,
    leave: Leave,
    drain: Drain)

  datatype ClientStep =
    | RegisterClient(profile: Profile)
    | Rename(name: string)
    | ExitRead
    | HandOff
    | SkipUnregister
    | Notify
    | SendEvent

  datatype HubStep =
    | HubDisconnect
    | HubDequeue
    | HubLock
    | HubFan(c: Client, kept: bool)
    | HubUnlock
    | HubStop

  datatype WorkerStep = WorkerTake | WorkerSave | WorkerPublish | WorkerSeeStop | WorkerExit

  datatype DrainStep =
    | StartBroker
    | BrokerEnds   // the broker goroutines see the cancelled context
    | DrainBegin
    | DrainBroker  // the wait in `stopBroker` is over
    | DrainClose(c: Client)
    | DrainWait
    | DrainReceive
    | DrainExpire
    | DrainComplete
    | DrainStop
    | LeaveClose
    | LeaveSettle
    | DrainReturn
    | Expire       // the shutdown context ends
    | CancelLeave  // its callback cancels the leave context

  datatype Step =
    | ByClient(c: Client, client: ClientStep)
    | ByHub(hub: HubStep)
    | ByWorker(worker: WorkerStep)
    | ByDrain(drain: DrainStep)

  predicate InPhase(s: State, c: Client, p: Phase)
  {
    c in s.phase && s.phase[c] == p
  }

  /** The read loop has been through `notifyClientFinished`. */
  predicate Reported(s: State, c: Client)
  {
    InPhase(s, c, Sending) || InPhase(s, c, Finished)
  }

  predicate MutexFree(s: State) { !s.hub.Fanning? }

  predicate ClientEnabled(s: State, c: Client, step: ClientStep)
  {
    match step
    case RegisterClient(_) => c !in s.phase && MutexFree(s)
    case Rename(_) => InPhase(s, c, Reading) && c in s.profile && !s.profile[c].authenticated
    case ExitRead => InPhase(s, c, Reading)
    case HandOff => InPhase(s, c, Unregistering) && s.hub.Selecting?
    case SkipUnregister => InPhase(s, c, Unregistering) && s.drain.done
    case Notify => InPhase(s, c, Finishing) && MutexFree(s)
    case SendEvent => InPhase(s, c, Sending) && |s.drain.events| < |s.drain.snapshot|
  }

  predicate HubEnabled(s: State, step: HubStep)
  {
    match step
    case HubDisconnect => s.hub.Disconnecting? && s.hub.c in s.profile
    case HubDequeue => s.hub.Selecting?
    case HubLock => s.hub.Dequeued?
    case HubFan(c, _) => s.hub.Fanning? && c in s.hub.todo && c in s.profile
    case HubUnlock => s.hub == Fanning({})
    case HubStop => s.hub.Selecting? && s.drain.done
  }

  predicate WorkerEnabled(s: State, step: WorkerStep)
  {
    match step
    case WorkerTake => (s.leave.worker.Waiting? || s.leave.worker.Sweeping?) && s.leave.queue != []
    case WorkerSave => s.leave.worker.Saving?
    case WorkerPublish => s.leave.worker.Announcing?
    case WorkerSeeStop => s.leave.worker.Waiting? && s.leave.stop
    case WorkerExit => s.leave.worker.Sweeping? && (s.leave.cancelled || s.leave.queue == [])
  }

  predicate DrainEnabled(s: State, step: DrainStep)
  {
    match step
    case StartBroker => s.drain.coord.Idle? && s.drain.broker.Absent?
    case BrokerEnds => s.drain.broker.Cancelled?
    case DrainBegin => s.drain.coord.Idle? && MutexFree(s)
    case DrainBroker => s.drain.coord.StoppingBroker? && (s.drain.broker.Absent? || s.drain.broker.Ended? || s.drain.expired)
    case DrainClose(c) => s.drain.coord.Closing? && c in s.drain.coord.open
    case DrainWait => s.drain.coord == Closing({})
    case DrainReceive => s.drain.coord.Receiving? && s.drain.remaining > 0 && s.drain.events != []
    case DrainExpire => s.drain.coord.Receiving? && s.drain.remaining > 0 && s.drain.expired
    case DrainComplete => s.drain.coord.Receiving? && s.drain.remaining <= 0
    case DrainStop => s.drain.coord.Stopping?
    case LeaveClose => s.drain.coord.Done?
    case LeaveSettle => s.drain.coord.AwaitingLeave? && (s.leave.worker.Exited? || s.drain.expired)
    case DrainReturn => s.drain.coord.LeaveSettled? && s.hub.Stopped?
    case Expire => true
    case CancelLeave => s.drain.expired && s.drain.coord.AwaitingLeave?
  }

  predicate Enabled(s: State, step: Step)
  {
    match step
    case ByClient(c, client) => ClientEnabled(s, c, client)
    case ByHub(hub) => HubEnabled(s, hub)
    case ByWorker(worker) => WorkerEnabled(s, worker)
    case ByDrain(drain) => DrainEnabled(s, drain)
  }

  function SetPhase(s: State, c: Client, p: Phase): State
  {
    s.(phase := s.phase[c := p])
  }

  /** `queueLeaveNotification`: starts the worker on first use, drops the notice when the queue is full. */
  function QueueLeave(l: Leave, m: Message): Leave
  {
    l.(worker := if l.worker.NotStarted? then Waiting else l.worker,
       queue := Queue(l.queue, m),
       accepted := if |l.queue| < LEAVE_QUEUE_SIZE then l.accepted + [m] else l.accepted)
  }

  /** `disconnectClientLocked`. */
  function DisconnectClient(s: State, c: Client): State
    requires c in s.profile
  {
    if c !in s.core.clients then s
    else
      var removed := s.(core := Disconnect(s.core, c));
      if s.profile[c].username == ANONYMOUS then removed
      else removed.(leave := QueueLeave(s.leave, LeaveNotice(s.profile[c].room, s.profile[c].username)))
  }

  function ApplyClient(s: State, c: Client, step: ClientStep): State
    requires ClientEnabled(s, c, step)
  {
    match step
    case RegisterClient(profile) =>
      s.(core := Register(s.core, c),
         phase := s.phase[c := if s.core.draining then Refused else Reading],
         profile := s.profile[c := profile])
    case Rename(name) => s.(profile := s.profile[c := s.profile[c].(username := name)])
    case ExitRead => SetPhase(s, c, Unregistering)
    case HandOff => SetPhase(s, c, Finishing).(hub := Disconnecting(c))
    case SkipUnregister => SetPhase(s, c, Finishing)
    case Notify =>
      SetPhase(s, c, if OwesEvent(s.core, c) then Sending else Finished).(core := NotifyFinished(s.core, c))
    case SendEvent => SetPhase(s, c, Finished).(drain := s.drain.(events := s.drain.events + [c]))
  }

  function ApplyHub(s: State, step: HubStep): State
    requires HubEnabled(s, step)
  {
    match step
    case HubDisconnect => DisconnectClient(s, s.hub.c).(hub := Selecting)
    case HubDequeue => s.(hub := Dequeued)
    case HubLock => s.(hub := Fanning(s.core.clients))
    case HubFan(c, kept) => (if kept then s else DisconnectClient(s, c)).(hub := Fanning(s.hub.todo - {c}))
    case HubUnlock => s.(hub := Selecting)
    case HubStop => s.(hub := Stopped)
  }

  function ApplyWorker(s: State, step: WorkerStep): State
    requires WorkerEnabled(s, step)
  {
    var l := s.leave;
    s.(leave :=
      match step
      case WorkerTake => l.(worker := Saving(l.queue[0], l.worker.Sweeping?), queue := l.queue[1..])
      case WorkerSave =>
        l.(worker := Announcing(l.worker.notice, l.worker.sweeping), attempts := l.attempts + [l.worker.notice])
      case WorkerPublish => l.(worker := if l.worker.sweeping then Sweeping else Waiting)
      case WorkerSeeStop => l.(worker := Sweeping)
      case WorkerExit => l.(worker := Exited))
  }

  function ApplyDrain(s: State, step: DrainStep): State
    requires DrainEnabled(s, step)
  {
    var d := s.drain;
    match step
    case StartBroker => s.(drain := d.(broker := Running))
    case BrokerEnds => s.(drain := d.(broker := Ended))
    case DrainBegin =>
      var snapshot := Snapshot(s.core);
      s.(core := BeginDrain(s.core),
         drain := d.(snapshot := snapshot, pending := snapshot, remaining := |snapshot|, coord := StoppingBroker(snapshot),
                     broker := if d.broker.Running? then Cancelled else d.broker))
    case DrainBroker => s.(drain := d.(coord := Closing(d.coord.open)))
    case DrainClose(c) => s.(drain := d.(coord := Closing(d.coord.open - {c})))
    case DrainWait => s.(drain := d.(coord := Receiving))
    case DrainReceive => s.(drain := Receive(d))
    case DrainExpire => s.(drain := d.(coord := Stopping(true)))
    case DrainComplete => s.(drain := d.(coord := Stopping(false)))
    case DrainStop => s.(drain := d.(done := true, coord := Done(d.coord.forced)))
    case LeaveClose =>
      if s.leave.worker.NotStarted? then s.(drain := d.(coord := LeaveSettled(d.coord.forced, false)))
      else s.(leave := s.leave.(stop := true), drain := d.(coord := AwaitingLeave(d.coord.forced)))
    case LeaveSettle =>
      s.(leave := s.leave.(cancelled := true), drain := d.(coord := LeaveSettled(d.coord.forced, d.expired)))
    case DrainReturn => s.(drain := d.(coord := Returned(!d.coord.forced && !d.coord.failed)))
    case Expire => s.(drain := d.(expired := true))
    case CancelLeave => s.(leave := s.leave.(cancelled := true))
  }

  /** One receive of the coordinator; an event for a client it does not wait for is skipped. */
  function Receive(d: Drain): Drain
    requires d.events != []
  {
    var c := d.events[0];
    var rest := d.(events := d.events[1..]);
    if c !in d.pending then rest else rest.(pending := d.pending - {c}, remaining := d.remaining - 1)
  }

  function Apply(s: State, step: Step): State
    requires Enabled(s, step)
  {
    match step
    case ByClient(c, client) => ApplyClient(s, c, client)
    case ByHub(hub) => ApplyHub(s, hub)
    case ByWorker(worker) => ApplyWorker(s, worker)
    case ByDrain(drain) => ApplyDrain(s, drain)
  }

  const INITIAL := State(
    Core({}, {}, false, {}), map[], map[], Selecting,
    Leave(NotStarted, [], false, false, [], []),
    Drain(Idle, Absent, {}, 0, [], {}, false, false))

  /** The steps are enabled one after the other and lead from `s` to `t`. */
  ghost predicate Leads(s: State, steps: seq<Step>, t: State)
    decreases |steps|
  {
    if steps == [] then s == t
    else Enabled(s, steps[0]) && Leads(Apply(s, steps[0]), steps[1..], t)
  }

  // ---------------------------------------------------------------- invariants

  predicate ReportedPhase(p: Phase) { p == Sending || p == Finished }

  /** A live client whose read loop has reported is marked finished, and only such clients are marked. */
  ghost predicate ClientsInv(core: Core<Client>, phase: map<Client, Phase>)
  {
    && core.clients <= phase.Keys
    && (forall c :: c in core.clients ==> phase[c] != Refused)
    && (forall c :: c in core.finished ==> c in phase && ReportedPhase(phase[c]))
    && (forall c :: c in core.clients && ReportedPhase(phase[c]) ==> c in core.finished)
    && (core.draining ==> core.clients == {})
  }

  ghost predicate HubInv(s: State)
  {
    && s.profile.Keys == s.phase.Keys
    && (s.hub.Disconnecting? ==> s.hub.c in s.phase)
    && (s.hub.Fanning? ==> s.hub.todo <= s.core.clients)
    && (s.core.draining <==> !s.drain.coord.Idle?)
    && (s.hub.Stopped? ==> s.drain.done)
    && (s.drain.coord.Returned? ==> s.hub.Stopped?)
  }

  predicate Owing(p: Phase) { p == Reading || p == Unregistering || p == Finishing }

  /** Every client the coordinator waits for is in exactly one place: not reported yet,
      reported and about to send, or in the channel. */
  ghost predicate PendingInv(waiting: set<Client>, phase: map<Client, Phase>, d: Drain)
  {
    && d.remaining == |d.pending|
    && (forall c :: c in d.pending <==> c in waiting || (c in phase && phase[c] == Sending) || c in d.events)
    && (forall c :: c in waiting ==> c in phase && Owing(phase[c]))
    && (forall c :: c in d.events ==> c in phase && phase[c] == Finished)
    && Distinct(d.events)
    && (forall c :: c in d.pending ==> c in d.snapshot)
    && (forall c :: c in d.snapshot ==> c in phase && (c in waiting || ReportedPhase(phase[c])))
  }

  /** The coordinator leaves its receive loop unforced only with nothing pending. */
  ghost predicate CoordinatorInv(d: Drain)
  {
    && (d.coord.Idle? ==> d.snapshot == {} && d.pending == {})
    && (d.coord.Closing? || d.coord.StoppingBroker? ==> d.coord.open <= d.snapshot)
    && (d.broker.Running? ==> d.coord.Idle?)
    && (Unforced(d.coord) ==> d.pending == {})
    && (Failing(d.coord) ==> d.expired)
    && (d.done <==> d.coord.Done? || d.coord.AwaitingLeave? || PastSettling(d.coord))
  }

  predicate Failing(c: Coordinator)
  {
    match c
    case Stopping(forced) => forced
    case Done(forced) => forced
    case AwaitingLeave(forced) => forced
    case LeaveSettled(forced, failed) => forced || failed
    case Returned(ok) => !ok
    case _ => false
  }

  predicate Unforced(c: Coordinator)
  {
    match c
    case Stopping(forced) => !forced
    case Done(forced) => !forced
    case AwaitingLeave(forced) => !forced
    case LeaveSettled(forced, _) => !forced
    case Returned(ok) => ok
    case _ => false
  }

  function Held(w: Worker): seq<Message>
  {
    if w.Saving? then [w.notice] else []
  }

  predicate PastSettling(c: Coordinator) { c.LeaveSettled? || c.Returned? }

  predicate SawStop(w: Worker)
  {
    w.Sweeping? || w.Exited? || (w.Saving? && w.sweeping) || (w.Announcing? && w.sweeping)
  }

  predicate LeaveSucceeded(c: Coordinator)
  {
    (c.LeaveSettled? && !c.failed) || c == Returned(true)
  }

  /** Nothing in the leave queue is lost, repeated or reordered on its way to storage. */
  ghost predicate LeaveInv(l: Leave, c: Coordinator, expired: bool)
  {
    && l.accepted == l.attempts + Held(l.worker) + l.queue
    && |l.queue| <= LEAVE_QUEUE_SIZE
    && (l.worker.NotStarted? ==> l.accepted == [])
    && (l.stop ==> c.AwaitingLeave? || PastSettling(c))
    && (c.AwaitingLeave? ==> l.stop && !l.worker.NotStarted?)
    && (SawStop(l.worker) ==> l.stop)
    && (l.cancelled ==> expired || PastSettling(c))
    && (l.worker.Exited? ==> l.cancelled || l.queue == [])
    && (LeaveSucceeded(c) ==> l.attempts == l.accepted)
  }

  ghost predicate Inv(s: State)
  {
    && ClientsInv(s.core, s.phase)
    && HubInv(s)
    && PendingInv(s.core.drainPending, s.phase, s.drain)
    && CoordinatorInv(s.drain)
    && LeaveInv(s.leave, s.drain.coord, s.drain.expired)
  }

  /** Moves of a client that is neither reporting nor sending leave the pending sets alone. */
  lemma PhaseChangeKeepsPending(waiting: set<Client>, phase: map<Client, Phase>, d: Drain, c: Client, p: Phase)
    requires PendingInv(waiting, phase, d)
    requires if c in phase then Owing(phase[c]) && Owing(p) else !ReportedPhase(p)
    ensures PendingInv(waiting, phase[c := p], d)
  {
  }

  lemma ReportKeepsPending(waiting: set<Client>, phase: map<Client, Phase>, d: Drain, c: Client)
    requires PendingInv(waiting, phase, d) && c in phase && phase[c] == Finishing
    ensures c in waiting ==> PendingInv(waiting - {c}, phase[c := Sending], d)
    ensures c !in waiting ==> PendingInv(waiting, phase[c := Finished], d)
  {
  }

  lemma SendKeepsPending(waiting: set<Client>, phase: map<Client, Phase>, d: Drain, c: Client)
    requires PendingInv(waiting, phase, d) && c in phase && phase[c] == Sending
    ensures PendingInv(waiting, phase[c := Finished], d.(events := d.events + [c]))
  {
  }

  lemma ReceiveKeepsPending(waiting: set<Client>, phase: map<Client, Phase>, d: Drain)
    requires PendingInv(waiting, phase, d) && d.events != []
    ensures d.events[0] in d.pending
    ensures PendingInv(waiting, phase, Receive(d))
  {
    var c := d.events[0];
    assert c in d.pending;
    assert forall x :: x in d.events <==> x == c || x in d.events[1..];
    assert c !in d.events[1..];
  }

  lemma DistinctFits(q: seq<Client>, room: set<Client>)
    requires Distinct(q) && forall c :: c in q ==> c in room
    ensures |q| <= |room|
  {
    if q != [] {
      var last := q[|q| - 1];
      DistinctFits(q[..|q| - 1], room - {last});
    }
  }

  lemma NothingPending(waiting: set<Client>, phase: map<Client, Phase>, d: Drain)
    requires PendingInv(waiting, phase, d) && d.pending == {}
    ensures waiting == {} && d.events == [] && forall c :: c in phase ==> phase[c] != Sending
  {
    DistinctFits(d.events, d.pending);
    assert forall c :: c in waiting ==> c in d.pending;
  }

  lemma ClientKeepsClients(s: State, c: Client, step: ClientStep)
    requires Inv(s) && ClientEnabled(s, c, step)
    ensures var t := ApplyClient(s, c, step); ClientsInv(t.core, t.phase) && HubInv(t)
  {
  }

  lemma ClientKeepsPending(s: State, c: Client, step: ClientStep)
    requires Inv(s) && ClientEnabled(s, c, step)
    ensures var t := ApplyClient(s, c, step); PendingInv(t.core.drainPending, t.phase, t.drain)
  {
    match step
    case RegisterClient(_) =>
      PhaseChangeKeepsPending(s.core.drainPending, s.phase, s.drain, c, if s.core.draining then Refused else Reading);
    case Rename(_) =>
    case ExitRead => PhaseChangeKeepsPending(s.core.drainPending, s.phase, s.drain, c, Unregistering);
    case HandOff => PhaseChangeKeepsPending(s.core.drainPending, s.phase, s.drain, c, Finishing);
    case SkipUnregister => PhaseChangeKeepsPending(s.core.drainPending, s.phase, s.drain, c, Finishing);
    case Notify => ReportKeepsPending(s.core.drainPending, s.phase, s.drain, c);
    case SendEvent => SendKeepsPending(s.core.drainPending, s.phase, s.drain, c);
  }

  lemma ClientKeepsInv(s: State, c: Client, step: ClientStep)
    requires Inv(s) && ClientEnabled(s, c, step)
    ensures Inv(ApplyClient(s, c, step))
  {
    ClientKeepsClients(s, c, step);
    ClientKeepsPending(s, c, step);
  }

  lemma DisconnectKeepsInv(s: State, c: Client)
    requires Inv(s) && c in s.profile && (s.hub.Fanning? ==> c !in s.hub.todo)
    ensures Inv(DisconnectClient(s, c))
  {
  }

  lemma HubKeepsInv(s: State, step: HubStep)
    requires Inv(s) && HubEnabled(s, step)
    ensures Inv(ApplyHub(s, step))
  {
    match step
    case HubDisconnect => DisconnectKeepsInv(s.(hub := Selecting), s.hub.c);
    case HubFan(c, kept) => DisconnectKeepsInv(s.(hub := Fanning(s.hub.todo - {c})), c);
    case _ =>
  }

  lemma WorkerKeepsInv(s: State, step: WorkerStep)
    requires Inv(s) && WorkerEnabled(s, step)
    ensures Inv(ApplyWorker(s, step))
  {
  }

  lemma BeginKeepsPending(s: State)
    requires Inv(s) && DrainEnabled(s, DrainBegin)
    ensures var t := ApplyDrain(s, DrainBegin); PendingInv(t.core.drainPending, s.phase, t.drain)
  {
    NothingPending(s.core.drainPending, s.phase, s.drain);
  }

  lemma DrainKeepsPending(s: State, step: DrainStep)
    requires Inv(s) && DrainEnabled(s, step) && step != DrainBegin
    ensures var t := ApplyDrain(s, step); PendingInv(t.core.drainPending, t.phase, t.drain)
  {
    if step == DrainReceive { ReceiveKeepsPending(s.core.drainPending, s.phase, s.drain); }
  }

  lemma DrainKeepsCoordinator(d: Drain, l: Leave, step: DrainStep, s: State)
    requires s.drain == d && s.leave == l && CoordinatorInv(d) && LeaveInv(l, d.coord, d.expired) && DrainEnabled(s, step)
    requires d.coord.Receiving? && d.remaining <= 0 ==> d.pending == {}
    ensures var t := ApplyDrain(s, step); CoordinatorInv(t.drain) && LeaveInv(t.leave, t.drain.coord, t.drain.expired)
  {
  }

  lemma DrainKeepsClients(s: State, step: DrainStep)
    requires ClientsInv(s.core, s.phase) && HubInv(s) && DrainEnabled(s, step)
    requires s.drain.done <==> s.drain.coord.Done? || s.drain.coord.AwaitingLeave? || PastSettling(s.drain.coord)
    ensures var t := ApplyDrain(s, step); ClientsInv(t.core, t.phase) && HubInv(t)
  {
  }

  lemma DrainKeepsInv(s: State, step: DrainStep)
    requires Inv(s) && DrainEnabled(s, step)
    ensures Inv(ApplyDrain(s, step))
  {
    DrainKeepsCoordinator(s.drain, s.leave, step, s);
    DrainKeepsClients(s, step);
    if step == DrainBegin {
      BeginKeepsPending(s);
    } else {
      DrainKeepsPending(s, step);
    }
  }

  lemma StepKeepsInv(s: State, step: Step)
    requires Inv(s) && Enabled(s, step)
    ensures Inv(Apply(s, step))
  {
    match step
    case ByClient(c, client) => ClientKeepsInv(s, c, client);
    case ByHub(hub) => HubKeepsInv(s, hub);
    case ByWorker(worker) => WorkerKeepsInv(s, worker);
    case ByDrain(drain) => DrainKeepsInv(s, drain);
  }

  lemma {:induction false} LeadsKeepsInv(s: State, steps: seq<Step>, t: State)
    requires Inv(s) && Leads(s, steps, t)
    ensures Inv(t)
    decreases |steps|
  {
    if steps != [] {
      StepKeepsInv(s, steps[0]);
      LeadsKeepsInv(Apply(s, steps[0]), steps[1..], t);
    }
  }

  /** Every state of every run satisfies the invariant. */
  lemma ReachableInv(steps: seq<Step>, t: State)
    requires Leads(INITIAL, steps, t)
    ensures Inv(t)
  {
    LeadsKeepsInv(INITIAL, steps, t);
  }

  // ---------------------------------------------------------------- the drain race

  ghost function InFlight(s: State): set<Client>
  {
    set c | c in s.phase && s.phase[c] == Sending
  }

  ghost function InChannel(s: State): set<Client>
  {
    set c | c in s.drain.events
  }

  /** In every reachable state the coordinator's map is the disjoint union of the clients that have
      not reported, the clients taken out and not yet sent, and the clients in the channel, each of
      which is there once. The counter is the size of the map. */
  lemma PendingIsPartitioned(steps: seq<Step>, s: State)
    requires Leads(INITIAL, steps, s)
    ensures s.drain.pending == s.core.drainPending + InFlight(s) + InChannel(s)
    ensures s.core.drainPending !! InFlight(s) && s.core.drainPending !! InChannel(s) && InFlight(s) !! InChannel(s)
    ensures Distinct(s.drain.events) && s.drain.remaining == |s.drain.pending|
  {
    ReachableInv(steps, s);
  }

  /** A drain waits for exactly the live clients whose read loop has not reported:
      a report can neither be missed nor be waited for after it was made. */
  lemma SnapshotIsTheUnreported(steps: seq<Step>, s: State)
    requires Leads(INITIAL, steps, s) && DrainEnabled(s, DrainBegin)
    ensures var t := ApplyDrain(s, DrainBegin);
            forall c :: c in t.drain.snapshot <==> c in s.core.clients && !Reported(s, c)
  {
    ReachableInv(steps, s);
  }

  /** The channel sized to the snapshot always has room: a read loop never blocks in its report. */
  lemma SendNeverBlocks(steps: seq<Step>, s: State, c: Client)
    requires Leads(INITIAL, steps, s) && InPhase(s, c, Sending)
    ensures ClientEnabled(s, c, SendEvent)
  {
    ReachableInv(steps, s);
    assert c in s.drain.pending;
    DistinctFits(s.drain.events, s.drain.snapshot - {c});
  }

  /** The coordinator never skips an event: each receive counts one client it still waits for. */
  lemma EveryEventCounts(steps: seq<Step>, s: State)
    requires Leads(INITIAL, steps, s) && DrainEnabled(s, DrainReceive)
    ensures s.drain.events[0] in s.drain.pending
    ensures ApplyDrain(s, DrainReceive).drain.remaining == s.drain.remaining - 1
  {
    ReachableInv(steps, s);
    ReceiveKeepsPending(s.core.drainPending, s.phase, s.drain);
  }

  /** `Shutdown` returns nil only after every snapshot client reported and its event was received, and
      after every notice the leave queue ever took had exactly one storage attempt, in queue order. */
  lemma ShutdownNilMeansDrained(steps: seq<Step>, s: State)
    requires Leads(INITIAL, steps, s) && s.drain.coord == Returned(true)
    ensures forall c :: c in s.drain.snapshot ==> InPhase(s, c, Finished)
    ensures s.drain.events == [] && s.core.drainPending == {}
    ensures s.leave.attempts == s.leave.accepted && s.leave.queue == []
    ensures s.core.clients == {} && s.hub.Stopped?
  {
    ReachableInv(steps, s);
    NothingPending(s.core.drainPending, s.phase, s.drain);
  }

  /** `Shutdown` fails only when its deadline has passed. */
  lemma ShutdownErrorMeansDeadline(steps: seq<Step>, s: State)
    requires Leads(INITIAL, steps, s) && s.drain.coord == Returned(false)
    ensures s.drain.expired
  {
    ReachableInv(steps, s);
  }

  // ---------------------------------------------------------------- who is announced

  /** The registered client a step of the hub loop removes: the one it disconnects, or the one whose queue refused. */
  function Removes(s: State, step: Step): Option<Client>
  {
    match step
    case ByHub(HubDisconnect) => if s.hub.Disconnecting? && s.hub.c in s.core.clients then Some(s.hub.c) else None
    case ByHub(HubFan(c, kept)) => if !kept && c in s.core.clients then Some(c) else None
    case _ => None
  }

  /** The leave notice a step gives, field by field: none for a client that never took a name, none when 256 are waiting. */
  function Announced(s: State, step: Step): seq<Message>
  {
    match Removes(s, step)
    case None => []
    case Some(c) =>
      if c !in s.profile || s.profile[c].username == "Anonymous" || |s.leave.queue| >= 256 then []
      else [Message(0, "", "System", s.profile[c].username + " left the chat", "notification", s.profile[c].room, Clock.ZERO)]
  }

  ghost function Departures(s: State, steps: seq<Step>): seq<Message>
    decreases |steps|
  {
    if steps == [] || !Enabled(s, steps[0]) then []
    else Announced(s, steps[0]) + Departures(Apply(s, steps[0]), steps[1..])
  }

  lemma DisconnectAnnounces(s: State, c: Client)
    requires c in s.profile
    ensures DisconnectClient(s, c).leave.accepted == s.leave.accepted +
              if c !in s.core.clients || s.profile[c].username == "Anonymous" || |s.leave.queue| >= 256 then []
              else [Message(0, "", "System", s.profile[c].username + " left the chat", "notification", s.profile[c].room, Clock.ZERO)]
    ensures DisconnectClient(s, c).core.clients == s.core.clients - {c}
    ensures c in s.core.clients ==> c !in DisconnectClient(s, c).core.finished
  {
    assert s.leave.accepted + [] == s.leave.accepted;
  }

  lemma StepAnnounces(s: State, step: Step)
    requires Enabled(s, step)
    ensures Apply(s, step).leave.accepted == s.leave.accepted + Announced(s, step)
  {
    assert s.leave.accepted + [] == s.leave.accepted;
    match step
    case ByHub(HubDisconnect) => DisconnectAnnounces(s, s.hub.c);
    case ByHub(HubFan(c, _)) => DisconnectAnnounces(s, c);
    case _ =>
  }

  /** A client is removed by exactly these steps, and otherwise only all of them at once, when a drain begins. */
  lemma RemovedExactlyWhen(s: State, step: Step, c: Client)
    requires Enabled(s, step) && c in s.core.clients
    ensures c !in Apply(s, step).core.clients <==> Removes(s, step) == Some(c) || step == ByDrain(DrainBegin)
    ensures c !in Apply(s, step).core.clients ==> c !in Apply(s, step).core.finished
  {
    match step
    case ByHub(HubDisconnect) => DisconnectAnnounces(s, s.hub.c);
    case ByHub(HubFan(x, _)) => DisconnectAnnounces(s, x);
    case _ =>
  }

  lemma {:induction false} LeadsAnnounce(s: State, steps: seq<Step>, t: State)
    requires Leads(s, steps, t)
    ensures t.leave.accepted == s.leave.accepted + Departures(s, steps)
    decreases |steps|
  {
    if steps == [] {
      assert s.leave.accepted + [] == s.leave.accepted;
    } else {
      StepAnnounces(s, steps[0]);
      LeadsAnnounce(Apply(s, steps[0]), steps[1..], t);
      Joins(s.leave.accepted, Announced(s, steps[0]), Departures(Apply(s, steps[0]), steps[1..]));
    }
  }

  lemma Joins(a: seq<Message>, b: seq<Message>, c: seq<Message>)
    ensures (a + b) + c == a + (b + c)
  {
  }

  /** In every run the notices the leave queue took are exactly those of the named clients that the hub removed while it had
      room for them, in the order they went; nothing else is ever announced. */
  lemma AcceptedAreDepartures(steps: seq<Step>, t: State)
    requires Leads(INITIAL, steps, t)
    ensures t.leave.accepted == Departures(INITIAL, steps)
  {
    LeadsAnnounce(INITIAL, steps, t);
    assert [] + Departures(INITIAL, steps) == Departures(INITIAL, steps);
  }

  // ---------------------------------------------------------------- no lost wakeup

  lemma {:induction false} LeadsConcat(s: State, first: seq<Step>, m: State, second: seq<Step>, t: State)
    requires Leads(s, first, m) && Leads(m, second, t)
    ensures Leads(s, first + second, t)
    decreases |first|
  {
    if first == [] {
      assert first + second == second;
    } else {
      LeadsConcat(Apply(s, first[0]), first[1..], m, second, t);
      assert (first + second)[1..] == first[1..] + second;
    }
  }

  function Stage(p: Phase): nat
  {
    match p case Reading => 4 case Unregistering => 3 case Finishing => 2 case Sending => 1 case _ => 0
  }

  function HubRank(h: HubLoop): nat
  {
    match h case Dequeued => 2 case Disconnecting(_) => 1 case Fanning(_) => 1 case _ => 0
  }

  /** The next step that brings the event of `c` closer. */
  function Toward(s: State, c: Client): Step
    requires c in s.phase
  {
    match s.phase[c]
    case Reading => ByClient(c, ExitRead)
    case Unregistering => if s.hub.Selecting? then ByClient(c, HandOff) else HubOnward(s)
    case Finishing => if MutexFree(s) then ByClient(c, Notify) else HubOnward(s)
    case _ => ByClient(c, SendEvent)
  }

  function HubOnward(s: State): Step
  {
    ByHub(match s.hub case Disconnecting(_) => HubDisconnect case Dequeued => HubLock case _ => HubUnlock)
  }

  ghost predicate Waits(s: State) { Inv(s) && s.drain.coord.Receiving? && s.drain.remaining > 0 }

  lemma TowardEnabled(s: State, c: Client)
    requires Waits(s) && c in s.drain.pending && s.drain.events == []
    ensures c in s.phase && Stage(s.phase[c]) > 0 && Enabled(s, Toward(s, c))
  {
    DistinctFits(s.drain.events, s.drain.snapshot - {c});
    if s.hub.Fanning? {
      assert s.hub.todo == {};
    }
  }

  lemma TowardIsProgress(s: State, c: Client)
    requires c in s.phase && Stage(s.phase[c]) > 0 && Enabled(s, Toward(s, c))
    ensures var t := Apply(s, Toward(s, c));
            && c in t.phase && t.drain.coord == s.drain.coord && t.drain.remaining == s.drain.remaining
            && t.drain.pending == s.drain.pending && t.drain.expired == s.drain.expired
            && (t.drain.events == [] ==>
                  Stage(t.phase[c]) < Stage(s.phase[c]) ||
                  (t.phase[c] == s.phase[c] && HubRank(t.hub) < HubRank(s.hub)))
  {
  }

  lemma {:induction false} CanDeliver(s: State, c: Client) returns (steps: seq<Step>, t: State)
    requires Waits(s) && c in s.drain.pending
    ensures Leads(s, steps, t) && Waits(t) && t.drain.events != []
    ensures t.drain.pending == s.drain.pending && t.drain.expired == s.drain.expired
    decreases if c in s.phase then Stage(s.phase[c]) else 0, HubRank(s.hub)
  {
    if s.drain.events != [] {
      steps, t := [], s;
    } else {
      TowardEnabled(s, c);
      TowardIsProgress(s, c);
      var step := Toward(s, c);
      StepKeepsInv(s, step);
      var m := Apply(s, step);
      if m.drain.events != [] {
        t := m;
        assert Leads(m, [], t);
        steps := [step];
      } else {
        var more;
        more, t := CanDeliver(m, c);
        assert ([step] + more)[1..] == more;
        steps := [step] + more;
      }
    }
  }

  /** No wakeup is ever lost: from every reachable state in which the coordinator waits, the read
      loops that still owe an event and the hub loop can bring the drain to completion without the
      deadline. The coordinator never waits for an event that cannot come. */
  lemma {:induction false} DrainCanComplete(s: State) returns (steps: seq<Step>, t: State)
    requires Inv(s) && s.drain.coord.Receiving?
    ensures Leads(s, steps, t) && t.drain.coord.Receiving? && t.drain.remaining == 0
    ensures DrainEnabled(t, DrainComplete) && t.drain.expired == s.drain.expired
    decreases s.drain.remaining
  {
    if s.drain.remaining <= 0 {
      steps, t := [], s;
    } else {
      var c :| c in s.drain.pending;
      var first, m := CanDeliver(s, c);
      var receive := ByDrain(DrainReceive);
      ReceiveKeepsPending(m.core.drainPending, m.phase, m.drain);
      StepKeepsInv(m, receive);
      var rest;
      rest, t := DrainCanComplete(Apply(m, receive));
      assert ([receive] + rest)[1..] == rest;
      LeadsConcat(s, first, m, [receive] + rest, t);
      steps := first + ([receive] + rest);
    }
  }

  // ---------------------------------------------------------------- shutdown can succeed

  /** The next step of the hub loop; in a fan-out, any client is served and kept. */
  ghost function HubTurn(h: HubLoop): Step
  {
    ByHub(
      match h
      case Disconnecting(_) => HubDisconnect
      case Dequeued => HubLock
      case Fanning(todo) => if c :| c in todo then HubFan(c, true) else HubUnlock
      case _ => HubStop)
  }

  function WorkerTurn(l: Leave): Step
  {
    ByWorker(
      match l.worker
      case Saving(_, _) => WorkerSave
      case Announcing(_, _) => WorkerPublish
      case Waiting => WorkerSeeStop
      case _ => if l.queue != [] then WorkerTake else WorkerExit)
  }

  /** The next step on the way to the end of `Shutdown`, for any coordinator that is not waiting for events. */
  ghost function Onward(s: State): Step
  {
    match s.drain.coord
    case Idle => if MutexFree(s) then ByDrain(DrainBegin) else HubTurn(s.hub)
    case StoppingBroker(_) => ByDrain(if s.drain.broker.Cancelled? then BrokerEnds else DrainBroker)
    case Closing(open) => ByDrain(if c :| c in open then DrainClose(c) else DrainWait)
    case Receiving => ByDrain(DrainComplete)
    case Stopping(_) => ByDrain(DrainStop)
    case Done(_) => ByDrain(LeaveClose)
    case AwaitingLeave(_) => if s.leave.worker.Exited? then ByDrain(LeaveSettle) else WorkerTurn(s.leave)
    case LeaveSettled(_, _) => if s.hub.Stopped? then ByDrain(DrainReturn) else HubTurn(s.hub)
    case Returned(_) => ByDrain(Expire)
  }

  function CoordRank(c: Coordinator): nat
  {
    match c
    case Idle => 8
    case StoppingBroker(_) => 7
    case Closing(_) => 6
    case Receiving => 5
    case Stopping(_) => 4
    case Done(_) => 3
    case AwaitingLeave(_) => 2
    case LeaveSettled(_, _) => 1
    case Returned(_) => 0
  }

  function HubLoad(s: State): nat
  {
    match s.hub
    case Stopped => 0
    case Selecting => 1
    case Disconnecting(_) => 2
    case Fanning(todo) => 2 + |todo|
    case Dequeued => 3 + |s.core.clients|
  }

  function WorkerLoad(w: Worker): nat
  {
    match w
    case Saving(_, _) => 4
    case Announcing(_, _) => 3
    case Waiting => 2
    case Sweeping => 1
    case _ => 0
  }

  function Load(s: State): nat
  {
    match s.drain.coord
    case StoppingBroker(_) => if s.drain.broker.Cancelled? then 1 else 0
    case Closing(open) => |open|
    case AwaitingLeave(_) => |s.leave.queue|
    case _ => HubLoad(s)
  }

  ghost predicate Less(t: State, s: State)
  {
    || CoordRank(t.drain.coord) < CoordRank(s.drain.coord)
    || (CoordRank(t.drain.coord) == CoordRank(s.drain.coord)
        && (Load(t) < Load(s) || (Load(t) == Load(s) && WorkerLoad(t.leave.worker) < WorkerLoad(s.leave.worker))))
  }

  ghost predicate InTime(s: State)
  {
    Inv(s) && !s.drain.expired && !s.drain.coord.Returned? && (s.drain.coord.Receiving? ==> s.drain.remaining <= 0)
  }

  lemma HubTurnProgress(s: State)
    requires Inv(s) && !s.hub.Stopped? && (s.hub.Selecting? ==> s.drain.done)
    ensures Enabled(s, HubTurn(s.hub))
    ensures var t := Apply(s, HubTurn(s.hub)); t.drain == s.drain && HubLoad(t) < HubLoad(s)
  {
  }

  lemma WorkerTurnProgress(s: State)
    requires Inv(s) && s.drain.coord.AwaitingLeave? && !s.leave.worker.Exited?
    ensures Enabled(s, WorkerTurn(s.leave))
    ensures var t := Apply(s, WorkerTurn(s.leave));
            && t.drain == s.drain
            && (|t.leave.queue| < |s.leave.queue| ||
                (|t.leave.queue| == |s.leave.queue| && WorkerLoad(t.leave.worker) < WorkerLoad(s.leave.worker)))
  {
  }

  lemma CoordinatorProgress(s: State)
    requires InTime(s) && !(s.drain.coord.Idle? && !MutexFree(s)) && !(s.drain.coord.LeaveSettled? && !s.hub.Stopped?)
    requires s.drain.coord.AwaitingLeave? ==> s.leave.worker.Exited?
    ensures Onward(s).ByDrain? && DrainEnabled(s, Onward(s).drain)
    ensures var t := ApplyDrain(s, Onward(s).drain);
            && !t.drain.expired
            && (CoordRank(t.drain.coord) < CoordRank(s.drain.coord)
                || (CoordRank(t.drain.coord) == CoordRank(s.drain.coord) && Load(t) < Load(s)))
  {
  }

  lemma OnwardProgress(s: State)
    requires InTime(s)
    ensures Enabled(s, Onward(s))
    ensures Less(Apply(s, Onward(s)), s) && !Apply(s, Onward(s)).drain.expired
  {
    if (s.drain.coord.Idle? && !MutexFree(s)) || (s.drain.coord.LeaveSettled? && !s.hub.Stopped?) {
      HubTurnProgress(s);
    } else if s.drain.coord.AwaitingLeave? && !s.leave.worker.Exited? {
      WorkerTurnProgress(s);
    } else {
      CoordinatorProgress(s);
    }
  }

  /** From every reachable state before its deadline, called or not yet called, `Shutdown` can still return nil. */
  lemma {:induction false} ShutdownCanSucceed(s: State) returns (steps: seq<Step>, t: State)
    requires Inv(s) && !s.drain.expired
    ensures Leads(s, steps, t) && t.drain.coord == Returned(true)
    decreases CoordRank(s.drain.coord), if s.drain.coord.Receiving? then s.drain.remaining else 0, Load(s), WorkerLoad(s.leave.worker)
  {
    if s.drain.coord.Returned? {
      steps, t := [], s;
    } else if s.drain.coord.Receiving? && s.drain.remaining > 0 {
      var first, m := DrainCanComplete(s);
      LeadsKeepsInv(s, first, m);
      var rest;
      rest, t := ShutdownCanSucceed(m);
      LeadsConcat(s, first, m, rest, t);
      steps := first + rest;
    } else {
      OnwardProgress(s);
      var step := Onward(s);
      StepKeepsInv(s, step);
      var rest;
      rest, t := ShutdownCanSucceed(Apply(s, step));
      assert ([step] + rest)[1..] == rest;
      steps := [step] + rest;
    }
  }
}
