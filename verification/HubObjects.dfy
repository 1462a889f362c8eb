/** The hub and its clients as mutable objects (backend/hub.go, backend/client.go): the methods are the
    regions the hub's mutex protects, proved against the same definitions the interleaving models use. */
module HubObjects {
  import opened Messages
  import opened HubRegions
  import opened Seqs

  class Client {
    const room: string
    var username: string
    var send: seq<Message>
    var done: bool

    constructor (room: string, username: string)
      ensures this.room == room && this.username == username && send == [] && !done
    {
      this.room, this.username, send, done := room, username, [], false;
    }

    predicate HasRoom()
      reads this
    {
      !done && |send| < SEND_QUEUE_SIZE
    }

    method Enqueue(m: Message) returns (ok: bool)
      modifies this`send
      ensures ok == old(HasRoom())
      ensures send == if ok then old(send) + [m] else old(send)
    {
      if done || |send| >= SEND_QUEUE_SIZE {
        return false;
      }
      send := send + [m];
      return true;
    }

    method Close()
      modifies this`done
      ensures done
    {
      done := true;
    }
  }

  /** What the fan-out of `m` did to one registered client, and whether it kept the client. */
  twostate predicate FannedOut(c: Client, m: Message, kept: bool)
    reads c
  {
    && kept == Stays(c.room, m, old(c.HasRoom()))
    && c.send == (if Wants(c.room, m) && kept then old(c.send) + [m] else old(c.send))
    && c.done == (!kept || old(c.done))
  }

  function LeaverOf(c: Client): Leaver<Client>
    reads c
  {
    Leaver(c, c.room, c.username)
  }

  class Hub {
    var clients: set<Client>
    var finished: set<Client>
    var draining: bool
    var drainPending: set<Client>
    var leaveQueue: seq<Message>

    ghost function Regions(): Core<Client>
      reads this
    {
      Core(clients, finished, draining, drainPending)
    }

    ghost function Now(): Shared<Client>
      reads this
    {
      Shared(Regions(), leaveQueue)
    }

    constructor ()
      ensures Regions() == Core({}, {}, false, {}) && leaveQueue == []
    {
      clients, finished, draining, drainPending := {}, {}, false, {};
      leaveQueue := [];
    }

    method RegisterClient(c: Client) returns (ok: bool)
      modifies this`clients
      ensures ok == !draining
      ensures Regions() == Register(old(Regions()), c)
    {
      if draining {
        return false;
      }
      clients := clients + {c};
      return true;
    }

    method DisconnectClientLocked(c: Client)
      modifies this`clients, this`finished, this`leaveQueue, c`done
      ensures Now() == Evict(old(Now()), LeaverOf(c))
      ensures c.done == (c in old(clients) || old(c.done))
    {
      if c !in clients {
        return;
      }
      clients := clients - {c};
      finished := finished - {c};
      c.Close();
      if c.username == ANONYMOUS {
        return;
      }
      QueueLeaveNotification(LeaveNotice(c.room, c.username));
    }

    method QueueLeaveNotification(m: Message)
      modifies this`leaveQueue
      ensures leaveQueue == Queue(old(leaveQueue), m)
    {
      if |leaveQueue| < LEAVE_QUEUE_SIZE {
        leaveQueue := leaveQueue + [m];
      }
    }

    /** The locked part of `notifyClientFinished`; `owes` tells whether the event is to be sent. */
    method NotifyClientFinished(c: Client) returns (owes: bool)
      modifies this`finished, this`drainPending
      ensures owes == OwesEvent(old(Regions()), c)
      ensures Regions() == NotifyFinished(old(Regions()), c)
    {
      finished := finished + {c};
      if !draining || c !in drainPending {
        return false;
      }
      drainPending := drainPending - {c};
      return true;
    }

    /** The locked part of `drain`: collects the clients to wait for and empties the hub. */
    method BeginDrain() returns (waiting: seq<Client>)
      modifies this`clients, this`finished, this`draining, this`drainPending
      ensures Regions() == HubRegions.BeginDrain(old(Regions()))
      ensures Distinct(waiting) && (forall c :: c in waiting <==> c in drainPending)
    {
      draining := true;
      waiting := [];
      var todo := clients;
      while todo != {}
        invariant clients == old(clients) && draining
        invariant forall c :: c in todo ==> c in clients
        invariant Distinct(waiting)
        invariant forall c :: c in waiting <==> c in clients && c !in todo && c !in old(finished)
        invariant forall c :: c in finished <==> c in old(finished) && !(c in clients && c !in todo)
        decreases todo
      {
        var c :| c in todo;
        todo := todo - {c};
        if c in finished {
          finished := finished - {c};
        } else {
          waiting := waiting + [c];
        }
      }
      drainPending := set c | c in waiting;
      assert drainPending == old(clients) - old(finished);
      assert finished == old(finished) - old(clients);
      clients := {};
    }

    /** One turn of the fan-out loop. */
    method Offer(c: Client, m: Message) returns (kept: bool)
      requires c in clients
      modifies this`clients, this`finished, this`leaveQueue, c`send, c`done
      ensures FannedOut(c, m, kept)
      ensures Now() == if kept then old(Now()) else Evict(old(Now()), LeaverOf(c))
    {
      if m.room != "" && c.room != m.room {
        return true;
      }
      kept := c.Enqueue(m);
      if !kept {
        DisconnectClientLocked(c);
      }
    }

    /** The fan-out of one message to every registered client of its room, in any order of the clients. A client whose
        queue refuses is disconnected; `gone` lists those in the order they went. */
    method Broadcast(m: Message) returns (ghost gone: seq<Leaver<Client>>)
      modifies this`clients, this`finished, this`leaveQueue, clients`send, clients`done
      ensures forall c :: c in old(clients) ==> FannedOut(c, m, c in clients)
      ensures Distinct(gone) && forall x :: x in gone <==> x.client in old(clients) - clients && x == LeaverOf(x.client)
      ensures Now() == EvictAll(old(Now()), gone)
    {
      gone := [];
      var todo := clients;
      while todo != {}
        invariant todo <= clients <= old(clients)
        invariant forall c :: c in todo ==> c.send == old(c.send) && c.done == old(c.done)
        invariant forall c :: c in old(clients) && c !in todo ==> FannedOut(c, m, c in clients)
        invariant Distinct(gone)
        invariant forall x :: x in gone <==> x.client in old(clients) - clients && x == LeaverOf(x.client)
        invariant Now() == EvictAll(old(Now()), gone)
        decreases todo
      {
        var c :| c in todo;
        todo := todo - {c};
        var kept := Offer(c, m);
        if !kept {
          EvictAllPush(old(Now()), gone, LeaverOf(c));
          gone := gone + [LeaverOf(c)];
        }
      }
    }
  }
}
