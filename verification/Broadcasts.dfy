/** The hub's fan-out, once as the method on objects (`HubObjects.Hub.Broadcast`) and once as the steps between taking and
    releasing the mutex (`Delivery`): both do the same to the shared state and to every client. */
module Broadcasts {
  import opened Messages
  import opened HubRegions
  import opened Seqs
  import D = Delivery

  function SharedOf(w: D.World): Shared<D.Client> { Shared(w.life.core, w.life.leave.queue) }

  function LeaverOf(w: D.World, c: D.Client): Leaver<D.Client>
    requires D.Known(w, c)
  {
    Leaver(c, w.life.profile[c].room, w.life.profile[c].username)
  }

  /** The steps of a fan-out in one order of the clients. */
  function FanSteps(order: seq<D.Client>): seq<D.Step>
  {
    if order == [] then [] else [D.Fan(order[0])] + FanSteps(order[1..])
  }

  ghost predicate AllKnown(w: D.World, order: seq<D.Client>) { forall c :: c in order ==> D.Known(w, c) }

  /** Those whose queue refuses, in that order. */
  ghost function Gone(w: D.World, order: seq<D.Client>): seq<Leaver<D.Client>>
    requires AllKnown(w, order)
  {
    if order == [] then []
    else (if D.Kept(w, order[0]) then [] else [LeaverOf(w, order[0])]) + Gone(w, order[1..])
  }

  /** What a fan-out does to one connection, in the words of `HubObjects.FannedOut`. */
  lemma FanConnIs(k: D.Conn, room: string, m: Message, position: int)
    ensures var (t, kept) := (D.FanConn(k, room, m, position), Stays(room, m, D.HasRoom(k)));
            && t.queue == (if Wants(room, m) && kept then k.queue + [D.Live(m)] else k.queue)
            && t.closed == (!kept || k.closed)
  {
  }

  lemma FanOnceEvicts(w: D.World, c: D.Client)
    requires D.FanEnabled(w, c)
    ensures SharedOf(D.FanOne(w, c)) == if D.Kept(w, c) then SharedOf(w) else Evict(SharedOf(w), LeaverOf(w, c))
  {
  }

  lemma FanOnceKeeps(w: D.World, c: D.Client)
    requires D.FanEnabled(w, c)
    ensures var t := D.FanOne(w, c);
            && t.life.profile == w.life.profile && t.current == w.current && t.log == w.log
            && t.conns == w.conns[c := D.FanConn(w.conns[c], w.life.profile[c].room, w.current, |w.log| - 1)]
  {
  }

  /** Clients that have not had their turn are as they were. */
  lemma {:induction false} GoneLater(w: D.World, t: D.World, order: seq<D.Client>)
    requires AllKnown(w, order) && t.life.profile == w.life.profile && t.current == w.current
    requires forall c :: c in order ==> c in t.conns && t.conns[c] == w.conns[c]
    ensures AllKnown(t, order) && Gone(t, order) == Gone(w, order)
    decreases |order|
  {
    if order != [] {
      assert order[0] in order;
      GoneLater(w, t, order[1..]);
    }
  }

  /** Every client of the order has been served or evicted as the rule says, every other client is untouched. */
  ghost predicate Served(w: D.World, t: D.World, order: seq<D.Client>)
  {
    forall c :: c in w.conns && c in w.life.profile ==>
      && c in t.conns
      && t.conns[c] == if c in order then D.FanConn(w.conns[c], w.life.profile[c].room, w.current, |w.log| - 1) else w.conns[c]
  }

  lemma ServedFirst(w: D.World, m: D.World, t: D.World, order: seq<D.Client>)
    requires order != [] && Distinct(order) && D.FanEnabled(w, order[0]) && m == D.FanOne(w, order[0]) && Served(m, t, order[1..])
    ensures Served(w, t, order)
  {
    FanOnceKeeps(w, order[0]);
    assert order[0] !in order[1..];
    assert forall c :: c in order <==> c == order[0] || c in order[1..];
  }

  /** The fan-out steps of the model, in any order of the clients, evict exactly those whose queue refuses, one after the other,
      which is what `Broadcast` promises of the objects. */
  lemma {:induction false} FanStepsAreBroadcast(w: D.World, order: seq<D.Client>, t: D.World)
    requires Distinct(order) && AllKnown(w, order) && D.Leads(w, FanSteps(order), t)
    ensures SharedOf(t) == EvictAll(SharedOf(w), Gone(w, order)) && Served(w, t, order)
    decreases |order|
  {
    if order != [] {
      var c, rest := order[0], order[1..];
      var m := D.FanOne(w, c);
      assert FanSteps(order)[1..] == FanSteps(rest) && FanSteps(order)[0] == D.Fan(c);
      assert D.Apply(w, D.Fan(c)) == m;
      FirstTurn(w, m, order);
      FanStepsAreBroadcast(m, rest, t);
      ServedFirst(w, m, t, order);
    }
  }

  lemma FirstTurn(w: D.World, m: D.World, order: seq<D.Client>)
    requires order != [] && Distinct(order) && AllKnown(w, order) && D.FanEnabled(w, order[0]) && m == D.FanOne(w, order[0])
    ensures AllKnown(m, order[1..])
    ensures EvictAll(SharedOf(w), Gone(w, order)) == EvictAll(SharedOf(m), Gone(m, order[1..]))
  {
    var c, rest := order[0], order[1..];
    FanOnceEvicts(w, c);
    FanOnceKeeps(w, c);
    assert c !in rest && forall x :: x in rest ==> x in order;
    GoneLater(w, m, rest);
    if D.Kept(w, c) {
      assert Gone(w, order) == Gone(w, rest);
    } else {
      assert Gone(w, order)[0] == LeaverOf(w, c) && Gone(w, order)[1..] == Gone(w, rest);
    }
  }
}
