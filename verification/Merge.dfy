/** How the web client merges received messages into the shown history
    (frontend/src/App.jsx, `appendUniqueMessages` and `prependUniqueMessages`). */
module Merge {
  import opened Messages

  /** The server leaves an id of zero out of the JSON, so such a message has no id at the client. */
  predicate HasId(m: Message) { m.id != 0 }

  function IdsOf(s: seq<Message>): set<int>
  {
    set m | m in s && HasId(m) :: m.id
  }

  /** The messages without an id, which are never taken for one another. */
  function Unnumbered(s: seq<Message>): multiset<Message>
  {
    if s == [] then multiset{}
    else Unnumbered(s[..|s| - 1]) + AsUnnumbered(s[|s| - 1])
  }

  function AsUnnumbered(m: Message): multiset<Message>
  {
    if HasId(m) then multiset{} else multiset{m}
  }

  ghost predicate NoRepeat(s: seq<Message>)
  {
    forall i, j :: 0 <= i < j < |s| && HasId(s[i]) ==> s[i].id != s[j].id
  }

  function Push(s: seq<Message>, m: Message): seq<Message>
  {
    if HasId(m) && m.id in IdsOf(s) then s else s + [m]
  }

  function Appended(existing: seq<Message>, incoming: seq<Message>): seq<Message>
  {
    if incoming == [] then existing
    else Push(Appended(existing, incoming[..|incoming| - 1]), incoming[|incoming| - 1])
  }

  function Prepended(existing: seq<Message>, incoming: seq<Message>): seq<Message>
  {
    Appended(incoming, existing)
  }

  method AppendUniqueMessages(existing: seq<Message>, incoming: seq<Message>) returns (next: seq<Message>)
    ensures next == Appended(existing, incoming)
  {
    var seenIds := IdsOf(existing);
    next := existing;
    for i := 0 to |incoming|
      invariant next == Appended(existing, incoming[..i]) && seenIds == IdsOf(next)
    {
      var m := incoming[i];
      assert incoming[..i + 1][..i] == incoming[..i] && incoming[..i + 1][i] == m;
      IdsPush(next, m);
      if HasId(m) {
        if m.id in seenIds {
          continue;
        }
        seenIds := seenIds + {m.id};
      }
      next := next + [m];
    }
    assert incoming[..|incoming|] == incoming;
  }

  method PrependUniqueMessages(existing: seq<Message>, incoming: seq<Message>) returns (next: seq<Message>)
    ensures next == Prepended(existing, incoming)
  {
    next := AppendUniqueMessages(incoming, existing);
  }

  lemma IdsPush(s: seq<Message>, m: Message)
    ensures IdsOf(Push(s, m)) == IdsOf(s) + (if HasId(m) then {m.id} else {})
    ensures IdsOf(s + [m]) == IdsOf(s) + (if HasId(m) then {m.id} else {})
  {
    assert forall x :: x in s + [m] <==> x in s || x == m;
    forall id | id in IdsOf(s) + (if HasId(m) then {m.id} else {}) ensures id in IdsOf(s + [m]) {
      if id in IdsOf(s) {
        var x :| x in s && HasId(x) && x.id == id;
        assert x in s + [m];
      } else {
        assert m in s + [m];
      }
    }
  }

  /** An id shown or received is shown, and nothing else is. */
  lemma {:induction false} AppendedIds(existing: seq<Message>, incoming: seq<Message>)
    ensures IdsOf(Appended(existing, incoming)) == IdsOf(existing) + IdsOf(incoming)
    decreases |incoming|
  {
    if incoming != [] {
      var front, m := incoming[..|incoming| - 1], incoming[|incoming| - 1];
      assert incoming == front + [m];
      AppendedIds(existing, front);
      IdsPush(Appended(existing, front), m);
      IdsPush(front, m);
    }
  }

  lemma UnnumberedPush(s: seq<Message>, m: Message)
    ensures Unnumbered(s + [m]) == Unnumbered(s) + AsUnnumbered(m)
  {
    assert (s + [m])[..|s|] == s;
  }

  /** Messages without an id are all kept, however often they come. */
  lemma {:induction false} AppendedUnnumbered(existing: seq<Message>, incoming: seq<Message>)
    ensures Unnumbered(Appended(existing, incoming)) == Unnumbered(existing) + Unnumbered(incoming)
    decreases |incoming|
  {
    if incoming != [] {
      var front, m := incoming[..|incoming| - 1], incoming[|incoming| - 1];
      AppendedUnnumbered(existing, front);
      UnnumberedPush(Appended(existing, front), m);
    }
  }

  lemma JoinedIds(a: seq<Message>, b: seq<Message>)
    ensures IdsOf(a + b) == IdsOf(a) + IdsOf(b)
  {
    assert forall m :: m in a + b <==> m in a || m in b;
    forall id | id in IdsOf(a) + IdsOf(b) ensures id in IdsOf(a + b) {
      var m :| (m in a || m in b) && HasId(m) && m.id == id;
      assert m in a + b;
    }
  }

  lemma UnionAssociates<T>(a: multiset<T>, b: multiset<T>, c: multiset<T>)
    ensures (a + b) + c == a + (b + c)
  {
  }

  lemma {:induction false} JoinedUnnumbered(a: seq<Message>, b: seq<Message>)
    ensures Unnumbered(a + b) == Unnumbered(a) + Unnumbered(b)
    decreases |b|
  {
    if b == [] {
      assert a + b == a;
    } else {
      var front, m := b[..|b| - 1], b[|b| - 1];
      JoinedUnnumbered(a, front);
      assert (a + b)[..|a + b| - 1] == a + front && (a + b)[|a + b| - 1] == m;
      UnionAssociates(Unnumbered(a), Unnumbered(front), AsUnnumbered(m));
    }
  }

  lemma PushNoRepeat(s: seq<Message>, m: Message)
    ensures NoRepeat(Push(s, m)) <==> NoRepeat(s)
  {
    var t := Push(s, m);
    assert forall i :: 0 <= i < |s| ==> t[i] == s[i];
    if NoRepeat(s) && t != s {
      forall i | 0 <= i < |s| && HasId(s[i]) ensures s[i].id != m.id {
        assert s[i] in s;
        assert s[i].id in IdsOf(s);
      }
    }
  }

  /** The merged history repeats an id exactly when the list it starts from does: the incoming list
      is filtered, the existing one is not. */
  lemma {:induction false} AppendedNoRepeat(existing: seq<Message>, incoming: seq<Message>)
    ensures NoRepeat(Appended(existing, incoming)) <==> NoRepeat(existing)
    decreases |incoming|
  {
    if incoming != [] {
      var front := incoming[..|incoming| - 1];
      AppendedNoRepeat(existing, front);
      PushNoRepeat(Appended(existing, front), incoming[|incoming| - 1]);
    }
  }

  /** What is shown stays where it is. */
  lemma {:induction false} AppendedKeeps(existing: seq<Message>, incoming: seq<Message>)
    ensures existing <= Appended(existing, incoming)
    decreases |incoming|
  {
    if incoming != [] {
      AppendedKeeps(existing, incoming[..|incoming| - 1]);
    }
  }

  lemma NotAmong(s: seq<Message>, m: Message)
    requires HasId(m) ==> forall i :: 0 <= i < |s| ==> s[i].id != m.id
    ensures Push(s, m) == s + [m]
  {
  }

  /** Lists that share no id are joined as they are. */
  lemma {:induction false} AppendedDisjoint(existing: seq<Message>, incoming: seq<Message>)
    requires NoRepeat(existing + incoming)
    ensures Appended(existing, incoming) == existing + incoming
    decreases |incoming|
  {
    if incoming != [] {
      var n := |incoming| - 1;
      var front, m := incoming[..n], incoming[n];
      var all := existing + incoming;
      assert existing + front == all[..|all| - 1] && m == all[|all| - 1];
      AppendedDisjoint(existing, front);
      NotAmong(existing + front, m);
      assert existing + front + [m] == all;
    }
  }

  // ---------------------------------------------------------------- the algebra of merging

  /** Merging two lists in turn is merging them joined. */
  lemma {:induction false} AppendedConcat(a: seq<Message>, b: seq<Message>, c: seq<Message>)
    ensures Appended(a, b + c) == Appended(Appended(a, b), c)
    decreases |c|
  {
    if c == [] {
      assert b + c == b;
    } else {
      AppendedConcat(a, b, c[..|c| - 1]);
      assert (b + c)[..|b + c| - 1] == b + c[..|c| - 1] && (b + c)[|b + c| - 1] == c[|c| - 1];
    }
  }

  lemma AppendPush(a: seq<Message>, s: seq<Message>, m: Message)
    ensures Appended(a, s + [m]) == Push(Appended(a, s), m)
  {
    assert (s + [m])[..|s|] == s;
  }

  /** Merging is associative, so it does not matter whether an older page is put before the history at once
      or before the older pages first. */
  lemma {:induction false} AppendedAssoc(a: seq<Message>, b: seq<Message>, c: seq<Message>)
    ensures Appended(a, Appended(b, c)) == Appended(Appended(a, b), c)
    decreases |c|
  {
    if c != [] {
      var front, m := c[..|c| - 1], c[|c| - 1];
      AppendedAssoc(a, b, front);
      var inner := Appended(b, front);
      if HasId(m) && m.id in IdsOf(inner) {
        AppendedIds(b, front);
        AppendedIds(a, b);
        AppendedIds(Appended(a, b), front);
      } else {
        AppendPush(a, inner, m);
      }
    }
  }

  ghost predicate AllNumbered(s: seq<Message>) { forall i :: 0 <= i < |s| ==> HasId(s[i]) }

  lemma IdsAt(s: seq<Message>, i: nat)
    requires i < |s| && HasId(s[i])
    ensures s[i].id in IdsOf(s)
  {
    assert s[i] in s;
  }

  /** What is shown already changes nothing. */
  lemma {:induction false} AppendedSeen(shown: seq<Message>, incoming: seq<Message>)
    requires AllNumbered(incoming) && IdsOf(incoming) <= IdsOf(shown)
    ensures Appended(shown, incoming) == shown
    decreases |incoming|
  {
    if incoming != [] {
      var front, n := incoming[..|incoming| - 1], |incoming| - 1;
      assert incoming == front + [incoming[n]];
      IdsPush(front, incoming[n]);
      AppendedSeen(shown, front);
      IdsAt(incoming, n);
    }
  }

  /** Merging again what a merge began with comes to the same. */
  lemma {:induction false} AppendedAgain(a: seq<Message>, x: seq<Message>, n: nat)
    requires AllNumbered(x) && |a| <= n <= |Appended(a, x)|
    ensures Appended(Appended(a, x)[..n], x) == Appended(a, x)
    decreases |x|
  {
    var t := Appended(a, x);
    if n == |t| {
      assert t[..n] == t;
      AppendedIds(a, x);
      AppendedSeen(t, x);
    } else {
      assert x != [];
      var front := x[..|x| - 1];
      assert t[..n] == Appended(a, front)[..n];
      AppendedAgain(a, front, n);
    }
  }

  /** Messages merged early make no difference if and only if what they gave is a beginning of what comes out. */
  lemma EarlyMakesNoDifferenceExactlyWhen(a: seq<Message>, early: seq<Message>, x: seq<Message>)
    requires AllNumbered(x)
    ensures Appended(a, early + x) == Appended(a, x) <==> Appended(a, early) <= Appended(a, x)
  {
    AppendedConcat(a, early, x);
    var e, t := Appended(a, early), Appended(a, x);
    AppendedKeeps(e, x);
    AppendedKeeps(a, early);
    if e <= t {
      assert t[..|e|] == e;
      AppendedAgain(a, x, |e|);
    }
  }

  /** The messages with an id, in order. */
  function Numbered(s: seq<Message>): seq<Message>
  {
    if s == [] then []
    else Numbered(s[..|s| - 1]) + if HasId(s[|s| - 1]) then [s[|s| - 1]] else []
  }

  lemma {:induction false} NumberedFacts(s: seq<Message>)
    ensures AllNumbered(Numbered(s)) && IdsOf(Numbered(s)) == IdsOf(s)
    ensures AllNumbered(s) ==> Numbered(s) == s
    decreases |s|
  {
    if s != [] {
      var front, m := s[..|s| - 1], s[|s| - 1];
      assert s == front + [m];
      NumberedFacts(front);
      IdsPush(front, m);
      IdsPush(Numbered(front), m);
    }
  }

  lemma NumberedPush(s: seq<Message>, m: Message)
    ensures Numbered(s + [m]) == Numbered(s) + if HasId(m) then [m] else []
  {
    assert (s + [m])[..|s|] == s;
  }

  lemma {:induction false} NumberedConcat(a: seq<Message>, b: seq<Message>)
    ensures Numbered(a + b) == Numbered(a) + Numbered(b)
    decreases |b|
  {
    if b == [] {
      assert a + b == a;
    } else {
      NumberedConcat(a, b[..|b| - 1]);
      assert (a + b)[..|a + b| - 1] == a + b[..|b| - 1] && (a + b)[|a + b| - 1] == b[|b| - 1];
    }
  }

  /** Messages without an id do not affect how the others are merged. */
  lemma {:induction false} NumberedAppended(a: seq<Message>, b: seq<Message>)
    ensures Numbered(Appended(a, b)) == Appended(Numbered(a), Numbered(b))
    decreases |b|
  {
    if b != [] {
      var front, m := b[..|b| - 1], b[|b| - 1];
      NumberedAppended(a, front);
      NumberedFacts(Appended(a, front));
      NumberedPush(Appended(a, front), m);
      if HasId(m) {
        AppendPush(Numbered(a), Numbered(front), m);
      } else {
        assert Numbered(b) == Numbered(front);
      }
    }
  }
}
