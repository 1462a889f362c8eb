/** The memory of broker events (backend/hub.go, `rememberBrokerEvent`): a set and a list of at most
    4096 ids, first in first out. */
module Dedupe {
  import opened Seqs

  const MAX_SEEN_EVENTS := 4096

  /** `accepted` is every id accepted so far, in order; an id is new when the last 4096 do not hold it. */
  predicate IsNew(accepted: seq<string>, id: string) { id !in Last(accepted, MAX_SEEN_EVENTS) }

  function Remember(accepted: seq<string>, id: string): seq<string>
  {
    if IsNew(accepted, id) then accepted + [id] else accepted
  }

  /** Two acceptances of one id have at least 4096 others between them. */
  ghost predicate Spaced(accepted: seq<string>)
  {
    forall i, j :: 0 <= i < j < |accepted| && accepted[i] == accepted[j] ==> j - i > MAX_SEEN_EVENTS
  }

  /** An id is accepted again exactly when at least 4096 fresh ids were accepted after each earlier acceptance of it. */
  lemma NewExactlyWhen(accepted: seq<string>, id: string)
    ensures IsNew(accepted, id) <==>
            forall i :: 0 <= i < |accepted| && accepted[i] == id ==> |accepted| - i > 4096
  {
  }

  lemma RememberKeepsSpaced(accepted: seq<string>, id: string)
    requires Spaced(accepted)
    ensures Spaced(Remember(accepted, id))
  {
    NewExactlyWhen(accepted, id);
  }

  /** The ids accepted out of a sequence of offers. */
  function Accepted(offers: seq<string>): seq<string>
  {
    if offers == [] then [] else Remember(Accepted(offers[..|offers| - 1]), offers[|offers| - 1])
  }

  function Elements(s: seq<string>): set<string> { set x | x in s }

  lemma ElementsPush(s: seq<string>, x: string)
    ensures Elements(s + [x]) == Elements(s) + {x}
  {
  }

  lemma {:induction false} DistinctCount(s: seq<string>)
    requires Distinct(s)
    ensures |Elements(s)| == |s|
    decreases |s|
  {
    if s != [] {
      var front, x := s[..|s| - 1], s[|s| - 1];
      assert s == front + [x];
      DistinctCount(front);
      ElementsPush(front, x);
    }
  }

  /** Dedupe is exact while it is big enough: of offers that hold at most 4096 different ids, in any order
      and however often repeated, each id is accepted exactly once. */
  lemma {:induction false} FewIdsAreAcceptedOnce(offers: seq<string>)
    requires |Elements(offers)| <= 4096
    ensures Distinct(Accepted(offers)) && Elements(Accepted(offers)) == Elements(offers)
    decreases |offers|
  {
    if offers != [] {
      var front, x := offers[..|offers| - 1], offers[|offers| - 1];
      assert offers == front + [x];
      ElementsPush(front, x);
      SubsetSize(Elements(front), Elements(offers));
      FewIdsAreAcceptedOnce(front);
      DistinctCount(Accepted(front));
      ElementsPush(Accepted(front), x);
    }
  }

  lemma {:induction false} SubsetSize(a: set<string>, b: set<string>)
    requires a <= b
    ensures |a| <= |b|
    decreases |a|
  {
    if x :| x in a {
      SubsetSize(a - {x}, b - {x});
    }
  }

  /** The cache as the hub holds it. */
  class SeenEvents {
    var seenEvents: set<string>
    var seenEventIDs: seq<string>
    ghost var accepted: seq<string>

    /** The list is the last 4096 accepted ids, without duplicates, and the set holds exactly its elements. */
    ghost predicate Valid()
      reads this
    {
      && seenEventIDs == Last(accepted, MAX_SEEN_EVENTS)
      && Distinct(seenEventIDs)
      && (forall id :: id in seenEvents <==> id in seenEventIDs)
    }

    constructor ()
      ensures Valid() && accepted == []
    {
      seenEvents, seenEventIDs, accepted := {}, [], [];
    }

    method RememberBrokerEvent(id: string) returns (isNew: bool)
      requires Valid()
      modifies this
      ensures Valid()
      ensures isNew == IsNew(old(accepted), id) && accepted == Remember(old(accepted), id)
    {
      if id in seenEvents {
        return false;
      }
      seenEvents := seenEvents + {id};
      seenEventIDs := seenEventIDs + [id];
      accepted := accepted + [id];
      if |seenEventIDs| > MAX_SEEN_EVENTS {
        var oldest := seenEventIDs[0];
        assert oldest !in seenEventIDs[1..];
        assert forall x :: x in seenEventIDs <==> x == oldest || x in seenEventIDs[1..];
        seenEventIDs := seenEventIDs[1..];
        seenEvents := seenEvents - {oldest};
      }
      return true;
    }
  }
}
