/** Who may sign in and which rooms they may enter (backend/internal/auth/session.go, `normalizePrincipal`). */
module Principals {
  import opened Text
  import opened Rooms
  import opened Seqs
  import opened Envelopes

  const MAX_NAME_RUNES := 64
  const MAX_ROOMS_PER_USER := 64

  datatype Template = Template(userID: string, displayName: string, rooms: seq<string>)

  /** The normal form of one configured room; a blank room is refused instead of becoming the default room. */
  function Grant(raw: string): Option<string>
  {
    if TrimSpace(raw) == "" then None
    else
      match NormalizeRoom(raw)
      case Err(_) => None
      case Ok(room) => Some(room)
  }

  function AddRoom(rooms: seq<string>, room: string): seq<string>
  {
    if room in rooms then rooms else rooms + [room]
  }

  /** The images in the order of their first occurrence, if all of them exist. */
  function Collect(grant: string -> Option<string>, raws: seq<string>): Option<seq<string>>
  {
    if raws == [] then Some([])
    else
      var before :- Collect(grant, raws[..|raws| - 1]);
      var room :- grant(raws[|raws| - 1]);
      Some(AddRoom(before, room))
  }

  function NormalRooms(raws: seq<string>): Option<seq<string>> { Collect(Grant, raws) }

  function Normalize(userID: string, displayName: string, rooms: seq<string>): Option<Template>
  {
    var id, name := TrimSpace(userID), TrimSpace(displayName);
    if !ValidUserID(id) || name == "" || |name| > MAX_NAME_RUNES || |rooms| == 0 || |rooms| > MAX_ROOMS_PER_USER then None
    else
      var normal :- NormalRooms(rooms);
      Some(Template(id, name, normal))
  }

  lemma {:induction false} RefusedStaysRefused(grant: string -> Option<string>, raws: seq<string>, i: nat)
    requires i <= |raws| && Collect(grant, raws[..i]).None?
    ensures Collect(grant, raws).None?
    decreases |raws|
  {
    if i == |raws| {
      assert raws[..i] == raws;
    } else {
      assert raws[..|raws| - 1][..i] == raws[..i];
      RefusedStaysRefused(grant, raws[..|raws| - 1], i);
    }
  }

  method NormalizePrincipal(userID: string, displayName: string, rooms: seq<string>) returns (r: Option<Template>)
    ensures r == Normalize(userID, displayName, rooms)
  {
    var id := TrimSpace(userID);
    if !ValidUserID(id) {
      return None;
    }
    var name := TrimSpace(displayName);
    if name == "" || |name| > MAX_NAME_RUNES {
      return None;
    }
    if |rooms| == 0 || |rooms| > MAX_ROOMS_PER_USER {
      return None;
    }
    var normalized: seq<string> := [];
    var seen: set<string> := {};
    for i := 0 to |rooms|
      invariant Collect(Grant, rooms[..i]) == Some(normalized)
      invariant forall x :: x in seen <==> x in normalized
    {
      assert rooms[..i + 1][..i] == rooms[..i] && rooms[..i + 1][i] == rooms[i];
      var room := Grant(rooms[i]);
      if room.None? {
        RefusedStaysRefused(Grant, rooms, i + 1);
        return None;
      }
      if room.value in seen {
        continue;
      }
      seen := seen + {room.value};
      normalized := normalized + [room.value];
    }
    assert rooms[..|rooms|] == rooms;
    return Some(Template(id, name, normalized));
  }

  // ---------------------------------------------------------------- what normalisation yields

  ghost predicate CanonicalRooms(rooms: seq<string>)
  {
    Distinct(rooms) && forall i :: 0 <= i < |rooms| ==> CanonicalRoom(rooms[i])
  }

  ghost predicate WellFormed(t: Template)
  {
    && ValidUserID(t.userID) && Trimmed(t.displayName) && 1 <= |t.displayName| <= 64
    && 1 <= |t.rooms| <= 64 && CanonicalRooms(t.rooms)
  }

  lemma GrantIsCanonical(raw: string)
    ensures Grant(raw).Some? ==> CanonicalRoom(Grant(raw).value)
    ensures CanonicalRoom(raw) ==> Grant(raw) == Some(raw)
  {
    if CanonicalRoom(raw) {
      CanonicalIsFixed(raw);
      assert RoomStart(raw[0]) && !IsSpace(raw[0]);
    }
  }

  lemma {:induction false} CollectedAreImages(grant: string -> Option<string>, raws: seq<string>)
    requires Collect(grant, raws).Some?
    ensures var rooms := Collect(grant, raws).value;
            Distinct(rooms) && |rooms| <= |raws| && (raws != [] ==> rooms != [])
    ensures forall room :: room in Collect(grant, raws).value <==> exists i :: 0 <= i < |raws| && grant(raws[i]) == Some(room)
    ensures forall i :: 0 <= i < |raws| ==> grant(raws[i]).Some?
    decreases |raws|
  {
    if raws != [] {
      var front := raws[..|raws| - 1];
      CollectedAreImages(grant, front);
      assert raws == front + [raws[|raws| - 1]];
    }
  }

  /** The grants are exactly the normal forms of the configured rooms. */
  lemma GrantedExactlyWhen(raws: seq<string>, room: string)
    requires NormalRooms(raws).Some?
    ensures room in NormalRooms(raws).value <==> exists i :: 0 <= i < |raws| && NormalizeRoom(raws[i]) == Ok(room)
  {
    CollectedAreImages(Grant, raws);
    forall i | 0 <= i < |raws| ensures Grant(raws[i]) == Some(room) <==> NormalizeRoom(raws[i]) == Ok(room) {
      assert Grant(raws[i]).Some?;
    }
  }

  lemma NormalRoomsAreCanonical(raws: seq<string>)
    requires NormalRooms(raws).Some?
    ensures CanonicalRooms(NormalRooms(raws).value) && |NormalRooms(raws).value| <= |raws|
    ensures raws != [] ==> NormalRooms(raws).value != []
  {
    CollectedAreImages(Grant, raws);
    var rooms := NormalRooms(raws).value;
    forall k | 0 <= k < |rooms| ensures CanonicalRoom(rooms[k]) {
      assert rooms[k] in rooms;
      var i :| 0 <= i < |raws| && Grant(raws[i]) == Some(rooms[k]);
      GrantIsCanonical(raws[i]);
    }
  }

  lemma {:induction false} CollectFixed(grant: string -> Option<string>, rooms: seq<string>)
    requires Distinct(rooms) && forall i :: 0 <= i < |rooms| ==> grant(rooms[i]) == Some(rooms[i])
    ensures Collect(grant, rooms) == Some(rooms)
    decreases |rooms|
  {
    if rooms != [] {
      var front, last := rooms[..|rooms| - 1], rooms[|rooms| - 1];
      CollectFixed(grant, front);
      assert rooms == front + [last] && last !in front;
    }
  }

  lemma CanonicalRoomsAreFixed(rooms: seq<string>)
    requires CanonicalRooms(rooms)
    ensures NormalRooms(rooms) == Some(rooms)
  {
    forall i | 0 <= i < |rooms| ensures Grant(rooms[i]) == Some(rooms[i]) {
      GrantIsCanonical(rooms[i]);
    }
    CollectFixed(Grant, rooms);
  }

  /** Normalisation fixes exactly the well-formed principals, and everything it yields is one. */
  lemma NormalizeFixesExactlyWellFormed(t: Template)
    ensures Normalize(t.userID, t.displayName, t.rooms) == Some(t) <==> WellFormed(t)
  {
    if WellFormed(t) {
      WellFormedIsFixed(t);
    } else if Normalize(t.userID, t.displayName, t.rooms) == Some(t) {
      NormalizedIsWellFormed(t.userID, t.displayName, t.rooms);
    }
  }

  lemma WellFormedIsFixed(t: Template)
    requires WellFormed(t)
    ensures Normalize(t.userID, t.displayName, t.rooms) == Some(t)
  {
    CanonicalRoomsAreFixed(t.rooms);
    UserIDIsTrimmed(t.userID);
  }

  lemma UserIDIsTrimmed(s: string)
    requires ValidUserID(s)
    ensures TrimSpace(s) == s
  {
    IdentifiersAccepted(s);
  }

  lemma NormalizedIsWellFormed(userID: string, displayName: string, rooms: seq<string>)
    requires Normalize(userID, displayName, rooms).Some?
    ensures WellFormed(Normalize(userID, displayName, rooms).value)
  {
    NormalRoomsAreCanonical(rooms);
  }

  /** The grants of a beginning of the list are a beginning of the grants. */
  lemma {:induction false} GrantsKeepOrder(grant: string -> Option<string>, raws: seq<string>, n: nat)
    requires n <= |raws| && Collect(grant, raws).Some?
    ensures Collect(grant, raws[..n]).Some? && Collect(grant, raws[..n]).value <= Collect(grant, raws).value
    decreases |raws|
  {
    if n == |raws| {
      assert raws[..n] == raws;
    } else {
      var front := raws[..|raws| - 1];
      assert front[..n] == raws[..n];
      GrantsKeepOrder(grant, front, n);
    }
  }

  lemma {:induction false} CollectExactlyWhen(grant: string -> Option<string>, raws: seq<string>)
    ensures Collect(grant, raws).Some? <==> forall i :: 0 <= i < |raws| ==> grant(raws[i]).Some?
    decreases |raws|
  {
    if raws != [] {
      var front := raws[..|raws| - 1];
      CollectExactlyWhen(grant, front);
      assert raws == front + [raws[|raws| - 1]];
    }
  }

  /** A room can be granted exactly when its name is not blank and has a normal form. */
  lemma GrantableExactlyWhen(raw: string, room: string)
    ensures Grant(raw) == Some(room) <==> !Blank(raw) && NormalizeRoom(raw) == Ok(room)
  {
  }

  ghost predicate IsTrimOf(raw: string, core: string) { exists i: nat, j: nat :: IsCore(raw, i, j) && core == raw[i..j] }

  lemma TrimIsTrimOf(raw: string, core: string)
    requires core != ""
    ensures IsTrimOf(raw, core) <==> core == TrimSpace(raw)
  {
    var a, b := TrimSpaceIsCore(raw);
    if IsTrimOf(raw, core) {
      var i: nat, j: nat :| IsCore(raw, i, j) && core == raw[i..j];
      CoreIsUnique(raw, i, j);
    }
  }

  /** Which credentials make a principal, and which one: the user id and the name without the space around them, one to
      a hundred and twenty-eight and one to sixty-four runes long, and one to sixty-four rooms that can all be granted. */
  lemma NormalizesExactlyWhen(userID: string, displayName: string, rooms: seq<string>, t: Template)
    ensures Normalize(userID, displayName, rooms) == Some(t) <==>
            && ValidUserID(t.userID) && IsTrimOf(userID, t.userID)
            && 1 <= |t.displayName| <= 64 && IsTrimOf(displayName, t.displayName)
            && 1 <= |rooms| <= 64 && NormalRooms(rooms) == Some(t.rooms)
  {
    if t.userID != "" {
      TrimIsTrimOf(userID, t.userID);
    }
    if t.displayName != "" {
      TrimIsTrimOf(displayName, t.displayName);
    }
  }
}
