/** The read loop's treatment of incoming frames (backend/client.go, backend/message.go). */
module Frames {
  import opened Text
  import opened Clock
  import opened Messages

  const MAX_USERNAME_RUNES := 64
  const MAX_MESSAGE_RUNES := 4000
  const USERNAME := "username"

  /** Who is connected; only the name of an unauthenticated client can change. */
  datatype Profile = Profile(room: string, username: string, userID: string, authenticated: bool)

  /** The decoded JSON frame. The fields left out are overwritten before any use. */
  datatype Frame = Frame(kind: string, content: string, id: int, timestamp: Timestamp)

  /** One frame, what the rate limiter answers if asked, and what storage answers if asked. */
  datatype Input = Input(frame: Frame, allowed: bool, saved: Option<Saved>)

  datatype Reason = IdentityOverride | InvalidUsername | InvalidBody | RateLimited

  datatype Outcome = Renamed(name: string) | Rejected(reason: Reason) | Ingested(message: Message)

  predicate ValidUsername(s: string) { s != "" && |s| <= MAX_USERNAME_RUNES }

  predicate ValidBody(s: string) { s != "" && |s| <= MAX_MESSAGE_RUNES }

  function Handle(p: Profile, i: Input): Outcome
  {
    var f := i.frame;
    if f.kind == USERNAME then
      if p.authenticated then Rejected(IdentityOverride)
      else if !ValidUsername(TrimSpace(f.content)) then Rejected(InvalidUsername)
      else Renamed(TrimSpace(f.content))
    else
      var body := TrimSpace(f.content);
      if !ValidBody(body) then Rejected(InvalidBody)
      else if !i.allowed then Rejected(RateLimited)
      else Ingested(WithSaved(Message(f.id, p.userID, p.username, body, CHAT, p.room, f.timestamp), i.saved))
  }

  function After(p: Profile, o: Outcome): Profile
  {
    if o.Renamed? then p.(username := o.name) else p
  }

  /** What every chat message that leaves the read loop satisfies. */
  ghost predicate WellFormedChat(p: Profile, m: Message)
  {
    && m.kind == CHAT && m.userID == p.userID && m.room == p.room
    && Trimmed(m.content) && 1 <= |m.content| <= MAX_MESSAGE_RUNES
  }

  /** A connected client's mutable side. */
  class Reader {
    const room: string
    const userID: string
    const authenticated: bool
    var username: string

    constructor (p: Profile)
      ensures Current() == p
    {
      room, userID, authenticated, username := p.room, p.userID, p.authenticated, p.username;
    }

    function Current(): Profile
      reads this
    {
      Profile(room, username, userID, authenticated)
    }

    /** One turn of the read loop. */
    method ReadFrame(i: Input) returns (o: Outcome)
      modifies this`username
      ensures o == Handle(old(Current()), i)
      ensures Current() == After(old(Current()), o)
    {
      var body := TrimSpace(i.frame.content);
      if i.frame.kind == USERNAME {
        if authenticated {
          return Rejected(IdentityOverride);
        }
        if !ValidUsername(body) {
          return Rejected(InvalidUsername);
        }
        username := body;
        return Renamed(body);
      }
      if !ValidBody(body) {
        return Rejected(InvalidBody);
      }
      if !i.allowed {
        return Rejected(RateLimited);
      }
      var m := Message(i.frame.id, userID, username, body, CHAT, room, i.frame.timestamp);
      if i.saved.Some? {
        m := m.(id := i.saved.value.id, timestamp := i.saved.value.timestamp);
      }
      return Ingested(m);
    }

    /** The whole loop: one outcome per frame, whatever the frames, the limiter and storage do. */
    method ReadMessages(inputs: seq<Input>) returns (outcomes: seq<Outcome>)
      modifies this`username
      ensures Current() == ProfileAfter(old(Current()), inputs)
      ensures |outcomes| == |inputs|
      ensures forall k :: 0 <= k < |inputs| ==> outcomes[k] == OutcomeAt(old(Current()), inputs, k)
    {
      outcomes := [];
      for n := 0 to |inputs|
        invariant |outcomes| == n
        invariant Current() == ProfileAfter(old(Current()), inputs[..n])
        invariant forall k :: 0 <= k < n ==> outcomes[k] == OutcomeAt(old(Current()), inputs, k)
      {
        assert inputs[..n + 1][..n] == inputs[..n];
        var o := ReadFrame(inputs[n]);
        outcomes := outcomes + [o];
      }
      assert inputs[..|inputs|] == inputs;
    }
  }

  /** The profile after a sequence of frames. */
  function ProfileAfter(p: Profile, inputs: seq<Input>): Profile
  {
    if inputs == [] then p
    else
      var before := ProfileAfter(p, inputs[..|inputs| - 1]);
      After(before, Handle(before, inputs[|inputs| - 1]))
  }

  function OutcomeAt(p: Profile, inputs: seq<Input>, k: nat): Outcome
    requires k < |inputs|
  {
    Handle(ProfileAfter(p, inputs[..k]), inputs[k])
  }

  /** The first frame, then the others. */
  lemma {:induction false} ProfileAfterFirst(p: Profile, i: Input, rest: seq<Input>)
    ensures ProfileAfter(p, [i] + rest) == ProfileAfter(After(p, Handle(p, i)), rest)
    decreases |rest|
  {
    if rest == [] {
      assert [i] + rest == [i] && [i][..0] == [];
    } else {
      ProfileAfterFirst(p, i, rest[..|rest| - 1]);
      assert ([i] + rest)[..|rest|] == [i] + rest[..|rest| - 1];
    }
  }

  /** Over any frames: room, user id and the authenticated flag never change, an authenticated
      client keeps its name, and any other name was set by a trimmed, valid rename. */
  lemma {:induction false} IdentityIsFixed(p: Profile, inputs: seq<Input>)
    ensures var q := ProfileAfter(p, inputs);
            && q.room == p.room && q.userID == p.userID && q.authenticated == p.authenticated
            && (p.authenticated ==> q == p)
            && (q.username == p.username || (Trimmed(q.username) && ValidUsername(q.username)))
  {
    if inputs != [] {
      IdentityIsFixed(p, inputs[..|inputs| - 1]);
    }
  }

  /** Every chat message published in any frame sequence has the type "message", a trimmed body of
      1 to 4000 runes, and the room and user id fixed when the client connected. */
  lemma PublishedIsWellFormed(p: Profile, inputs: seq<Input>, k: nat)
    requires k < |inputs| && OutcomeAt(p, inputs, k).Ingested?
    ensures WellFormedChat(p, OutcomeAt(p, inputs, k).message)
    ensures p.authenticated ==> OutcomeAt(p, inputs, k).message.username == p.username
  {
    IdentityIsFixed(p, inputs[..k]);
  }

  /** A published message is the frame's text without the space around it, under the name the client has at that frame,
      with the id and the time of the row if it was saved and of the frame if not. */
  lemma PublishedIsTheFrame(p: Profile, inputs: seq<Input>, k: nat) returns (i: nat, j: nat)
    requires k < |inputs| && OutcomeAt(p, inputs, k).Ingested?
    ensures var (f, m, saved) := (inputs[k].frame, OutcomeAt(p, inputs, k).message, inputs[k].saved);
            && IsCore(f.content, i, j) && m.content == f.content[i..j]
            && m.username == ProfileAfter(p, inputs[..k]).username
            && (saved.Some? ==> m.id == saved.value.id && m.timestamp == saved.value.timestamp)
            && (saved.None? ==> m.id == f.id && m.timestamp == f.timestamp)
  {
    i, j := TrimSpaceIsCore(inputs[k].frame.content);
  }

  /** A new name is the frame's text without the space around it. */
  lemma RenameIsTheFrame(p: Profile, inputs: seq<Input>, k: nat) returns (i: nat, j: nat)
    requires k < |inputs| && OutcomeAt(p, inputs, k).Renamed?
    ensures var f := inputs[k].frame; IsCore(f.content, i, j) && OutcomeAt(p, inputs, k).name == f.content[i..j]
  {
    i, j := TrimSpaceIsCore(inputs[k].frame.content);
  }

  /** The name a client has is the one of its last rename, or the one it came with. */
  lemma {:induction false} NameIsTheLastRename(p: Profile, inputs: seq<Input>, k: nat)
    requires k <= |inputs| && forall j :: k <= j < |inputs| ==> !OutcomeAt(p, inputs, j).Renamed?
    ensures k == 0 ==> ProfileAfter(p, inputs).username == p.username
    ensures k > 0 && OutcomeAt(p, inputs, k - 1).Renamed? ==>
              ProfileAfter(p, inputs).username == OutcomeAt(p, inputs, k - 1).name
    decreases |inputs|
  {
    if inputs != [] {
      var front := inputs[..|inputs| - 1];
      forall j | 0 <= j < |front| ensures OutcomeAt(p, front, j) == OutcomeAt(p, inputs, j) {
        assert front[..j] == inputs[..j];
      }
      if k < |inputs| {
        assert !OutcomeAt(p, inputs, |inputs| - 1).Renamed?;
        NameIsTheLastRename(p, front, k);
      }
    }
  }

  /** Which frames lead to which outcome, each condition stated on the input alone. */
  lemma OutcomeConditions(p: Profile, i: Input)
    ensures var f, body := i.frame, TrimSpace(i.frame.content);
            && (Handle(p, i).Renamed? <==> f.kind == USERNAME && !p.authenticated && 1 <= |body| <= 64)
            && (Handle(p, i).Ingested? <==> f.kind != USERNAME && 1 <= |body| <= 4000 && i.allowed)
            && (Handle(p, i) == Rejected(IdentityOverride) <==> f.kind == USERNAME && p.authenticated)
            && (Handle(p, i) == Rejected(InvalidUsername) <==> f.kind == USERNAME && !p.authenticated && !(1 <= |body| <= 64))
            && (Handle(p, i) == Rejected(InvalidBody) <==> f.kind != USERNAME && !(1 <= |body| <= 4000))
            && (Handle(p, i) == Rejected(RateLimited) <==> f.kind != USERNAME && 1 <= |body| <= 4000 && !i.allowed)
  {
  }

  predicate Durable(m: Message) { m.id > 0 && m.timestamp != ZERO }

  /** A message is published even when its save failed, and then with the id and time that came in the
      frame. So a published message looks durable exactly when the save succeeded with a durable row
      or the frame itself carried a positive id and a time. */
  lemma LooksDurableExactlyWhen(p: Profile, i: Input)
    requires Handle(p, i).Ingested?
    ensures Durable(Handle(p, i).message) <==>
            if i.saved.Some? then i.saved.value.id > 0 && i.saved.value.timestamp != ZERO
            else i.frame.id > 0 && i.frame.timestamp != ZERO
  {
  }

  /** Publication does not imply persistence: a concrete frame whose save fails. */
  lemma UnsavedMessageCanLookDurable()
    ensures var p := Profile("general", "ann", "", false);
            var i := Input(Frame(CHAT, "hi", 7, Timestamp(2026, 8, 6, 10, 0, 0, 0)), true, None);
            Handle(p, i).Ingested? && Durable(Handle(p, i).message)
  {
    assert Trimmed("hi");
  }
}
