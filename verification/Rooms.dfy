/** Canonical room names (backend/db/database.go). */
module Rooms {
  import opened Text

  const DEFAULT_ROOM := "general"
  const MAX_ROOM_RUNES := 32

  datatype RoomError = TooLong | BadStart | BadRune

  predicate RoomStart(c: char) { IsLower(c) || IsDigit(c) }

  predicate RoomRune(c: char) { IsLower(c) || IsDigit(c) || c == '_' || c == '-' }

  /** The names that can be stored, granted, put in a cursor or in a channel name. */
  predicate CanonicalRoom(room: string)
  {
    0 < |room| <= MAX_ROOM_RUNES && RoomStart(room[0]) && forall i :: 0 < i < |room| ==> RoomRune(room[i])
  }

  function NormalizeRoom(raw: string): (r: Result<string, RoomError>)
    ensures r.Ok? ==> CanonicalRoom(r.value)
  {
    var room := ToLower(TrimSpace(raw));
    if room == "" then Ok(DEFAULT_ROOM)
    else if |room| > MAX_ROOM_RUNES then Err(TooLong)
    else if !RoomStart(room[0]) then Err(BadStart)
    else if exists i :: 0 < i < |room| && !RoomRune(room[i]) then Err(BadRune)
    else Ok(room)
  }

  /** The canonical names are those of one to thirty-two small letters, digits, hyphens and underscores that start with
      a letter or a digit. */
  lemma CanonicalExactlyWhen(room: string)
    ensures CanonicalRoom(room) <==>
            && 1 <= |room| <= 32 && room[0] in LOWER_CASE + NUMERALS
            && forall i :: 0 <= i < |room| ==> room[i] in LOWER_CASE + NUMERALS + "_-"
  {
    forall i | 0 <= i < |room|
      ensures RoomStart(room[i]) <==> room[i] in LOWER_CASE + NUMERALS
      ensures RoomRune(room[i]) <==> room[i] in LOWER_CASE + NUMERALS + "_-"
    {
      RuneTable(room[i]);
    }
  }

  lemma RuneTable(c: char)
    ensures RoomStart(c) <==> c in LOWER_CASE + NUMERALS
    ensures RoomRune(c) <==> c in LOWER_CASE + NUMERALS + "_-"
  {
    LowerTable(c);
    NumeralTable(c);
    assert c in LOWER_CASE + NUMERALS <==> c in LOWER_CASE || c in NUMERALS;
    assert c in LOWER_CASE + NUMERALS + "_-" <==> c in LOWER_CASE + NUMERALS || c == '_' || c == '-';
  }

  /** What every name becomes: a blank one the default room, any other its lower-cased core, if that is canonical;
      everything else is refused. */
  lemma NormalizesExactlyWhen(raw: string, r: string)
    ensures NormalizeRoom(raw) == Ok(r) <==>
            || (Blank(raw) && r == "general")
            || (CanonicalRoom(r) && exists i, j :: IsLoweredCore(raw, i, j, r))
  {
    var room := ToLower(TrimSpace(raw));
    LoweredCoreExactlyWhen(raw, r);
    if !Blank(raw) && CanonicalRoom(room) {
      assert forall i :: 0 < i < |room| ==> RoomRune(room[i]);
    }
  }

  /** Normalisation fixes exactly the canonical names, so it is idempotent. */
  lemma NormalizeFixesExactlyCanonical(room: string)
    ensures NormalizeRoom(room) == Ok(room) <==> CanonicalRoom(room)
    ensures NormalizeRoom(room).Ok? ==> NormalizeRoom(NormalizeRoom(room).value) == NormalizeRoom(room)
  {
    if CanonicalRoom(room) {
      CanonicalIsFixed(room);
    }
    if NormalizeRoom(room).Ok? {
      CanonicalIsFixed(NormalizeRoom(room).value);
    }
  }

  lemma CanonicalIsFixed(room: string)
    requires CanonicalRoom(room)
    ensures NormalizeRoom(room) == Ok(room)
  {
    assert forall i :: 0 <= i < |room| ==> RoomRune(room[i]) && !IsSpace(room[i]);
    assert ToLower(room) == room;
  }

  /** Case folding cannot identify two different canonical names. */
  lemma EqualFoldOnCanonicalIsEquality(a: string, b: string)
    requires CanonicalRoom(a) && CanonicalRoom(b)
    ensures EqualFold(a, b) <==> a == b
  {
    assert forall i :: 0 <= i < |a| ==> RoomRune(a[i]);
    assert forall i :: 0 <= i < |b| ==> RoomRune(b[i]);
    if EqualFold(a, b) {
      assert forall i :: 0 <= i < |a| ==> a[i] == b[i];
    }
  }
}
