/** Results and the parts of Go's `strings` package that validation relies on.
    A string is a sequence of runes. */
module Text {

  datatype Option<+T> = None | Some(value: T) {
    predicate IsFailure() { None? }

    function PropagateFailure<U>(): Option<U>
      requires None?
    {
      None
    }

    function Extract(): T
      requires Some?
    {
      value
    }
  }

  datatype Result<+T, +E> = Ok(value: T) | Err(error: E)

  /** The runes `strings.TrimSpace` strips. */
  predicate IsSpace(c: char)
  {
    var n := c as int;
    9 <= n <= 13 || n == 0x20 || n == 0x85 || n == 0xA0 || n == 0x1680 ||
    0x2000 <= n <= 0x200A || n == 0x2028 || n == 0x2029 || n == 0x202F || n == 0x205F || n == 0x3000
  }

  function TrimLeft(s: string): string
  {
    if s != [] && IsSpace(s[0]) then TrimLeft(s[1..]) else s
  }

  function TrimRight(s: string): string
  {
    if s != [] && IsSpace(s[|s| - 1]) then TrimRight(s[..|s| - 1]) else s
  }

  function TrimSpace(s: string): (r: string)
    ensures Trimmed(r)
    ensures Trimmed(s) ==> r == s
    ensures r == "" <==> Blank(s)
  {
    TrimLeftFacts(s);
    TrimRightFacts(TrimLeft(s));
    TrimRight(TrimLeft(s))
  }

  predicate Blank(s: string) { forall i :: 0 <= i < |s| ==> IsSpace(s[i]) }

  lemma {:induction false} TrimLeftFacts(s: string)
    ensures var r := TrimLeft(s); if r == "" then Blank(s) else !IsSpace(r[0]) && !Blank(s)
    decreases |s|
  {
    if s != [] && IsSpace(s[0]) {
      TrimLeftFacts(s[1..]);
      assert s == [s[0]] + s[1..];
    }
  }

  lemma {:induction false} TrimRightFacts(s: string)
    ensures var r := TrimRight(s); r <= s && if r == "" then Blank(s) else !IsSpace(r[|r| - 1]) && !Blank(s)
    decreases |s|
  {
    if s != [] && IsSpace(s[|s| - 1]) {
      TrimRightFacts(s[..|s| - 1]);
      assert s == s[..|s| - 1] + [s[|s| - 1]];
    }
  }

  /** `s[i..j]` is what is left of `s` without the space around it. */
  ghost predicate IsCore(s: string, i: nat, j: nat)
  {
    i <= j <= |s| && Blank(s[..i]) && Blank(s[j..]) && Trimmed(s[i..j])
  }

  lemma {:induction false} TrimLeftSlice(s: string) returns (i: nat)
    ensures i <= |s| && TrimLeft(s) == s[i..] && Blank(s[..i])
    decreases |s|
  {
    if s != [] && IsSpace(s[0]) {
      var k := TrimLeftSlice(s[1..]);
      i := k + 1;
      assert s[1..][..k] == s[1..i] && s[..i] == [s[0]] + s[1..i];
    } else {
      i := 0;
    }
  }

  lemma {:induction false} TrimRightSlice(s: string) returns (j: nat)
    ensures j <= |s| && TrimRight(s) == s[..j] && Blank(s[j..])
    decreases |s|
  {
    if s != [] && IsSpace(s[|s| - 1]) {
      var front := s[..|s| - 1];
      j := TrimRightSlice(front);
      assert s[j..] == front[j..] + [s[|s| - 1]];
    } else {
      j := |s|;
    }
  }

  /** Trimming takes nothing but the space around the text. */
  lemma TrimSpaceIsCore(s: string) returns (i: nat, j: nat)
    ensures IsCore(s, i, j) && TrimSpace(s) == s[i..j]
  {
    i := TrimLeftSlice(s);
    var k := TrimRightSlice(s[i..]);
    j := i + k;
    assert s[i..][..k] == s[i..j] && s[i..][k..] == s[j..];
    assert TrimSpace(s) == s[i..j];
  }

  lemma CoreBounds(s: string, i: nat, j: nat)
    requires IsCore(s, i, j) && i < j
    ensures !IsSpace(s[i]) && !IsSpace(s[j - 1]) && forall k :: 0 <= k < i || j <= k < |s| ==> IsSpace(s[k])
  {
    var core := s[i..j];
    assert core[0] == s[i] && core[|core| - 1] == s[j - 1];
    forall k | 0 <= k < i || j <= k < |s| ensures IsSpace(s[k]) {
      if k < i {
        assert s[..i][k] == s[k];
      } else {
        assert s[j..][k - j] == s[k];
      }
    }
  }

  /** And only one stretch of a text that is not blank is that. */
  lemma CoreIsUnique(s: string, i: nat, j: nat)
    requires IsCore(s, i, j) && i < j
    ensures TrimSpace(s) == s[i..j]
  {
    var a, b := TrimSpaceIsCore(s);
    CoreBounds(s, i, j);
    assert !Blank(s);
    CoreBounds(s, a, b);
  }

  /** No leading and no trailing space: the fixed points of `TrimSpace`. */
  predicate Trimmed(s: string)
  {
    s != [] ==> !IsSpace(s[0]) && !IsSpace(s[|s| - 1])
  }

  /** `unicode.ToLower`, exact on every rune whose image is ASCII. Two runes outside ASCII have an
      ASCII image (the Kelvin sign and the dotted capital I). The image of any other rune outside
      ASCII stays outside ASCII, which every caller here rejects, so it is left unchanged. */
  function LowerRune(c: char): (r: char)
  {
    if 'A' <= c <= 'Z' then ((c as int) + 32) as char
    else if c == '\U{212A}' then 'k'
    else if c == '\U{0130}' then 'i'
    else c
  }

  function ToLower(s: string): (r: string)
    ensures |r| == |s|
    ensures forall i :: 0 <= i < |s| ==> r[i] == LowerRune(s[i])
  {
    seq(|s|, i requires 0 <= i < |s| => LowerRune(s[i]))
  }

  const UPPER_CASE := "ABCDEFGHIJKLMNOPQRSTUVWXYZ"
  const LOWER_CASE := "abcdefghijklmnopqrstuvwxyz"
  const NUMERALS := "0123456789"

  lemma UpperTable(c: char)
    ensures c in UPPER_CASE <==> 'A' <= c <= 'Z'
  {
    if 'A' <= c <= 'Z' {
      assert UPPER_CASE[c as int - 'A' as int] == c;
    }
  }

  lemma LowerTable(c: char)
    ensures c in LOWER_CASE <==> IsLower(c)
  {
    if IsLower(c) {
      assert LOWER_CASE[c as int - 'a' as int] == c;
    }
  }

  lemma NumeralTable(c: char)
    ensures c in NUMERALS <==> IsDigit(c)
  {
    if IsDigit(c) {
      assert NUMERALS[c as int - '0' as int] == c;
    }
  }

  /** Letter by letter, on ASCII. */
  lemma LowerRuneTable(c: char)
    requires c as int < 0x80
    ensures |UPPER_CASE| == |LOWER_CASE| == 26
    ensures forall i :: 0 <= i < 26 ==> LowerRune(UPPER_CASE[i]) == LOWER_CASE[i]
    ensures c !in UPPER_CASE ==> LowerRune(c) == c
  {
  }

  /** The class of runes that compare equal under `strings.EqualFold`, exact on ASCII
      and on the two runes outside ASCII that fold to an ASCII letter. */
  function FoldRune(c: char): (r: char)
  {
    if 'A' <= c <= 'Z' then ((c as int) + 32) as char
    else if c == '\U{212A}' then 'k'
    else if c == '\U{017F}' then 's'
    else c
  }

  predicate EqualFold(a: string, b: string)
  {
    |a| == |b| && forall i :: 0 <= i < |a| ==> FoldRune(a[i]) == FoldRune(b[i])
  }

  predicate IsLower(c: char) { 'a' <= c <= 'z' }

  predicate IsDigit(c: char) { '0' <= c <= '9' }

  predicate IsLetter(c: char) { 'a' <= c <= 'z' || 'A' <= c <= 'Z' }

  /** The spaces of ASCII. */
  lemma SpaceTable(c: char)
    requires c as int < 0x80
    ensures IsSpace(c) <==> c in " \t\n\r" || c as int == 11 || c as int == 12
  {
  }

  /** `r` is the part of `raw` without the space around it, in small letters. */
  ghost predicate IsLoweredCore(raw: string, i: nat, j: nat, r: string)
  {
    IsCore(raw, i, j) && i < j && |r| == j - i && forall k :: 0 <= k < |r| ==> r[k] == LowerRune(raw[i + k])
  }

  lemma LoweredCore(raw: string, room: string)
    requires room == ToLower(TrimSpace(raw))
    ensures !Blank(raw) ==> exists i, j :: IsLoweredCore(raw, i, j, room)
  {
    var i, j := TrimSpaceIsCore(raw);
    if !Blank(raw) {
      assert IsLoweredCore(raw, i, j, room);
    }
  }

  /** A text that is not blank has exactly one lower-cased core, the one `ToLower` and `TrimSpace` give. */
  lemma LoweredCoreExactlyWhen(raw: string, r: string)
    ensures (exists i, j :: IsLoweredCore(raw, i, j, r)) <==> !Blank(raw) && r == ToLower(TrimSpace(raw))
  {
    if exists i, j :: IsLoweredCore(raw, i, j, r) {
      var i, j :| IsLoweredCore(raw, i, j, r);
      CoreIsUnique(raw, i, j);
      CoreBounds(raw, i, j);
    } else {
      LoweredCore(raw, ToLower(TrimSpace(raw)));
    }
  }
}
