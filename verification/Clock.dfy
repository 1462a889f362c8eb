/** UTC instants with nanosecond precision, as civil fields, and their RFC 3339 text. */
module Clock {
  import opened Text
  import opened Digits

  datatype Timestamp = Timestamp(year: int, month: int, day: int, hour: int, minute: int, second: int, nano: int)

  /** Go's zero `time.Time`. */
  const ZERO := Timestamp(1, 1, 1, 0, 0, 0, 0)

  predicate LeapYear(y: int) { y % 4 == 0 && (y % 100 != 0 || y % 400 == 0) }

  function DaysIn(y: int, m: int): int
  {
    if m == 2 then (if LeapYear(y) then 29 else 28)
    else if m == 4 || m == 6 || m == 9 || m == 11 then 30
    else 31
  }

  predicate ValidTime(t: Timestamp)
  {
    && 1 <= t.month <= 12 && 1 <= t.day <= DaysIn(t.year, t.month)
    && 0 <= t.hour < 24 && 0 <= t.minute < 60 && 0 <= t.second < 60 && 0 <= t.nano < 1_000_000_000
  }

  /** The years JSON can carry; any other makes `json.Marshal` fail. */
  predicate Printable(t: Timestamp) { ValidTime(t) && 0 <= t.year <= 9999 }

  lemma Powers()
    ensures Pow10(2) == 100 && Pow10(4) == 10_000 && Pow10(9) == 1_000_000_000
  {
    assert Pow10(3) == 1000 && Pow10(5) == 100_000 && Pow10(6) == 1_000_000;
    assert Pow10(7) == 10_000_000 && Pow10(8) == 100_000_000;
  }

  /** The decimals of n / 10^width without trailing zeros. */
  function Decimals(n: int, width: nat): (s: string)
    requires 0 < n < Pow10(width)
    ensures 0 < |s| <= width && AllDigits(s)
  {
    if n % 10 == 0 then Decimals(n / 10, width - 1) else Fixed(n, width)
  }

  function Zeros(n: nat): (s: string)
    ensures |s| == n && AllDigits(s)
  {
    if n == 0 then "" else Zeros(n - 1) + "0"
  }

  lemma {:induction false} PaddedDecimals(n: int, width: nat)
    requires 0 < n < Pow10(width)
    ensures Decimals(n, width) + Zeros(width - |Decimals(n, width)|) == Fixed(n, width)
  {
    var d := Decimals(n, width);
    if n % 10 == 0 {
      PaddedDecimals(n / 10, width - 1);
      assert d + Zeros(width - |d|) == d + Zeros(width - 1 - |d|) + "0";
    } else {
      assert d + "" == d;
    }
  }

  function Seconds(t: Timestamp): (s: string)
    requires Printable(t)
    ensures |s| == 19
  {
    Powers();
    Fixed(t.year, 4) + "-" + Fixed(t.month, 2) + "-" + Fixed(t.day, 2) + "T" +
    Fixed(t.hour, 2) + ":" + Fixed(t.minute, 2) + ":" + Fixed(t.second, 2)
  }

  function Fraction(nano: int): (s: string)
    requires 0 <= nano < 1_000_000_000
    ensures |s| <= 10
  {
    Powers();
    if nano == 0 then "" else "." + Decimals(nano, 9)
  }

  /** `time.RFC3339Nano` in UTC. */
  function Format(t: Timestamp): (s: string)
    requires Printable(t)
    ensures 20 <= |s| <= 30
  {
    Seconds(t) + (Fraction(t.nano) + "Z")
  }

  function ParseField(s: string, from: nat, width: nat): Option<int>
    requires from + width <= |s|
  {
    var d := s[from..from + width];
    if forall i :: 0 <= i < width ==> IsDigit(d[i]) then Some(Value(d)) else None
  }

  function ParseFraction(s: string): Option<int>
  {
    if s == "" then Some(0)
    else if s[0] == '.' && 2 <= |s| <= 10 then
      ParseField(s[1..] + Zeros(10 - |s|), 0, 9)
    else None
  }

  /** Reads the text `Format` writes; other offsets than Z are refused. */
  function Parse(s: string): Option<Timestamp>
  {
    if |s| < 20 || s[4] != '-' || s[7] != '-' || s[10] != 'T' || s[13] != ':' || s[16] != ':' || s[|s| - 1] != 'Z'
    then None
    else
      var year :- ParseField(s, 0, 4);
      var month :- ParseField(s, 5, 2);
      var day :- ParseField(s, 8, 2);
      var hour :- ParseField(s, 11, 2);
      var minute :- ParseField(s, 14, 2);
      var second :- ParseField(s, 17, 2);
      var nano :- ParseFraction(s[19..|s| - 1]);
      var t := Timestamp(year, month, day, hour, minute, second, nano);
      if ValidTime(t) then Some(t) else None
  }

  lemma FieldOk(s: string, from: nat, n: int, width: nat)
    requires from + width <= |s| && 0 <= n < Pow10(width) && s[from..from + width] == Fixed(n, width)
    ensures ParseField(s, from, width) == Some(n)
  {
    ValueOfFixed(n, width);
  }

  lemma FractionOk(nano: int)
    requires 0 <= nano < 1_000_000_000
    ensures ParseFraction(Fraction(nano)) == Some(nano)
  {
    Powers();
    if nano > 0 {
      PaddedDecimals(nano, 9);
      var d := Decimals(nano, 9);
      assert ("." + d)[1..] == d;
      var padded := d + Zeros(9 - |d|);
      assert padded[0..9] == padded;
      FieldOk(padded, 0, nano, 9);
    }
  }

  lemma SecondsParts(t: Timestamp)
    requires Printable(t)
    ensures Pow10(2) == 100 && Pow10(4) == 10_000
    ensures var s := Seconds(t);
            && s[0..4] == Fixed(t.year, 4) && s[5..7] == Fixed(t.month, 2) && s[8..10] == Fixed(t.day, 2)
            && s[11..13] == Fixed(t.hour, 2) && s[14..16] == Fixed(t.minute, 2) && s[17..19] == Fixed(t.second, 2)
            && s[4] == '-' && s[7] == '-' && s[10] == 'T' && s[13] == ':' && s[16] == ':'
  {
    Powers();
  }

  lemma PrefixFields(s: string, rest: string, from: nat, until: nat)
    requires from <= until <= |s|
    ensures (s + rest)[from..until] == s[from..until]
  {
  }

  predicate Spells(f: string, t: Timestamp)
  {
    && |f| >= 20 && f[4] == '-' && f[7] == '-' && f[10] == 'T' && f[13] == ':' && f[16] == ':' && f[|f| - 1] == 'Z'
    && ParseField(f, 0, 4) == Some(t.year) && ParseField(f, 5, 2) == Some(t.month) && ParseField(f, 8, 2) == Some(t.day)
    && ParseField(f, 11, 2) == Some(t.hour) && ParseField(f, 14, 2) == Some(t.minute) && ParseField(f, 17, 2) == Some(t.second)
    && ParseFraction(f[19..|f| - 1]) == Some(t.nano)
  }

  lemma DateSpelled(t: Timestamp, s: string, rest: string)
    requires Printable(t) && s == Seconds(t)
    ensures var f := s + rest;
            && ParseField(f, 0, 4) == Some(t.year) && ParseField(f, 5, 2) == Some(t.month)
            && ParseField(f, 8, 2) == Some(t.day)
  {
    SecondsParts(t);
    PrefixFields(s, rest, 0, 4);
    PrefixFields(s, rest, 5, 7);
    PrefixFields(s, rest, 8, 10);
    FieldOk(s + rest, 0, t.year, 4);
    FieldOk(s + rest, 5, t.month, 2);
    FieldOk(s + rest, 8, t.day, 2);
  }

  lemma TimeSpelled(t: Timestamp, s: string, rest: string)
    requires Printable(t) && s == Seconds(t)
    ensures var f := s + rest;
            && ParseField(f, 11, 2) == Some(t.hour) && ParseField(f, 14, 2) == Some(t.minute)
            && ParseField(f, 17, 2) == Some(t.second)
  {
    SecondsParts(t);
    PrefixFields(s, rest, 11, 13);
    PrefixFields(s, rest, 14, 16);
    PrefixFields(s, rest, 17, 19);
    FieldOk(s + rest, 11, t.hour, 2);
    FieldOk(s + rest, 14, t.minute, 2);
    FieldOk(s + rest, 17, t.second, 2);
  }

  lemma FormatSpells(t: Timestamp)
    requires Printable(t)
    ensures Spells(Format(t), t)
  {
    var s, f, rest := Seconds(t), Format(t), Fraction(t.nano) + "Z";
    SecondsParts(t);
    DateSpelled(t, s, rest);
    TimeSpelled(t, s, rest);
    FractionOk(t.nano);
    assert f[19..|f| - 1] == Fraction(t.nano);
  }

  lemma SpelledIsRead(f: string, t: Timestamp)
    requires Printable(t) && Spells(f, t)
    ensures Parse(f) == Some(t)
  {
  }

  lemma RoundTrip(t: Timestamp)
    requires Printable(t)
    ensures Parse(Format(t)) == Some(t)
  {
    FormatSpells(t);
    SpelledIsRead(Format(t), t);
  }

  /** The text is made of digits and the five separators. */
  lemma FormatRunes(t: Timestamp)
    requires Printable(t)
    ensures forall i :: 0 <= i < |Format(t)| ==> IsDigit(Format(t)[i]) || Format(t)[i] in "-:T.Z"
  {
    Powers();
  }
}
