/** The text primitives the two clock formatters are built from: the decimal
    rendering of an integral JavaScript number, two-character zero padding,
    and the split of a number of seconds into hours, minutes and seconds. */
module ClockText {
  import opened Wrappers

  /** Hours, minutes and seconds of a clock reading. */
  datatype Clock = Clock(hours: int, minutes: int, seconds: int)

  /** The number of seconds a reading stands for. */
  function Seconds(c: Clock): int
  {
    c.hours * 3600 + c.minutes * 60 + c.seconds
  }

  /** `h = floor(n / 3600)`, `m = floor((n % 3600) / 60)`, `s = n % 60` for a
      non-negative `n`: the only reading with minutes and seconds below 60
      that stands for `n`. */
  function Split(n: nat): (c: Clock)
    ensures c.hours >= 0 && 0 <= c.minutes < 60 && 0 <= c.seconds < 60
    ensures Seconds(c) == n
  {
    Clock(n / 3600, (n % 3600) / 60, n % 60)
  }

  /** Division by 3600 with remainder is unique. */
  lemma DivMod3600(q: int, r: int)
    requires 0 <= r < 3600
    ensures (q * 3600 + r) / 3600 == q && (q * 3600 + r) % 3600 == r
  {
  }

  /** Division by 60 with remainder is unique. */
  lemma DivMod60(q: int, r: int)
    requires 0 <= r < 60
    ensures (q * 60 + r) / 60 == q && (q * 60 + r) % 60 == r
  {
  }

  /** A reading with minutes and seconds in range is recovered from the
      seconds it stands for. */
  lemma SplitRecovers(c: Clock)
    requires c.hours >= 0 && 0 <= c.minutes < 60 && 0 <= c.seconds < 60
    ensures Split(Seconds(c)) == c
  {
    var ms := c.minutes * 60 + c.seconds;
    DivMod60(c.minutes, c.seconds);
    DivMod3600(c.hours, ms);
    DivMod60(c.hours * 60 + c.minutes, c.seconds);
    assert Seconds(c) == c.hours * 3600 + ms == (c.hours * 60 + c.minutes) * 60 + c.seconds;
  }

  // ---------------------------------------------------------------------
  // Decimal digits

  predicate IsDigit(ch: char)
  {
    '0' <= ch <= '9'
  }

  predicate AllDigits(s: string)
  {
    forall i :: 0 <= i < |s| ==> IsDigit(s[i])
  }

  function DigitChar(d: int): (ch: char)
    requires 0 <= d < 10
    ensures IsDigit(ch) && ch as int - '0' as int == d
  {
    ['0', '1', '2', '3', '4', '5', '6', '7', '8', '9'][d]
  }

  /** The value of a string of decimal digits read left to right; the
      reference the renderings below are checked against. */
  function DigitsValue(s: string): nat
    requires AllDigits(s)
  {
    if s == [] then 0
    else DigitsValue(s[..|s| - 1]) * 10 + (s[|s| - 1] as int - '0' as int)
  }

  /** `n.toString()` for a non-negative integral number: its canonical
      decimal digits, with no leading zero. */
  function NatToString(n: nat): (s: string)
    ensures |s| >= 1 && AllDigits(s)
    ensures n < 10 <==> |s| == 1
    ensures n < 100 <==> |s| <= 2
    ensures n > 0 ==> s[0] != '0'
  {
    if n < 10 then [DigitChar(n)] else NatToString(n / 10) + [DigitChar(n % 10)]
  }

  /** `n.toString()` for any integral number: a minus sign before the
      digits of its magnitude. */
  function IntToString(n: int): (s: string)
    ensures |s| >= 1
    ensures (s[0] == '-') <==> n < 0
    ensures n >= 0 ==> s == NatToString(n)
    ensures n < 0 ==> s[1..] == NatToString(-n)
  {
    if n < 0 then "-" + NatToString(-n) else NatToString(n)
  }

  /** `s.padStart(2, '0')`. */
  function PadStart2(s: string): (r: string)
    ensures |r| == if |s| < 2 then 2 else |s|
    ensures r[|r| - |s|..] == s
    ensures forall i :: 0 <= i < |r| - |s| ==> r[i] == '0'
  {
    if |s| == 0 then "00" + s
    else if |s| == 1 then "0" + s
    else s
  }

  /** The two-digit-or-more field a clock shows for a non-negative number. */
  function Field(n: nat): string
  {
    PadStart2(NatToString(n))
  }

  lemma {:induction false} NatToStringValue(n: nat)
    ensures DigitsValue(NatToString(n)) == n
  {
    var s := NatToString(n);
    if n >= 10 {
      NatToStringValue(n / 10);
      assert s[..|s| - 1] == NatToString(n / 10);
    }
  }

  lemma {:induction false} LeadingZeroValue(s: string)
    requires AllDigits(s)
    ensures AllDigits("0" + s) && DigitsValue("0" + s) == DigitsValue(s)
  {
    var z := "0" + s;
    if s != [] {
      assert z[..|z| - 1] == "0" + s[..|s| - 1];
      LeadingZeroValue(s[..|s| - 1]);
    } else {
      assert z[..|z| - 1] == [];
    }
  }

  /** A field is a string of at least two digits whose value is the
      number; below 100 it is exactly two digits. */
  lemma FieldReads(n: nat)
    ensures |Field(n)| >= 2 && AllDigits(Field(n)) && DigitsValue(Field(n)) == n
    ensures n < 100 <==> |Field(n)| == 2
  {
    var s := NatToString(n);
    NatToStringValue(n);
    if |s| == 1 {
      LeadingZeroValue(s);
    }
  }

  // ---------------------------------------------------------------------
  // Reading a clock back

  /** The reference reading of `HH:MM:SS`, with an hours part of two or more
      digits and exactly two digits for minutes and seconds. */
  function ReadClock(r: string): (c: Option<Clock>)
  {
    var n := |r|;
    if n >= 8 && r[n - 6] == ':' && r[n - 3] == ':' &&
       AllDigits(r[..n - 6]) && AllDigits(r[n - 5..n - 3]) && AllDigits(r[n - 2..])
    then Some(Clock(DigitsValue(r[..n - 6]), DigitsValue(r[n - 5..n - 3]), DigitsValue(r[n - 2..])))
    else None
  }

  /** Where the three parts of `a:b:d` sit when the last two are two
      characters long. */
  lemma JoinedParts(a: string, b: string, d: string)
    requires |b| == 2 && |d| == 2
    ensures var r := a + ":" + b + ":" + d; var n := |r|;
      n == |a| + 6 && r[..n - 6] == a && r[n - 6] == ':' && r[n - 3] == ':' &&
      r[n - 5..n - 3] == b && r[n - 2..] == d
  {
    var r := a + ":" + b + ":" + d;
    var n := |r|;
    assert r[..n - 6] == a;
    assert r[n - 5..n - 3] == b;
    assert r[n - 2..] == d;
  }

  /** Three digit strings joined by colons read back as their values. */
  lemma ReadParts(a: string, b: string, d: string)
    requires AllDigits(a) && AllDigits(b) && AllDigits(d)
    requires |a| >= 2 && |b| == 2 && |d| == 2
    ensures ReadClock(a + ":" + b + ":" + d) ==
      Some(Clock(DigitsValue(a), DigitsValue(b), DigitsValue(d)))
  {
    JoinedParts(a, b, d);
  }

  /** Three fields joined by colons read back as the numbers they show. */
  lemma ReadJoined(c: Clock)
    requires c.hours >= 0 && 0 <= c.minutes < 60 && 0 <= c.seconds < 60
    ensures var r := Field(c.hours) + ":" + Field(c.minutes) + ":" + Field(c.seconds);
      ReadClock(r) == Some(c) && |r| == |Field(c.hours)| + 6
  {
    FieldReads(c.hours);
    FieldReads(c.minutes);
    FieldReads(c.seconds);
    ReadParts(Field(c.hours), Field(c.minutes), Field(c.seconds));
  }
}
