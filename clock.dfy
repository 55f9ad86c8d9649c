/** The elapsed-time display "mm:ss" of the game (script.js:158-161 and
    script.js:169-172): whole minutes and remaining seconds of the timer,
    each written in decimal and left-padded with '0' to at least two
    characters. */
module Clock {

  /** Splits a number of seconds into (minutes, seconds): `Math.floor(t / 60)`
      and `t % 60`, which agree with Dafny's division for t >= 0. */
  function SplitTime(t: nat): (ms: (nat, nat))
    ensures ms.1 < 60
    ensures ms.0 * 60 + ms.1 == t
  {
    (t / 60, t % 60)
  }

  predicate IsDigit(c: char)
  {
    '0' <= c <= '9'
  }

  predicate AllDigits(s: string)
  {
    forall i :: 0 <= i < |s| ==> IsDigit(s[i])
  }

  function DigitChar(d: nat): (c: char)
    requires d < 10
    ensures IsDigit(c) && DigitValue(c) == d
  {
    (48 + d) as char
  }

  function DigitValue(c: char): (d: nat)
    requires IsDigit(c)
    ensures d < 10
  {
    c as int - 48
  }

  /** `String(n)` for a non-negative integer: its decimal digits, without
      leading zeros. */
  function Decimal(n: nat): (s: string)
    ensures 1 <= |s| && AllDigits(s)
    ensures |s| == 1 <==> n < 10
    ensures n >= 10 ==> s[0] != '0'
  {
    if n < 10 then [DigitChar(n)] else Decimal(n / 10) + [DigitChar(n % 10)]
  }

  /** `s.padStart(2, '0')`: '0's put in front until the length is 2; a
      string of length 2 or more is left alone. */
  function PadStart2(s: string): (r: string)
    ensures |r| == if |s| < 2 then 2 else |s|
    ensures r[|r| - |s|..] == s
    ensures forall i :: 0 <= i < |r| - |s| ==> r[i] == '0'
  {
    if |s| < 2 then seq(2 - |s|, _ => '0') + s else s
  }

  /** `r` is a display of `minutes` and `seconds`: at least two digits
      whose value is the minutes, with no leading zero beyond the two, a
      colon, and exactly two digits whose value is the seconds. */
  predicate TimeText(r: string, minutes: nat, seconds: nat)
  {
    && |r| >= 5 && r[|r| - 3] == ':'
    && AllDigits(r[..|r| - 3]) && AllDigits(r[|r| - 2..])
    && ParseDecimal(r[..|r| - 3]) == minutes && ParseDecimal(r[|r| - 2..]) == seconds
    && (|r| > 5 ==> r[0] != '0')
  }

  /** The "mm:ss" text shown for a timer value: the whole minutes and the
      remaining seconds; below 100 minutes it is five characters long. */
  function FormatTime(t: nat): (r: string)
    ensures TimeText(r, t / 60, t % 60)
    ensures t < 6000 ==> |r| == 5
  {
    var (minutes, seconds) := SplitTime(t);
    assert minutes == t / 60 && seconds == t % 60;
    TimeFields(minutes, seconds);
    Colon(Field(minutes), Field(seconds))
  }

  /** The two fields of the display, joined: each reads back to its number,
      and below 100 minutes the text is five characters long. */
  lemma TimeFields(minutes: nat, seconds: nat)
    requires seconds < 60
    ensures TimeText(Colon(Field(minutes), Field(seconds)), minutes, seconds)
    ensures minutes < 100 ==> |Colon(Field(minutes), Field(seconds))| == 5
  {
    TwoDigitsAtMost(seconds);
    FieldValue(minutes);
    FieldValue(seconds);
    if minutes < 100 {
      TwoDigitsAtMost(minutes);
    }
    LeadingDigit(minutes, Field(seconds));
  }

  /** A minutes field longer than two characters is `String(minutes)`
      itself, so the joined text does not start with '0'. */
  lemma LeadingDigit(minutes: nat, ss: string)
    requires |ss| == 2
    ensures var r := Colon(Field(minutes), ss); |r| > 5 ==> r[0] != '0'
  {
    var mm := Field(minutes);
    if |mm| > 2 {
      assert mm == Decimal(minutes);
      assert Colon(mm, ss)[0] == mm[0];
    }
  }

  /** One field of the display: `String(n).padStart(2, '0')`. */
  function Field(n: nat): (f: string)
    ensures AllDigits(f)
    ensures |f| == if |Decimal(n)| < 2 then 2 else |Decimal(n)|
  {
    PadStart2(Decimal(n))
  }

  /** The display of a timer that never ticked. */
  lemma FormatZero()
    ensures FormatTime(0) == "00:00"
  {
    assert Field(0) == "00" by {
      assert Decimal(0) == "0";
    }
  }

  /** A minutes field and a two-character seconds field joined by a colon;
      the fields are recovered from the last three positions. */
  function Colon(mm: string, ss: string): (r: string)
    requires |ss| == 2
    ensures |r| == |mm| + 3
    ensures r[..|r| - 3] == mm && r[|r| - 3] == ':' && r[|r| - 2..] == ss
  {
    mm + ":" + ss
  }

  /** A number below 100 has at most two decimal digits. */
  lemma TwoDigitsAtMost(n: nat)
    requires n < 100
    ensures |Decimal(n)| <= 2
  {
    if n >= 10 {
      assert |Decimal(n / 10)| == 1;
    }
  }

  /** The value of a string of decimal digits (leading zeros allowed). */
  function ParseDecimal(s: string): nat
    requires AllDigits(s)
  {
    if s == [] then 0 else 10 * ParseDecimal(s[..|s| - 1]) + DigitValue(s[|s| - 1])
  }

  /** Reads a timer value back from its "mm:ss" text. */
  function ParseTime(r: string): nat
    requires |r| >= 3 && AllDigits(r[..|r| - 3]) && AllDigits(r[|r| - 2..])
  {
    ParseDecimal(r[..|r| - 3]) * 60 + ParseDecimal(r[|r| - 2..])
  }

  /** Reading the decimal text of `n` gives `n` back. */
  lemma {:induction false} ParseDecimalOfDecimal(n: nat)
    ensures ParseDecimal(Decimal(n)) == n
  {
    var s := Decimal(n);
    if n >= 10 {
      ParseDecimalOfDecimal(n / 10);
      assert s[..|s| - 1] == Decimal(n / 10);
    }
  }

  /** Leading zeros do not change the value of a digit string. */
  lemma {:induction false} LeadingZeros(z: string, s: string)
    requires forall i :: 0 <= i < |z| ==> z[i] == '0'
    requires AllDigits(s)
    ensures AllDigits(z + s) && ParseDecimal(z + s) == ParseDecimal(s)
  {
    if s == [] {
      assert z + s == z;
      ZerosParseToZero(z);
    } else {
      assert (z + s)[..|z + s| - 1] == z + s[..|s| - 1];
      LeadingZeros(z, s[..|s| - 1]);
    }
  }

  /** A string of '0's has value 0. */
  lemma {:induction false} ZerosParseToZero(z: string)
    requires forall i :: 0 <= i < |z| ==> z[i] == '0'
    ensures AllDigits(z) && ParseDecimal(z) == 0
  {
    if z != [] {
      ZerosParseToZero(z[..|z| - 1]);
    }
  }

  /** Padding keeps the value of a digit string. */
  lemma PadStart2Value(s: string)
    requires AllDigits(s)
    ensures ParseDecimal(PadStart2(s)) == ParseDecimal(s)
  {
    var r := PadStart2(s);
    LeadingZeros(r[..|r| - |s|], s);
    assert r[..|r| - |s|] + s == r;
  }

  /** A padded field reads back to the number it was written from. */
  lemma FieldValue(n: nat)
    ensures ParseDecimal(Field(n)) == n
  {
    ParseDecimalOfDecimal(n);
    PadStart2Value(Decimal(n));
  }

  /** Reading a joined text gives minutes times 60 plus seconds. */
  lemma ParseColon(mm: string, ss: string)
    requires |ss| == 2 && AllDigits(mm) && AllDigits(ss)
    ensures ParseTime(Colon(mm, ss)) == ParseDecimal(mm) * 60 + ParseDecimal(ss)
  {
  }

  /** The "mm:ss" text determines the timer value: reading it back gives
      the number of seconds that was formatted. */
  lemma FormatTimeRoundTrip(t: nat)
    ensures ParseTime(FormatTime(t)) == t
  {
    var (minutes, seconds) := SplitTime(t);
    TwoDigitsAtMost(seconds);
    FieldValue(minutes);
    FieldValue(seconds);
    var mm, ss := Field(minutes), Field(seconds);
    ParseColon(mm, ss);
    assert FormatTime(t) == Colon(mm, ss);
  }
}
