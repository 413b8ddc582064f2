/** The `formatTime` helper of the session card: a count of seconds rendered as
    `HH:MM:SS`, each field the decimal digits of its value left-padded with '0'
    to width 2 (`padStart(2, '0')`, which never truncates a longer field). */
module TimeFormat {

  predicate IsDigit(c: char) {
    '0' <= c <= '9'
  }

  predicate AllDigits(s: string) {
    forall i :: 0 <= i < |s| ==> IsDigit(s[i])
  }

  function DigitValue(c: char): (d: nat)
    requires IsDigit(c)
    ensures d < 10
  {
    c as int - '0' as int
  }

  function DigitChar(d: nat): (c: char)
    requires d < 10
    ensures IsDigit(c) && DigitValue(c) == d
  {
    "0123456789"[d]
  }

  /** The value of a string of decimal digits, most significant first
      (the empty string reads as 0). */
  function ParseDecimal(s: string): nat
    requires AllDigits(s)
  {
    if s == [] then 0
    else 10 * ParseDecimal(s[..|s| - 1]) + DigitValue(s[|s| - 1])
  }

  /** `n.toString()` for a non-negative integer: decimal digits, no leading zero
      except for 0 itself, and reading the digits back gives `n`. */
  function ToDecimal(n: nat): (r: string)
    ensures |r| >= 1 && AllDigits(r)
    ensures r[0] == '0' ==> n == 0
    ensures ParseDecimal(r) == n
  {
    if n < 10 then [DigitChar(n)]
    else
      var r := ToDecimal(n / 10) + [DigitChar(n % 10)];
      assert r[..|r| - 1] == ToDecimal(n / 10);
      r
  }

  /** Values below 100 take at most two digits, and only those do. */
  lemma {:induction false} ToDecimalAtMostTwo(n: nat)
    ensures |ToDecimal(n)| <= 2 <==> n < 100
  {
    if n >= 10 {
      var q := n / 10;
      assert ToDecimal(n) == ToDecimal(q) + [DigitChar(n % 10)];
      if n < 100 {
        assert q < 10;
      } else {
        assert q >= 10;
        assert ToDecimal(q) == ToDecimal(q / 10) + [DigitChar(q % 10)];
      }
    }
  }

  /** `s.padStart(width, fill)`: `s` itself when it is already long enough,
      otherwise `s` preceded by as many `fill` characters as are missing. */
  function PadStart(s: string, width: nat, fill: char): (r: string)
    ensures |r| == if |s| < width then width else |s|
    ensures r[|r| - |s|..] == s
    ensures forall i :: 0 <= i < |r| - |s| ==> r[i] == fill
  {
    if |s| >= width then s else seq(width - |s|, _ => fill) + s
  }

  /** `formatTime(seconds)`: the result always has the shape of a clock
      reading; `FormatTimeReadsBack` and `FormatTimeLength` state what its
      fields hold and how long it is. */
  function FormatTime(seconds: nat): (r: string)
    ensures IsClock(r)
  {
    var hh := PadStart(ToDecimal(seconds / 3600), 2, '0');
    var mm := PadStart(ToDecimal(seconds % 3600 / 60), 2, '0');
    var ss := PadStart(ToDecimal(seconds % 60), 2, '0');
    PaddedField(seconds / 3600);
    PaddedField(seconds % 3600 / 60);
    PaddedField(seconds % 60);
    ClockOfFields(hh, mm, ss);
    hh + ":" + mm + ":" + ss
  }

  /** A string with the shape of a clock reading: an hours field of at least
      two digits, then ':', two digits of minutes, ':', two digits of seconds. */
  predicate IsClock(t: string) {
    |t| >= 8 && t[|t| - 6] == ':' && t[|t| - 3] == ':' &&
    AllDigits(t[..|t| - 6]) && AllDigits(t[|t| - 5..|t| - 3]) && AllDigits(t[|t| - 2..])
  }

  function HoursField(t: string): nat
    requires IsClock(t)
  {
    ParseDecimal(t[..|t| - 6])
  }

  function MinutesField(t: string): nat
    requires IsClock(t)
  {
    ParseDecimal(t[|t| - 5..|t| - 3])
  }

  function SecondsField(t: string): nat
    requires IsClock(t)
  {
    ParseDecimal(t[|t| - 2..])
  }

  lemma {:induction false} ParseZeros(k: nat)
    ensures AllDigits(seq(k, _ => '0'))
    ensures ParseDecimal(seq(k, _ => '0')) == 0
  {
    if k > 0 {
      ParseZeros(k - 1);
      assert seq(k, _ => '0')[..k - 1] == seq(k - 1, _ => '0');
    }
  }

  /** Leading zeros do not change the value of a digit string. */
  lemma {:induction false} ParseLeadingZeros(k: nat, s: string)
    requires AllDigits(s)
    ensures AllDigits(seq(k, _ => '0') + s)
    ensures ParseDecimal(seq(k, _ => '0') + s) == ParseDecimal(s)
  {
    var z := seq(k, _ => '0');
    if s == [] {
      assert z + s == z;
      ParseZeros(k);
    } else {
      var init := s[..|s| - 1];
      ParseLeadingZeros(k, init);
      assert (z + s)[..|z + s| - 1] == z + init;
    }
  }

  lemma PadStartZerosValue(s: string, width: nat)
    requires AllDigits(s)
    ensures AllDigits(PadStart(s, width, '0'))
    ensures ParseDecimal(PadStart(s, width, '0')) == ParseDecimal(s)
  {
    if |s| < width {
      ParseLeadingZeros(width - |s|, s);
    }
  }

  /** Three digit fields joined by ':' form a clock reading whose fields are
      exactly those three. */
  lemma ClockOfFields(hh: string, mm: string, ss: string)
    requires |hh| >= 2 && |mm| == 2 && |ss| == 2
    requires AllDigits(hh) && AllDigits(mm) && AllDigits(ss)
    ensures IsClock(hh + ":" + mm + ":" + ss)
    ensures HoursField(hh + ":" + mm + ":" + ss) == ParseDecimal(hh)
    ensures MinutesField(hh + ":" + mm + ":" + ss) == ParseDecimal(mm)
    ensures SecondsField(hh + ":" + mm + ":" + ss) == ParseDecimal(ss)
  {
    var t := hh + ":" + mm + ":" + ss;
    assert t[..|t| - 6] == hh;
    assert t[|t| - 5..|t| - 3] == mm;
    assert t[|t| - 2..] == ss;
  }

  /** A field of the reading: the digits of `v` padded to two places, which
      keep the value and, below 100, take exactly two characters. */
  lemma PaddedField(v: nat)
    ensures AllDigits(PadStart(ToDecimal(v), 2, '0'))
    ensures ParseDecimal(PadStart(ToDecimal(v), 2, '0')) == v
    ensures |PadStart(ToDecimal(v), 2, '0')| >= 2
    ensures |PadStart(ToDecimal(v), 2, '0')| == 2 <==> v < 100
  {
    ToDecimalAtMostTwo(v);
    PadStartZerosValue(ToDecimal(v), 2);
  }

  /** Splitting a count into hours, minutes and seconds loses nothing. */
  lemma ClockArithmetic(seconds: nat)
    ensures seconds % 3600 / 60 < 60 && seconds % 60 < 60
    ensures seconds / 3600 * 3600 + seconds % 3600 / 60 * 60 + seconds % 60 == seconds
  {
    var r := seconds % 3600;
    assert seconds == seconds / 3600 * 3600 + r;
    assert r == r / 60 * 60 + r % 60;
    assert r % 60 == seconds % 60 by {
      assert seconds == (seconds / 3600 * 60 + r / 60) * 60 + r % 60;
    }
  }

  /** Reading the three fields back gives the input: the hours field has at
      least two characters, minutes and seconds have exactly two and range over
      0..59, and hours * 3600 + minutes * 60 + seconds is the count formatted. */
  lemma FormatTimeReadsBack(seconds: nat)
    ensures IsClock(FormatTime(seconds))
    ensures MinutesField(FormatTime(seconds)) < 60
    ensures SecondsField(FormatTime(seconds)) < 60
    ensures HoursField(FormatTime(seconds)) * 3600 + MinutesField(FormatTime(seconds)) * 60
            + SecondsField(FormatTime(seconds)) == seconds
  {
    var h, m, s := seconds / 3600, seconds % 3600 / 60, seconds % 60;
    ClockArithmetic(seconds);
    PaddedField(h);
    PaddedField(m);
    PaddedField(s);
    ClockOfFields(PadStart(ToDecimal(h), 2, '0'), PadStart(ToDecimal(m), 2, '0'), PadStart(ToDecimal(s), 2, '0'));
  }

  /** Formatting is one-to-one: distinct counts never render alike. */
  lemma FormatTimeInjective(a: nat, b: nat)
    requires FormatTime(a) == FormatTime(b)
    ensures a == b
  {
    FormatTimeReadsBack(a);
    FormatTimeReadsBack(b);
  }

  /** The reading is exactly eight characters long precisely below 100 hours;
      from 100 hours on the hours field is not truncated and the reading grows. */
  lemma FormatTimeLength(seconds: nat)
    ensures |FormatTime(seconds)| == 8 <==> seconds < 360000
  {
    PaddedField(seconds / 3600);
    PaddedField(seconds % 3600 / 60);
    PaddedField(seconds % 60);
  }
}
