/**
 * The text shown for a remaining time: whole hours followed by " h" beyond 99
 * hours, "HH:MM:SS" from one hour on, "MM:SS" below one hour. Sub-second parts
 * are dropped. The reader ParseTimer recovers what the text shows.
 */
module TimerFormat {
  import opened NamedTimers

  function Digit(d: nat): (c: char)
    requires d < 10
    ensures '0' <= c <= '9'
  {
    ('0' as int + d) as char
  }

  predicate IsDigit(c: char) {
    '0' <= c <= '9'
  }

  predicate AllDigits(s: string) {
    forall i :: 0 <= i < |s| ==> IsDigit(s[i])
  }

  function DigitValue(c: char): (d: nat)
    requires IsDigit(c)
    ensures d < 10
  {
    c as int - '0' as int
  }

  /** The decimal digits of n, without leading zeros ("{n}"). */
  function Decimal(n: nat): (s: string)
    ensures |s| >= 1 && AllDigits(s)
    ensures n >= 10 ==> |s| >= 2
    decreases n
  {
    if n < 10 then [Digit(n)] else Decimal(n / 10) + [Digit(n % 10)]
  }

  /** Two digits with a leading zero ("{n:D2}" for n below 100). */
  function Pad2(n: nat): (s: string)
    requires n < 100
    ensures |s| == 2 && AllDigits(s)
  {
    [Digit(n / 10), Digit(n % 10)]
  }

  /** The number a string of digits denotes. */
  function DecimalValue(s: string): nat
    requires AllDigits(s)
    decreases |s|
  {
    if s == [] then 0 else DecimalValue(s[..|s| - 1]) * 10 + DigitValue(s[|s| - 1])
  }

  lemma {:induction false} DecimalRoundTrip(n: nat)
    ensures DecimalValue(Decimal(n)) == n
    decreases n
  {
    if n >= 10 {
      DecimalRoundTrip(n / 10);
      var s := Decimal(n);
      assert s[..|s| - 1] == Decimal(n / 10);
    }
  }

  /** The formatted remaining time of a timer, given in ticks. */
  function FormatTimer(remaining: nat): (r: string)
    ensures remaining > 99 * TicksPerHour ==> |r| >= 4 && r[|r| - 2..] == " h"
    ensures TicksPerHour <= remaining <= 99 * TicksPerHour ==> |r| == 8 && r[2] == ':' && r[5] == ':'
    ensures remaining < TicksPerHour ==> |r| == 5 && r[2] == ':'
  {
    var hours := remaining / TicksPerHour;
    var minutes := (remaining / TicksPerMinute) % 60;
    var seconds := (remaining / TicksPerSecond) % 60;
    if remaining > 99 * TicksPerHour then
      Decimal(hours) + " h"
    else if remaining >= TicksPerHour then
      Pad2(hours) + ":" + Pad2(minutes) + ":" + Pad2(seconds)
    else
      Pad2(minutes) + ":" + Pad2(seconds)
  }

  /** What a formatted time shows: a clock reading in whole seconds, or whole hours. */
  datatype Shown = Clock(seconds: nat) | WholeHours(hours: nat)

  /** Two digits at position i. */
  predicate DigitsAt(s: string, i: nat) {
    i + 2 <= |s| && IsDigit(s[i]) && IsDigit(s[i + 1])
  }

  function TwoDigitValue(s: string, i: nat): nat
    requires DigitsAt(s, i)
  {
    DigitValue(s[i]) * 10 + DigitValue(s[i + 1])
  }

  /** Reads a formatted time back. */
  function ParseTimer(s: string): Option<Shown> {
    if |s| >= 3 && s[|s| - 2..] == " h" && AllDigits(s[..|s| - 2]) then
      Some(WholeHours(DecimalValue(s[..|s| - 2])))
    else if |s| == 8 && DigitsAt(s, 0) && s[2] == ':' && DigitsAt(s, 3) && s[5] == ':' && DigitsAt(s, 6) then
      Some(Clock(TwoDigitValue(s, 0) * 3600 + TwoDigitValue(s, 3) * 60 + TwoDigitValue(s, 6)))
    else if |s| == 5 && DigitsAt(s, 0) && s[2] == ':' && DigitsAt(s, 3) then
      Some(Clock(TwoDigitValue(s, 0) * 60 + TwoDigitValue(s, 3)))
    else
      None
  }

  /** What the display promises: whole hours beyond 99 hours, else whole seconds. */
  function Shows(remaining: nat): Shown {
    if remaining > 99 * TicksPerHour then WholeHours(remaining / TicksPerHour)
    else Clock(remaining / TicksPerSecond)
  }

  /**
   * Reading the text back gives the remaining time truncated to whole hours
   * beyond 99 hours and to whole seconds otherwise: nothing else is lost.
   */
  lemma FormatRoundTrip(remaining: nat)
    ensures ParseTimer(FormatTimer(remaining)) == Some(Shows(remaining))
  {
    if remaining > 99 * TicksPerHour {
      HoursRoundTrip(remaining);
    } else if remaining >= TicksPerHour {
      LongClockRoundTrip(remaining);
    } else {
      ShortClockRoundTrip(remaining);
    }
  }

  lemma HoursRoundTrip(remaining: nat)
    requires remaining > 99 * TicksPerHour
    ensures ParseTimer(FormatTimer(remaining)) == Some(WholeHours(remaining / TicksPerHour))
  {
    var r := FormatTimer(remaining);
    var d := Decimal(remaining / TicksPerHour);
    assert r == d + " h";
    assert r[..|r| - 2] == d;
    DecimalRoundTrip(remaining / TicksPerHour);
  }

  lemma LongClockRoundTrip(remaining: nat)
    requires TicksPerHour <= remaining <= 99 * TicksPerHour
    ensures ParseTimer(FormatTimer(remaining)) == Some(Clock(remaining / TicksPerSecond))
  {
    ClockSplit(remaining);
    ParseLongClock(remaining / TicksPerHour, (remaining / TicksPerMinute) % 60, (remaining / TicksPerSecond) % 60);
  }

  lemma ShortClockRoundTrip(remaining: nat)
    requires remaining < TicksPerHour
    ensures ParseTimer(FormatTimer(remaining)) == Some(Clock(remaining / TicksPerSecond))
  {
    ClockSplit(remaining);
    ParseShortClock((remaining / TicksPerMinute) % 60, (remaining / TicksPerSecond) % 60);
  }

  /** "HH:MM:SS" reads back as its three fields. */
  lemma ParseLongClock(h: nat, m: nat, s: nat)
    requires h < 100 && m < 100 && s < 100
    ensures ParseTimer(Pad2(h) + ":" + Pad2(m) + ":" + Pad2(s)) == Some(Clock(h * 3600 + m * 60 + s))
  {
    var r := Pad2(h) + ":" + Pad2(m) + ":" + Pad2(s);
    TwoDigits(h);
    TwoDigits(m);
    TwoDigits(s);
    assert r[|r| - 2..] != " h" by {
      assert r[|r| - 2] == Pad2(s)[0];
    }
    assert r[0] == Pad2(h)[0] && r[1] == Pad2(h)[1];
    assert r[3] == Pad2(m)[0] && r[4] == Pad2(m)[1];
    assert r[6] == Pad2(s)[0] && r[7] == Pad2(s)[1];
  }

  /** "MM:SS" reads back as its two fields. */
  lemma ParseShortClock(m: nat, s: nat)
    requires m < 100 && s < 100
    ensures ParseTimer(Pad2(m) + ":" + Pad2(s)) == Some(Clock(m * 60 + s))
  {
    var r := Pad2(m) + ":" + Pad2(s);
    TwoDigits(m);
    TwoDigits(s);
    assert r[|r| - 2..] != " h" by {
      assert r[|r| - 2] == Pad2(s)[0];
    }
    assert r[0] == Pad2(m)[0] && r[1] == Pad2(m)[1];
    assert r[3] == Pad2(s)[0] && r[4] == Pad2(s)[1];
  }

  /** In both clock forms the minute and the second fields are below 60. */
  lemma ClockFieldsBelowSixty(remaining: nat)
    requires remaining <= 99 * TicksPerHour
    ensures var r := FormatTimer(remaining);
            && DigitsAt(r, |r| - 5) && DigitsAt(r, |r| - 2)
            && TwoDigitValue(r, |r| - 5) < 60 && TwoDigitValue(r, |r| - 2) < 60
  {
    var r := FormatTimer(remaining);
    var minutes := (remaining / TicksPerMinute) % 60;
    var seconds := (remaining / TicksPerSecond) % 60;
    TwoDigits(minutes);
    TwoDigits(seconds);
    var tail := Pad2(minutes) + ":" + Pad2(seconds);
    if remaining >= TicksPerHour {
      ClockSplit(remaining);
      assert r == Pad2(remaining / TicksPerHour) + ":" + tail;
    } else {
      assert r == tail;
    }
    assert r[|r| - 5..] == tail;
    assert r[|r| - 5] == tail[0] && r[|r| - 4] == tail[1];
    assert r[|r| - 2] == tail[3] && r[|r| - 1] == tail[4];
  }

  lemma TwoDigits(n: nat)
    requires n < 100
    ensures DigitsAt(Pad2(n), 0) && TwoDigitValue(Pad2(n), 0) == n
  {
  }

  /** The clock fields of a duration add back up to its whole seconds. */
  lemma ClockSplit(t: nat)
    ensures (t / TicksPerHour) * 3600 + ((t / TicksPerMinute) % 60) * 60 + (t / TicksPerSecond) % 60 == t / TicksPerSecond
    ensures t < TicksPerHour ==> ((t / TicksPerMinute) % 60) * 60 + (t / TicksPerSecond) % 60 == t / TicksPerSecond
    ensures t <= 99 * TicksPerHour ==> t / TicksPerHour < 100
  {
    var s := t / TicksPerSecond;
    var m := t / TicksPerMinute;
    assert m == s / 60;
    assert t / TicksPerHour == m / 60;
  }

  /** More than 99 hours: 100 hours read "100 h". */
  lemma HundredHours()
    ensures FormatTimer(100 * TicksPerHour) == "100 h"
  {
    assert Decimal(100) == "100" by {
      assert Decimal(10) == "10";
    }
  }

  /** The "> 99" test is on fractional hours: 99 h 0 min 1 s already reads "99 h". */
  lemma JustOverNinetyNineHours()
    ensures FormatTimer(99 * TicksPerHour + TicksPerSecond) == "99 h"
  {
    assert Decimal(99) == "99";
  }

  /** Exactly 99 hours is still a clock reading. */
  lemma NinetyNineHours()
    ensures FormatTimer(99 * TicksPerHour) == "99:00:00"
  {
    var t := 99 * TicksPerHour;
    assert t / TicksPerHour == 99 && t / TicksPerMinute == 99 * 60 && t / TicksPerSecond == 99 * 3600;
    assert Pad2(99) == "99" && Pad2(0) == "00";
  }

  /** Exactly one hour reads "01:00:00". */
  lemma OneHour()
    ensures FormatTimer(TicksPerHour) == "01:00:00"
  {
  }

  /** 59 minutes 59 seconds read "59:59". */
  lemma UnderOneHour()
    ensures FormatTimer(59 * TicksPerMinute + 59 * TicksPerSecond) == "59:59"
  {
    var t := 59 * TicksPerMinute + 59 * TicksPerSecond;
    assert t / TicksPerMinute == 59 && t / TicksPerSecond == 3599;
    assert Pad2(59) == "59";
  }

  /** One tick short of an hour also reads "59:59": the sub-second part is dropped. */
  lemma SubSecondsDropped()
    ensures FormatTimer(TicksPerHour - 1) == "59:59"
  {
    var t := TicksPerHour - 1;
    assert t / TicksPerMinute == 59 && t / TicksPerSecond == 3599;
    assert Pad2(59) == "59";
  }
}
