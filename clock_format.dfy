/** The clock strings of the daemon's messages: `format_number` pads a
    value below ten with one leading zero, and `format_time` prints a
    minute count as hours and minutes with Rust's truncating `/` and `%`. */
module ClockFormat {

  const MINUTES_PER_HOUR: int := 60
  const MINUTES_PER_DAY: int := 1440

  /** Rust's integer `/`: the quotient truncated toward zero. */
  function TruncDiv(a: int, b: int): (q: int)
    requires b > 0
    ensures a >= 0 ==> q == a / b
    ensures a < 0 ==> q == -((-a) / b)
  {
    if a >= 0 then a / b else -((-a) / b)
  }

  /** Rust's integer `%`: the remainder takes the sign of the dividend. */
  function TruncMod(a: int, b: int): (r: int)
    requires b > 0
    ensures a == TruncDiv(a, b) * b + r
    ensures a >= 0 ==> 0 <= r < b && r == a % b
    ensures a < 0 ==> -b < r <= 0
  {
    a - TruncDiv(a, b) * b
  }

  predicate IsDigit(c: char)
  {
    '0' <= c <= '9'
  }

  predicate AllDigits(s: string)
  {
    forall i :: 0 <= i < |s| ==> IsDigit(s[i])
  }

  function DigitChar(d: int): (c: char)
    requires 0 <= d < 10
    ensures IsDigit(c) && c as int - '0' as int == d
  {
    ('0' as int + d) as char
  }

  /** The decimal digits of n, most significant first, without padding. */
  function NatToString(n: nat): (s: string)
    ensures |s| >= 1 && AllDigits(s)
    ensures n < 10 <==> |s| == 1
  {
    if n < 10 then [DigitChar(n)] else NatToString(n / 10) + [DigitChar(n % 10)]
  }

  /** Rust's `to_string` of an integer: a minus sign, then the digits. */
  function IntToString(n: int): (s: string)
    ensures |s| >= 1 && (s[0] == '-' <==> n < 0)
    ensures n >= 0 ==> AllDigits(s) && DigitsValue(s) == n
    ensures n < 0 ==> AllDigits(s[1..]) && DigitsValue(s[1..]) == -n
    ensures -10 < n < 10 <==> |s| == if n < 0 then 2 else 1
  {
    if n < 0 then
      DigitsRoundTrip(-n);
      var s := "-" + NatToString(-n);
      assert s[1..] == NatToString(-n);
      s
    else
      DigitsRoundTrip(n);
      NatToString(n)
  }

  /** The value of a string of decimal digits. */
  function DigitsValue(s: string): (v: nat)
    requires AllDigits(s)
  {
    if |s| == 0 then 0
    else DigitsValue(s[..|s| - 1]) * 10 + (s[|s| - 1] as int - '0' as int)
  }

  /** Reading the digits back gives the number. */
  lemma {:induction false} DigitsRoundTrip(n: nat)
    ensures DigitsValue(NatToString(n)) == n
  {
    var s := NatToString(n);
    if n >= 10 {
      DigitsRoundTrip(n / 10);
      assert s[..|s| - 1] == NatToString(n / 10);
    }
  }

  /** A leading zero adds nothing to the value. */
  lemma {:induction false} LeadingZero(s: string)
    requires AllDigits(s)
    ensures AllDigits("0" + s) && DigitsValue("0" + s) == DigitsValue(s)
    decreases |s|
  {
    var z := "0" + s;
    assert AllDigits(z) by {
      forall i | 0 <= i < |z| ensures IsDigit(z[i]) {
        if i > 0 { assert z[i] == s[i - 1]; }
      }
    }
    if |s| > 0 {
      assert z[..|z| - 1] == "0" + s[..|s| - 1];
      LeadingZero(s[..|s| - 1]);
    }
  }

  /** `format_number`: with the format "00", a value below ten (negative
      values included) gets one leading "0". */
  function FormatNumber(value: int, format: string): (s: string)
    ensures format == "00" && 0 <= value < 10 ==> |s| == 2 && s[0] == '0'
    ensures (format != "00" || value >= 10) ==> s == IntToString(value)
    ensures format == "00" && value < 0 ==> s == "0" + IntToString(value)
  {
    if format == "00" && value < 10 then "0" + IntToString(value) else IntToString(value)
  }

  /** For a non-negative value, the padded number is at least two digits
      long and reads back as the value. */
  lemma PaddedNumber(value: nat)
    ensures var s := FormatNumber(value, "00");
      |s| >= 2 && AllDigits(s) && DigitsValue(s) == value
    ensures value < 100 ==> |FormatNumber(value, "00")| == 2
  {
    DigitsRoundTrip(value);
    if value < 10 {
      LeadingZero(NatToString(value));
    } else if value < 100 {
      assert NatToString(value) == NatToString(value / 10) + [DigitChar(value % 10)];
    }
  }

  /** `format_time`: hours, a colon, minutes, both padded. */
  function FormatTime(minutes: int): (s: string)
    ensures |s| >= 5 && ':' in s
  {
    FormatNumber(TruncDiv(minutes, MINUTES_PER_HOUR), "00") + ":"
      + FormatNumber(TruncMod(minutes, MINUTES_PER_HOUR), "00")
  }

  /** A non-negative minute count prints as at least two hour digits, a
      colon and exactly two minute digits, which read back as the count's
      hours and minutes. */
  lemma FormatTimeReadsBack(minutes: nat)
    ensures var s := FormatTime(minutes);
      && |s| >= 5 && s[|s| - 3] == ':'
      && AllDigits(s[..|s| - 3]) && DigitsValue(s[..|s| - 3]) == minutes / MINUTES_PER_HOUR
      && AllDigits(s[|s| - 2..]) && DigitsValue(s[|s| - 2..]) == minutes % MINUTES_PER_HOUR
    ensures minutes < 100 * MINUTES_PER_HOUR ==> |FormatTime(minutes)| == 5
  {
    var h := FormatNumber(minutes / MINUTES_PER_HOUR, "00");
    var m := FormatNumber(minutes % MINUTES_PER_HOUR, "00");
    PaddedNumber(minutes / MINUTES_PER_HOUR);
    PaddedNumber(minutes % MINUTES_PER_HOUR);
    var s := FormatTime(minutes);
    assert s == h + ":" + m;
    assert s[..|s| - 3] == h;
    assert s[|s| - 2..] == m;
  }

  /** A negative minute count, as the table produces for a large negative
      offset (June's sunrise at offset -600 is minute -271), prints each
      part with a zero before its minus sign. */
  lemma NegativeMinutesGarbled()
    ensures FormatTime(-271) == "0-4:0-31"
  {
    assert TruncDiv(-271, MINUTES_PER_HOUR) == -4;
    assert TruncMod(-271, MINUTES_PER_HOUR) == -31;
    assert NatToString(4) == "4";
    assert NatToString(31) == NatToString(3) + [DigitChar(1)];
  }

  /** The clock reading intended: the minute count taken modulo one day,
      so every value prints as HH:MM. */
  function FormatClock(minutes: int): (s: string)
    ensures |s| == 5 && s[2] == ':'
  {
    FormatTimeReadsBack(minutes % MINUTES_PER_DAY);
    FormatTime(minutes % MINUTES_PER_DAY)
  }

  /** Every minute count prints as two hour digits below 24, a colon and
      two minute digits, naming the same minute of the day. */
  lemma FormatClockIsHHMM(minutes: int)
    ensures var s := FormatClock(minutes);
      && |s| == 5 && s[2] == ':'
      && AllDigits(s[..2]) && DigitsValue(s[..2]) == (minutes % MINUTES_PER_DAY) / MINUTES_PER_HOUR < 24
      && AllDigits(s[3..]) && DigitsValue(s[3..]) == (minutes % MINUTES_PER_DAY) % MINUTES_PER_HOUR
  {
    FormatTimeReadsBack(minutes % MINUTES_PER_DAY);
  }

  /** The negative count above prints as the clock reading it stands for. */
  lemma FormatClockOfNegative()
    ensures FormatClock(-271) == "19:29"
  {
    assert -271 % MINUTES_PER_DAY == 1169;
    assert NatToString(19) == NatToString(1) + [DigitChar(9)];
    assert NatToString(29) == NatToString(2) + [DigitChar(9)];
  }
}
