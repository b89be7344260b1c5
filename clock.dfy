/**
 * Times of day at minute granularity, with the "%H:%M" rendering that
 * `time.strftime` produces and the "%H:%M" reading that `datetime.strptime`
 * accepts.  A Python `time(h, m)` is the minute count `h * 60 + m`; the
 * order of Python times with zero seconds is the order of these counts.
 */
module Clock {
  import opened Wrappers

  /** Minutes since midnight: `time(h, m)` with 0 <= h < 24 and 0 <= m < 60. */
  type Minute = m: int | 0 <= m < 1440

  /** Seconds since midnight, the resolution at which "now" is compared. */
  type Second = s: int | 0 <= s < 86400

  function HourOf(m: Minute): nat { m / 60 }
  function MinuteOf(m: Minute): nat { m % 60 }

  /** `time(h, m)` for an hour 0..23 and a minute 0..59. */
  function At(h: nat, m: nat): (t: Minute)
    requires h < 24 && m < 60
    ensures HourOf(t) == h && MinuteOf(t) == m
  {
    h * 60 + m
  }

  /** The time as seconds since midnight; a `time(h, m)` has zero seconds. */
  function ToSeconds(m: Minute): (s: Second)
    ensures s % 60 == 0 && s / 60 == m
  {
    m * 60
  }

  predicate IsDigit(c: char) { '0' <= c <= '9' }

  function DigitValue(c: char): (d: nat)
    requires IsDigit(c)
    ensures d < 10
  {
    (c as int - '0' as int) as nat
  }

  function DigitChar(d: nat): (c: char)
    requires d < 10
    ensures IsDigit(c) && DigitValue(c) == d
  {
    ('0' as int + d) as char
  }

  /** A number below 100 written with two digits, zero-padded. */
  function Pad2(n: nat): (s: string)
    requires n < 100
    ensures |s| == 2 && IsDigit(s[0]) && IsDigit(s[1])
    ensures DigitValue(s[0]) * 10 + DigitValue(s[1]) == n
  {
    [DigitChar(n / 10), DigitChar(n % 10)]
  }

  /** `time.strftime('%H:%M')`: zero-padded hour, a colon, zero-padded minute. */
  function Format(m: Minute): (s: string)
    ensures |s| == 5 && s[2] == ':'
    ensures s[..2] == Pad2(HourOf(m)) && s[3..] == Pad2(MinuteOf(m))
  {
    Pad2(HourOf(m)) + ":" + Pad2(MinuteOf(m))
  }

  /**
   * `datetime.strptime(s, '%H:%M').time()`: two digits of hour 00..23, a
   * colon and two digits of minute 00..59; anything else is a ValueError,
   * modelled as None.
   */
  function Parse(s: string): (r: Option<Minute>)
    ensures r.Some? ==> |s| == 5 && s[2] == ':'
    ensures r.Some? ==> IsDigit(s[0]) && IsDigit(s[1]) && IsDigit(s[3]) && IsDigit(s[4])
    ensures r.Some? ==> DigitValue(s[0]) * 10 + DigitValue(s[1]) == HourOf(r.value)
    ensures r.Some? ==> DigitValue(s[3]) * 10 + DigitValue(s[4]) == MinuteOf(r.value)
  {
    if |s| == 5 && IsDigit(s[0]) && IsDigit(s[1]) && s[2] == ':' && IsDigit(s[3]) && IsDigit(s[4]) then
      var h := DigitValue(s[0]) * 10 + DigitValue(s[1]);
      var mi := DigitValue(s[3]) * 10 + DigitValue(s[4]);
      if h < 24 && mi < 60 then Some(At(h, mi)) else None
    else
      None
  }

  lemma Pad2Injective(a: string, b: string)
    requires |a| == 2 && IsDigit(a[0]) && IsDigit(a[1])
    requires |b| == 2 && IsDigit(b[0]) && IsDigit(b[1])
    requires DigitValue(a[0]) * 10 + DigitValue(a[1]) == DigitValue(b[0]) * 10 + DigitValue(b[1])
    ensures a == b
  {
    assert DigitValue(a[0]) == DigitValue(b[0]);
    assert a[0] == b[0] && a[1] == b[1];
  }

  /** Reading back what `strftime` wrote gives the same time. */
  lemma ParseFormat(m: Minute)
    ensures Parse(Format(m)) == Some(m)
  {
    var s := Format(m);
    assert s[..2] == [s[0], s[1]] && s[3..] == [s[3], s[4]];
  }

  /** A string `strptime` accepts is exactly the rendering of the time it reads. */
  lemma FormatParse(s: string)
    requires Parse(s).Some?
    ensures Format(Parse(s).value) == s
  {
    var m := Parse(s).value;
    var f := Format(m);
    assert f[..2] == [f[0], f[1]] && f[3..] == [f[3], f[4]];
    Pad2Injective(s[..2], f[..2]);
    Pad2Injective(s[3..], f[3..]);
    assert s == s[..2] + [s[2]] + s[3..];
    assert f == f[..2] + [f[2]] + f[3..];
  }

  /** Distinct times have distinct renderings. */
  lemma FormatInjective(a: Minute, b: Minute)
    ensures Format(a) == Format(b) <==> a == b
  {
    if Format(a) == Format(b) {
      ParseFormat(a);
      ParseFormat(b);
    }
  }
}
