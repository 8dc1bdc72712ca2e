/** Calendar dates as the data scripts hold them after `datetime.strptime`, their
    chronological order, and the zero-padded text `strftime('%Y%m%d')` and
    `isoformat()` write for them. */
module Dates {
  import opened Text

  /** A calendar date. */
  datatype Date = Date(year: nat, month: nat, day: nat)

  /** A date and a time of day, as `strptime` gives for a format with a time. */
  datatype DateTime = DateTime(date: Date, hour: nat, minute: nat, second: nat)

  /** The dates `strptime` can produce. */
  predicate ValidDate(d: Date) {
    1 <= d.year <= 9999 && 1 <= d.month <= 12 && 1 <= d.day <= 31
  }

  /** Chronological order: by year, then month, then day. */
  predicate DateLe(a: Date, b: Date) {
    a.year < b.year || (a.year == b.year && (a.month < b.month || (a.month == b.month && a.day <= b.day)))
  }

  /** The number `YYYYMMDD`: a sort key for dates. */
  function DateKey(d: Date): int {
    d.year * 10000 + d.month * 100 + d.day
  }

  /** On valid dates the key orders as the calendar does, and the year can be read
      back from the key. */
  lemma DateKeyOrder(a: Date, b: Date)
    requires ValidDate(a) && ValidDate(b)
    ensures DateKey(a) <= DateKey(b) <==> DateLe(a, b)
    ensures DateKey(a) / 10000 == a.year
  {
    var ra := a.month * 100 + a.day;
    var rb := b.month * 100 + b.day;
    assert 0 <= ra < 10000 && 0 <= rb < 10000;
    assert DateKey(a) == a.year * 10000 + ra;
    assert DateKey(b) == b.year * 10000 + rb;
    if a.year < b.year {
      assert a.year * 10000 + 10000 <= b.year * 10000;
    } else if a.year > b.year {
      assert b.year * 10000 + 10000 <= a.year * 10000;
    }
  }

  /** `n` written with at least `width` digits, zeros in front. */
  function Pad(n: nat, width: nat): (r: string)
    ensures |r| == if |NatToString(n)| < width then width else |NatToString(n)|
    ensures forall i :: 0 <= i < |r| ==> IsDigit(r[i])
  {
    var s := NatToString(n);
    if |s| < width then seq(width - |s|, _ => '0') + s else s
  }

  /** Leading zeros do not change the number a digit run denotes. */
  lemma {:induction false} LeadingZeros(z: string, s: string)
    requires forall i :: 0 <= i < |z| ==> z[i] == '0'
    requires forall i :: 0 <= i < |s| ==> IsDigit(s[i])
    ensures DigitsValue(z + s) == DigitsValue(s)
    decreases |s|
  {
    if s == [] {
      assert z + s == z;
      AllZeros(z);
    } else {
      assert (z + s)[..|z + s| - 1] == z + s[..|s| - 1];
      LeadingZeros(z, s[..|s| - 1]);
    }
  }

  lemma {:induction false} AllZeros(z: string)
    requires forall i :: 0 <= i < |z| ==> z[i] == '0'
    ensures DigitsValue(z) == 0
  {
    if z != [] {
      AllZeros(z[..|z| - 1]);
    }
  }

  /** The padded text reads back as the number. */
  lemma PadRoundTrip(n: nat, width: nat)
    ensures DigitsValue(Pad(n, width)) == n
  {
    var s := NatToString(n);
    NatToStringRoundTrip(n);
    if |s| < width {
      LeadingZeros(seq(width - |s|, _ => '0'), s);
    }
  }

  /** `strftime('%Y%m%d')` for a four-digit year: `YYYYMMDD`. */
  function DateStamp(d: Date): string {
    Pad(d.year, 4) + Pad(d.month, 2) + Pad(d.day, 2)
  }

  /** `date.isoformat()`: `YYYY-MM-DD`. */
  function IsoDate(d: Date): string {
    Pad(d.year, 4) + "-" + Pad(d.month, 2) + "-" + Pad(d.day, 2)
  }

  /** `datetime.isoformat()`: `YYYY-MM-DDTHH:MM:SS`. */
  function IsoDateTime(t: DateTime): string {
    IsoDate(t.date) + "T" + Pad(t.hour, 2) + ":" + Pad(t.minute, 2) + ":" + Pad(t.second, 2)
  }

  /** The stamp and the ISO text of a valid date with a four-digit year have the
      fixed widths 8 and 10. */
  lemma DateTextWidths(d: Date)
    requires ValidDate(d) && d.year >= 1000
    ensures |DateStamp(d)| == 8 && |IsoDate(d)| == 10
  {
    NatToStringLengths(d.year);
    NatToStringLengths(d.month);
    NatToStringLengths(d.day);
  }

  /** Numbers below 10, 100 and 10000 have at most 1, 2 and 4 digits. */
  lemma {:induction false} NatToStringLengths(n: nat)
    ensures n < 10 ==> |NatToString(n)| == 1
    ensures n < 100 ==> |NatToString(n)| <= 2
    ensures n < 10000 ==> |NatToString(n)| <= 4
    ensures 1000 <= n < 10000 ==> |NatToString(n)| == 4
  {
    if n >= 10 {
      NatToStringLengths(n / 10);
    }
  }
}
