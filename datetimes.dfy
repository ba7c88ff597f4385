/**
 * Python `datetime` values and the three renderings the core uses:
 * `isoformat()` (the deduplication key), `strftime("%Y-%m-%d %H:%M:%S")`
 * (stored and exported times) and the date or month parts used in file names.
 */
module DateTimes {

  /** A naive `datetime`; fields are expected in their calendar ranges. */
  datatype DateTime = DateTime(year: nat, month: nat, day: nat,
                               hour: nat, minute: nat, second: nat, microsecond: nat)

  function DigitChar(d: nat): char
    requires d < 10
  {
    ('0' as int + d) as char
  }

  /** The last `width` decimal digits of `n`, zero-padded (`%0<width>d` for `n < 10^width`). */
  function Padded(n: nat, width: nat): (r: string)
    ensures |r| == width
    ensures forall i :: 0 <= i < width ==> '0' <= r[i] <= '9'
  {
    if width == 0 then [] else Padded(n / 10, width - 1) + [DigitChar(n % 10)]
  }

  /** `strftime("%Y-%m-%d")` */
  function DateFormat(t: DateTime): (r: string)
    ensures |r| == 10 && r[4] == '-' && r[7] == '-'
  {
    Padded(t.year, 4) + "-" + Padded(t.month, 2) + "-" + Padded(t.day, 2)
  }

  /** `strftime("%Y-%m")` */
  function MonthFormat(t: DateTime): (r: string)
    ensures |r| == 7 && r == DateFormat(t)[..7]
  {
    Padded(t.year, 4) + "-" + Padded(t.month, 2)
  }

  function ClockFormat(t: DateTime): string
  {
    Padded(t.hour, 2) + ":" + Padded(t.minute, 2) + ":" + Padded(t.second, 2)
  }

  /** `strftime("%Y-%m-%d %H:%M:%S")`: microseconds are dropped. */
  function SqlFormat(t: DateTime): (r: string)
    ensures |r| == 19 && r[..10] == DateFormat(t) && r[10] == ' '
  {
    DateFormat(t) + " " + ClockFormat(t)
  }

  /** `isoformat()`: a `T` between date and time, and `.ffffff` only when there are microseconds. */
  function IsoFormat(t: DateTime): (r: string)
    ensures |r| == (if t.microsecond == 0 then 19 else 26)
    ensures r[..10] == DateFormat(t) && r[10] == 'T'
  {
    DateFormat(t) + "T" + ClockFormat(t)
      + (if t.microsecond == 0 then "" else "." + Padded(t.microsecond, 6))
  }
}
