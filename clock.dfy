/**
 * The Sao Paulo wall-clock reading `now_br` (main.py:148) as its calendar
 * fields, and the three strings the source derives from it with `strftime`:
 * the entry's `date` (`%Y-%m-%d`, main.py:179), its `time` (`%H:%M:%S`,
 * main.py:177) and the record key (`%Y-%m-%d_%H-%M-%S-%f`, main.py:182).
 */
module Clock {
  import opened Wrappers
  import opened Digits

  datatype Date = Date(year: nat, month: nat, day: nat)

  datatype DateTime = DateTime(date: Date, hour: nat, minute: nat, second: nat, microsecond: nat)

  predicate IsLeapYear(y: nat) {
    y % 4 == 0 && (y % 100 != 0 || y % 400 == 0)
  }

  function DaysInMonth(y: nat, m: nat): nat
    requires 1 <= m <= 12
  {
    if m == 2 then (if IsLeapYear(y) then 29 else 28)
    else if m == 4 || m == 6 || m == 9 || m == 11 then 30
    else 31
  }

  /** The range of Python's `date`. */
  predicate ValidDate(d: Date) {
    1 <= d.year <= 9999 && 1 <= d.month <= 12 && 1 <= d.day <= DaysInMonth(d.year, d.month)
  }

  /** The range of Python's `datetime`. */
  predicate ValidDateTime(t: DateTime) {
    ValidDate(t.date) && t.hour < 24 && t.minute < 60 && t.second < 60 && t.microsecond < 1000000
  }

  /** Calendar order, as Python compares `date` objects. */
  predicate DateLe(a: Date, b: Date) {
    a.year < b.year
    || (a.year == b.year && (a.month < b.month || (a.month == b.month && a.day <= b.day)))
  }

  predicate DateLt(a: Date, b: Date) {
    DateLe(a, b) && a != b
  }

  /** `strftime("%Y-%m-%d")`. */
  function DateString(d: Date): (r: string)
    ensures |r| == 10
  {
    Pad(d.year, 4) + "-" + Pad(d.month, 2) + "-" + Pad(d.day, 2)
  }

  /** `strftime("%H:%M:%S")`. */
  function TimeString(t: DateTime): (r: string)
    ensures |r| == 8
  {
    Pad(t.hour, 2) + ":" + Pad(t.minute, 2) + ":" + Pad(t.second, 2)
  }

  /** `strftime("%H-%M-%S-%f")`: the part of the key after the date. */
  function ClockString(t: DateTime): (r: string)
    ensures |r| == 15
  {
    Pad(t.hour, 2) + "-" + Pad(t.minute, 2) + "-" + Pad(t.second, 2) + "-" + Pad(t.microsecond, 6)
  }

  /** `strftime("%Y-%m-%d_%H-%M-%S-%f")`: the record key. */
  function Key(t: DateTime): (r: string)
    ensures |r| == 26
  {
    DateString(t.date) + "_" + ClockString(t)
  }

  /** Reads `YYYY-MM-DD` back into a date. */
  function ParseDate(s: string): Option<Date> {
    if |s| == 10 && s[4] == '-' && s[7] == '-'
       && AllDigits(s[0..4]) && AllDigits(s[5..7]) && AllDigits(s[8..10])
    then Some(Date(Value(s[0..4]), Value(s[5..7]), Value(s[8..10])))
    else None
  }

  /** Reads `HH-MM-SS-ffffff` back into the time-of-day fields of `date`. */
  function ParseClock(date: Date, s: string): Option<DateTime> {
    if |s| == 15 && s[2] == '-' && s[5] == '-' && s[8] == '-'
       && AllDigits(s[0..2]) && AllDigits(s[3..5]) && AllDigits(s[6..8]) && AllDigits(s[9..15])
    then Some(DateTime(date, Value(s[0..2]), Value(s[3..5]), Value(s[6..8]), Value(s[9..15])))
    else None
  }

  /** Reads a record key back into the instant it was made from. */
  function ParseKey(k: string): Option<DateTime> {
    if |k| == 26 && k[10] == '_' then
      match ParseDate(k[..10])
      case None => None
      case Some(d) => ParseClock(d, k[11..])
    else None
  }

  /** The date and the clock part sit on either side of the `_`. */
  lemma KeyLayout(t: DateTime)
    ensures Key(t)[..10] == DateString(t.date) && Key(t)[10] == '_' && Key(t)[11..] == ClockString(t)
  {
    var d, c := DateString(t.date), ClockString(t);
    assert Key(t) == d + ("_" + c);
  }

  /** Fields of the clock part, read through the whole key. */
  lemma SuffixFields(k: string, c: string, tm: string)
    requires |k| == 26 && |c| == 15 && |tm| == 8 && k[11..] == c
    requires c[0..2] == tm[0..2] && c[3..5] == tm[3..5] && c[6..8] == tm[6..8]
    ensures k[11..13] == tm[0..2] && k[14..16] == tm[3..5] && k[17..19] == tm[6..8]
  {
    assert k[11..13] == c[0..2] && k[14..16] == c[3..5] && k[17..19] == c[6..8];
  }

  /** Where the parts of `a-b-c` sit. */
  lemma Join3(a: string, b: string, c: string, sep: string)
    requires |sep| == 1
    ensures var r := a + sep + b + sep + c;
      r[..|a|] == a && r[|a|] == sep[0] && r[|a| + 1..|a| + 1 + |b|] == b
      && r[|a| + 1 + |b|] == sep[0] && r[|a| + |b| + 2..] == c
  {
    var r := a + sep + b + sep + c;
    assert r == a + (sep + (b + (sep + c)));
  }

  lemma DateLayout(d: Date)
    ensures var r := DateString(d);
      r[0..4] == Pad(d.year, 4) && r[4] == '-' && r[5..7] == Pad(d.month, 2) && r[7] == '-'
      && r[8..10] == Pad(d.day, 2)
  {
    Join3(Pad(d.year, 4), Pad(d.month, 2), Pad(d.day, 2), "-");
  }

  lemma ClockLayout(t: DateTime)
    ensures var r := ClockString(t);
      r[0..2] == Pad(t.hour, 2) && r[2] == '-' && r[3..5] == Pad(t.minute, 2) && r[5] == '-'
      && r[6..8] == Pad(t.second, 2) && r[8] == '-' && r[9..15] == Pad(t.microsecond, 6)
  {
    var h, m := Pad(t.hour, 2), Pad(t.minute, 2);
    var sc, us := Pad(t.second, 2), Pad(t.microsecond, 6);
    Join3(h, m, sc + "-" + us, "-");
    assert ClockString(t) == h + "-" + m + "-" + (sc + "-" + us);
    var tail := sc + "-" + us;
    assert tail[..2] == sc && tail[2] == '-' && tail[3..] == us;
    var r := ClockString(t);
    assert r[6..] == tail;
    assert r[6..8] == tail[..2] && r[8] == tail[2] && r[9..15] == tail[3..];
  }

  lemma TimeLayout(t: DateTime)
    ensures var r := TimeString(t);
      r[0..2] == Pad(t.hour, 2) && r[2] == ':' && r[3..5] == Pad(t.minute, 2) && r[5] == ':'
      && r[6..8] == Pad(t.second, 2)
  {
    Join3(Pad(t.hour, 2), Pad(t.minute, 2), Pad(t.second, 2), ":");
  }

  lemma DateRoundTrip(d: Date)
    requires ValidDate(d)
    ensures ParseDate(DateString(d)) == Some(d)
  {
    DateLayout(d);
    assert Pow10(2) == 100 && Pow10(4) == 10000;
  }

  lemma ClockRoundTrip(t: DateTime)
    requires ValidDateTime(t)
    ensures ParseClock(t.date, ClockString(t)) == Some(t)
  {
    ClockLayout(t);
    assert Pow10(2) == 100 && Pow10(6) == 1000000;
  }

  /** Decoding a key gives back the instant it was made from. */
  lemma KeyRoundTrip(t: DateTime)
    requires ValidDateTime(t)
    ensures ParseKey(Key(t)) == Some(t)
  {
    KeyLayout(t);
    DateRoundTrip(t.date);
    ClockRoundTrip(t);
  }

  /** Distinct valid instants, at microsecond resolution, never share a key. */
  lemma KeyInjective(a: DateTime, b: DateTime)
    requires ValidDateTime(a) && ValidDateTime(b)
    ensures Key(a) == Key(b) <==> a == b
  {
    KeyRoundTrip(a);
    KeyRoundTrip(b);
  }

  /** The key starts with the entry's date and then carries its time of day. */
  lemma KeyMatchesEntryStrings(t: DateTime)
    ensures Key(t)[..10] == DateString(t.date)
    ensures Key(t)[11..13] == TimeString(t)[0..2]
    ensures Key(t)[14..16] == TimeString(t)[3..5]
    ensures Key(t)[17..19] == TimeString(t)[6..8]
  {
    KeyLayout(t);
    ClockLayout(t);
    TimeLayout(t);
    SuffixFields(Key(t), ClockString(t), TimeString(t));
  }
}
