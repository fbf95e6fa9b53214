// UTC timestamps as `chrono` keeps them (whole seconds and a fraction, with leap seconds as a
// fraction of second 59 beyond one whole second), their order, and their RFC 3339 text with
// exactly six fractional digits.
module Calendar {
  import opened Wrappers
  import opened Text

  const NANOS: nat := 1_000_000_000

  datatype RawDateTime = DateTime(seconds: int, nanos: nat) {
    predicate Valid() {
      nanos < NANOS || (nanos < 2 * NANOS && seconds % 60 == 59)
    }

    predicate After(other: RawDateTime) {
      seconds > other.seconds || (seconds == other.seconds && nanos > other.nanos)
    }
  }

  type DateTime = d: RawDateTime | d.Valid() witness DateTime(0, 0)

  function Later(a: DateTime, b: DateTime): DateTime {
    if b.After(a) then b else a
  }

  /** `DateTime::from_timestamp(seconds, 0)`: years -262143 to 262142 only. */
  function FromTimestamp(seconds: int): Option<DateTime> {
    if -8_334_601_228_800 <= seconds <= 8_210_266_876_799 then Some(DateTime(seconds, 0)) else None
  }

  /** Adding whole seconds leaves a leap second behind. */
  function PlusSeconds(d: DateTime, n: nat): DateTime
    requires n > 0
  {
    DateTime(d.seconds + n, if d.nanos >= NANOS then d.nanos - NANOS else d.nanos)
  }

  function TruncateMicros(d: DateTime): DateTime {
    DateTime(d.seconds, d.nanos - d.nanos % 1000)
  }

  // The proleptic Gregorian calendar, counted from 1 March of year 0 so that leap days end years.

  datatype Date = Date(year: int, month: nat, day: nat)

  /** Days before year `y` of a 400-year era. */
  function EraDays(y: nat): int {
    365 * y + y / 4 - y / 100
  }

  /** The year of the era that holds day `n`: its century, its four-year group, its year in the group. */
  function EraYear(n: nat): (nat, nat, nat)
    requires n < 146_097
  {
    var century := if n < 109_572 then n / 36_524 else 3;
    var inCentury := n - 36_524 * century;
    var group := inCentury / 1461;
    var inGroup := inCentury - 1461 * group;
    (century, group, if inGroup < 1095 then inGroup / 365 else 3)
  }

  lemma EraYearBounds(n: nat)
    requires n < 146_097
    ensures var (c, g, i) := EraYear(n);
            c < 4 && g < 25 && i < 4 && 0 <= n - (36_524 * c + 1461 * g + 365 * i) <= 365
  {
  }

  lemma EraDaysSplit(c: nat, g: nat, i: nat)
    requires c < 4 && g < 25 && i < 4
    ensures EraDays(100 * c + 4 * g + i) == 36_524 * c + 1461 * g + 365 * i
  {
    assert (100 * c + 4 * g + i) / 4 == 25 * c + g;
    assert (100 * c + 4 * g + i) / 100 == c;
  }

  /** Day `r` of a year starting in March: the month counted from March and the day in it. */
  function MonthDay(r: nat): (nat, int) {
    var m := (5 * r + 2) / 153;
    (m, r - (153 * m + 2) / 5 + 1)
  }

  lemma MonthDayBounds(r: nat)
    requires r <= 365
    ensures MonthDay(r).0 < 12 && 1 <= MonthDay(r).1 <= 31
    ensures (153 * MonthDay(r).0 + 2) / 5 + MonthDay(r).1 - 1 == r
  {
  }

  function FromDays(days: int): Date {
    var shifted := days + 719_468;
    var n := shifted % 146_097;
    EraYearBounds(n);
    var (c, g, i) := EraYear(n);
    var r: nat := n - (36_524 * c + 1461 * g + 365 * i);
    MonthDayBounds(r);
    var (m, day) := MonthDay(r);
    var month := if m < 10 then m + 3 else m - 9;
    Date(shifted / 146_097 * 400 + (100 * c + 4 * g + i) + (if month <= 2 then 1 else 0), month, day)
  }

  function ToDays(d: Date): int {
    var y := d.year - if d.month <= 2 then 1 else 0;
    var m := if d.month <= 2 then d.month + 9 else d.month - 3;
    var n := EraDays(y % 400) + (153 * m + 2) / 5 + d.day - 1;
    y / 400 * 146_097 + n - 719_468
  }

  /** The calendar month of month `m` counted from March. */
  function CalendarMonth(m: nat): nat
    requires m < 12
  {
    if m < 10 then m + 3 else m - 9
  }

  /** The day number of a date given as era, year of the era, month from March and day. */
  lemma ToDaysOfParts(era: int, y: nat, m: nat, day: nat)
    requires y < 400 && m < 12
    ensures var month := CalendarMonth(m);
            ToDays(Date(era * 400 + y + (if month <= 2 then 1 else 0), month, day))
            == era * 146_097 + EraDays(y) + (153 * m + 2) / 5 + day - 1 - 719_468
  {
    hide EraDays;
    EraSplits(era, y);
  }

  /** Calendar dates name days uniquely, with months 1 to 12 and days 1 to 31. */
  lemma CalendarInverts(days: int)
    ensures ToDays(FromDays(days)) == days
    ensures 1 <= FromDays(days).month <= 12 && 1 <= FromDays(days).day <= 31
  {
    hide EraYear, EraDays, MonthDay, ToDays;
    var era, n := (days + 719_468) / 146_097, (days + 719_468) % 146_097;
    EraYearBounds(n);
    var (c, g, i) := EraYear(n);
    var y := 100 * c + 4 * g + i;
    EraDaysSplit(c, g, i);
    var r: nat := n - EraDays(y);
    MonthDayBounds(r);
    var (m, day) := MonthDay(r);
    ToDaysOfParts(era, y, m, day);
    assert days == era * 146_097 + n - 719_468;
  }

  lemma EraSplits(era: int, y: nat)
    requires y < 400
    ensures (era * 400 + y) % 400 == y && (era * 400 + y) / 400 == era
  {
  }

  // RFC 3339 text (section 5.6), in UTC with `Z` and six fractional digits.

  /** A zero-padded number of at least `width` digits. */
  datatype Field = Field(width: nat, value: nat)

  function FieldsText(fields: seq<Field>, separators: string): string
    requires |fields| == |separators|
  {
    if fields == [] then ""
    else
      ZeroPad(fields[0].width, Decimal(fields[0].value)) + ([separators[0]] + FieldsText(fields[1..], separators[1..]))
  }

  function ReadFields(text: string, separators: string): Option<seq<nat>>
    decreases |separators|
  {
    if separators == "" then
      if text == "" then Some([]) else None
    else
      var (n, rest) := ReadNat(text, 0);
      if rest == "" || rest[0] != separators[0] then None
      else
        match ReadFields(rest[1..], separators[1..])
        case Some(values) => Some([n] + values)
        case None => None
  }

  function Values(fields: seq<Field>): seq<nat> {
    seq(|fields|, i requires 0 <= i < |fields| => fields[i].value)
  }

  lemma {:induction false} FieldsInvert(fields: seq<Field>, separators: string)
    requires |fields| == |separators|
    requires forall i :: 0 <= i < |separators| ==> !IsDigit(separators[i])
    ensures ReadFields(FieldsText(fields, separators), separators) == Some(Values(fields))
  {
    if fields != [] {
      var tail := FieldsText(fields[1..], separators[1..]);
      ReadPadded(fields[0].width, Decimal(fields[0].value), [separators[0]] + tail);
      ReadDecimal(fields[0].value, [separators[0]] + tail);
      assert ([separators[0]] + tail)[1..] == tail;
      FieldsInvert(fields[1..], separators[1..]);
      assert Values(fields) == [fields[0].value] + Values(fields[1..]);
    }
  }

  const SEPARATORS: string := "--T::.Z"

  /** The printed numbers, from the month down; second 60 stands for a leap second. */
  function ClockFields(d: DateTime): (r: seq<Field>)
    ensures |r| == 6
  {
    var date := FromDays(d.seconds / 86_400);
    CalendarInverts(d.seconds / 86_400);
    var time := d.seconds % 86_400;
    var leap := if d.nanos >= NANOS then 1 else 0;
    [Field(2, date.month), Field(2, date.day),
     Field(2, time / 3600), Field(2, time / 60 % 60), Field(2, time % 60 + leap),
     Field(6, (d.nanos - leap * NANOS) / 1000)]
  }

  /** `to_rfc3339_opts(Micros, true)`; years outside 0 to 9999 carry a sign. */
  function Rfc3339Micros(d: DateTime): string {
    var year := FromDays(d.seconds / 86_400).year;
    (if 0 <= year <= 9999 then "" else if year < 0 then "-" else "+")
    + FieldsText([Field(4, if year < 0 then -year else year)] + ClockFields(d), SEPARATORS)
  }

  /** The instant a printed year and clock denote. */
  function FromClock(date: Date, hour: nat, minute: nat, second: nat, micros: nat): RawDateTime {
    var leap := if second == 60 then 1 else 0;
    DateTime(ToDays(date) * 86_400 + hour * 3600 + minute * 60 + second - leap, micros * 1000 + leap * NANOS)
  }

  function ReadTimestamp(text: string): Option<RawDateTime> {
    var signed := text != "" && (text[0] == '-' || text[0] == '+');
    match ReadFields(if signed then text[1..] else text, SEPARATORS)
    case Some(v) =>
      if |v| != 7 then None
      else
        var magnitude: int := v[0];
        var year := if signed && text[0] == '-' then -magnitude else magnitude;
        Some(FromClock(Date(year, v[1], v[2]), v[3], v[4], v[5], v[6]))
    case None => None
  }

  lemma TimeOfDaySplits(time: nat)
    requires time < 86_400
    ensures time == time / 3600 * 3600 + time / 60 % 60 * 60 + time % 60
  {
    assert time / 60 / 60 == time / 3600;
  }

  lemma DaySplits(seconds: int)
    ensures seconds % 86_400 % 60 == seconds % 60
  {
    var day, time := seconds / 86_400, seconds % 86_400;
    assert seconds == 86_400 * day + time;
    assert time == 60 * (time / 60) + time % 60;
    SecondOfMinute(1440 * day + time / 60, time % 60);
  }

  lemma SecondOfMinute(minutes: int, second: int)
    requires 0 <= second < 60
    ensures (60 * minutes + second) % 60 == second
  {
  }

  lemma ClockInverts(d: DateTime)
    ensures var date := FromDays(d.seconds / 86_400);
            var f := ClockFields(d);
            && FromClock(date, f[2].value, f[3].value, f[4].value, f[5].value) == TruncateMicros(d)
            && f[0].value == date.month && f[1].value == date.day
  {
    CalendarInverts(d.seconds / 86_400);
    hide FromDays, ToDays;
    TimeOfDaySplits(d.seconds % 86_400);
    DaySplits(d.seconds);
  }

  lemma {:induction false} FieldsTextStartsWithDigit(fields: seq<Field>, separators: string)
    requires |fields| == |separators| > 0
    ensures FieldsText(fields, separators) != "" && IsDigit(FieldsText(fields, separators)[0])
  {
  }

  /** The text determines the instant up to the microsecond, over the whole calendar. */
  lemma TimestampInverts(d: DateTime)
    ensures ReadTimestamp(Rfc3339Micros(d)) == Some(TruncateMicros(d))
  {
    ClockInverts(d);
    hide FromDays, ToDays, ClockFields, TruncateMicros, FromClock, ReadFields, FieldsText;
    var year := FromDays(d.seconds / 86_400).year;
    var fields := [Field(4, if year < 0 then -year else year)] + ClockFields(d);
    var body := FieldsText(fields, SEPARATORS);
    FieldsInvert(fields, SEPARATORS);
    FieldsTextStartsWithDigit(fields, SEPARATORS);
    assert "" + body == body && ("-" + body)[1..] == body && ("+" + body)[1..] == body;
    assert forall i :: 0 <= i < 6 ==> Values(fields)[i + 1] == ClockFields(d)[i].value;
  }

  /** Digits beyond the microsecond never reach the text. */
  lemma TruncationKeepsText(d: DateTime)
    ensures Rfc3339Micros(TruncateMicros(d)) == Rfc3339Micros(d)
  {
    hide FromDays, FieldsText, ClockFields;
    TruncationKeepsFields(d);
  }

  lemma TruncationKeepsFields(d: DateTime)
    ensures ClockFields(TruncateMicros(d)) == ClockFields(d)
    ensures TruncateMicros(d).seconds == d.seconds
  {
    hide FromDays, ToDays;
    var leap := if d.nanos >= NANOS then 1 else 0;
    MicrosKept(d.nanos - leap * NANOS);
  }

  lemma MicrosKept(n: nat)
    ensures (n - n % 1000) / 1000 == n / 1000
  {
  }

  // Time by its numbers.

  /** `After` is the strict total order by seconds, then by the fraction. */
  lemma AfterExactly(a: DateTime, b: DateTime)
    ensures a.seconds != b.seconds ==> (a.After(b) <==> a.seconds > b.seconds)
    ensures a.seconds == b.seconds ==> (a.After(b) <==> a.nanos > b.nanos)
    ensures a == b || (a.After(b) <==> !b.After(a))
    ensures a.nanos < NANOS && b.nanos < NANOS ==>
              (a.After(b) <==> 1_000_000_000 * a.seconds + a.nanos > 1_000_000_000 * b.seconds + b.nanos)
  {
  }

  /** The later of two: one of them, and neither is after it. */
  lemma LaterExactly(a: DateTime, b: DateTime)
    ensures Later(a, b) in {a, b} && !a.After(Later(a, b)) && !b.After(Later(a, b))
  {
  }

  /** Adding seconds moves an instant by exactly that time; a leap second counts as the second after it. */
  lemma PlusSecondsExactly(d: DateTime, n: nat)
    requires n > 0
    ensures var r := PlusSeconds(d, n);
            && r.nanos < 1_000_000_000
            && 1_000_000_000 * r.seconds + r.nanos
               == 1_000_000_000 * (d.seconds + n) + d.nanos - if d.nanos >= 1_000_000_000 then 1_000_000_000 else 0
  {
  }

  /** The seconds chrono can represent, at a whole second. */
  lemma FromTimestampExactly(seconds: int)
    ensures FromTimestamp(seconds).Some? <==> -8_334_601_228_800 <= seconds <= 8_210_266_876_799
    ensures FromTimestamp(seconds).Some? ==>
              FromTimestamp(seconds).value.seconds == seconds && FromTimestamp(seconds).value.nanos == 0
  {
  }

  function Digits(width: nat, n: nat): string {
    ZeroPad(width, Decimal(n))
  }

  /** Year, month, day, hour, minute, second and microseconds, with the separators of RFC 3339. */
  lemma TimestampText(d: DateTime)
    ensures var date, time := FromDays(d.seconds / 86_400), d.seconds % 86_400;
            var leap := if d.nanos >= 1_000_000_000 then 1 else 0;
            Rfc3339Micros(d)
            == (if date.year < 0 then "-" else if date.year > 9999 then "+" else "")
               + (Digits(4, if date.year < 0 then -date.year else date.year)
                  + (['-'] + (Digits(2, date.month)
                  + (['-'] + (Digits(2, date.day)
                  + (['T'] + (Digits(2, time / 3600)
                  + ([':'] + (Digits(2, time / 60 % 60)
                  + ([':'] + (Digits(2, time % 60 + leap)
                  + (['.'] + (Digits(6, (d.nanos - leap * 1_000_000_000) / 1000)
                  + ['Z'])))))))))))))
  {
    hide FromDays, Digits, FieldsText;
    var date := FromDays(d.seconds / 86_400);
    SevenFields([Field(4, if date.year < 0 then -date.year else date.year)] + ClockFields(d));
  }

  lemma SevenFields(f: seq<Field>)
    requires |f| == 7
    ensures FieldsText(f, SEPARATORS)
            == Digits(f[0].width, f[0].value)
               + (['-'] + (Digits(f[1].width, f[1].value)
               + (['-'] + (Digits(f[2].width, f[2].value)
               + (['T'] + (Digits(f[3].width, f[3].value)
               + ([':'] + (Digits(f[4].width, f[4].value)
               + ([':'] + (Digits(f[5].width, f[5].value)
               + (['.'] + (Digits(f[6].width, f[6].value)
               + ['Z']))))))))))))
  {
    hide Digits, FieldsText;
    FieldsFrom(f, 0);
    FieldsFrom(f, 1);
    FieldsFrom(f, 2);
    FieldsFrom(f, 3);
    FieldsFrom(f, 4);
    FieldsFrom(f, 5);
    FieldsFrom(f, 6);
    NoFields();
    assert f[0..] == f && SEPARATORS[0..] == SEPARATORS && f[7..] == [] && SEPARATORS[7..] == "";
    assert ['Z'] + "" == ['Z'];
  }

  lemma NoFields()
    ensures FieldsText([], "") == ""
  {
  }

  lemma FieldsFrom(f: seq<Field>, k: nat)
    requires |f| == 7 && k < 7
    ensures |SEPARATORS| == 7
    ensures FieldsText(f[k..], SEPARATORS[k..])
            == Digits(f[k].width, f[k].value) + ([SEPARATORS[k]] + FieldsText(f[k + 1..], SEPARATORS[k + 1..]))
  {
    hide ZeroPad, Decimal;
    assert f[k..][1..] == f[k + 1..] && SEPARATORS[k..][1..] == SEPARATORS[k + 1..];
  }
}
