/**
 Timestamps as text.

 The queue stores `datetime.isoformat()` and SQLite compares the stored text byte by byte; the
 fraction is left out when it is zero, so the texts differ in length. Instants are counted on the
 proleptic Gregorian calendar, as Python does it.
 */
module Timestamps {
  import opened Prelude
  import opened Decimal

  /** A UTC datetime. */
  datatype Stamp = Stamp(year: nat, month: nat, day: nat, hour: nat, minute: nat, second: nat, micro: nat)

  predicate Leap(year: nat) {
    year % 4 == 0 && (year % 100 != 0 || year % 400 == 0)
  }

  function DaysInMonth(year: nat, month: nat): nat {
    if month == 2 then (if Leap(year) then 29 else 28)
    else if month == 4 || month == 6 || month == 9 || month == 11 then 30
    else 31
  }

  predicate Valid(t: Stamp) {
    && 1 <= t.year <= 9999 && 1 <= t.month <= 12 && 1 <= t.day <= DaysInMonth(t.year, t.month)
    && t.hour < 24 && t.minute < 60 && t.second < 60 && t.micro < 1_000_000
  }

  // ----- Text -----

  function Fraction(micro: nat): string {
    if micro == 0 then "" else "." + Pad(micro, 6)
  }

  function TimeOfDay(t: Stamp): string {
    Pad(t.hour, 2) + ([':'] + (Pad(t.minute, 2) + ([':'] + (Pad(t.second, 2) + (Fraction(t.micro) + "+00:00")))))
  }

  /** `isoformat` of a datetime in UTC */
  function IsoText(t: Stamp): string {
    Pad(t.year, 4) + (['-'] + (Pad(t.month, 2) + (['-'] + (Pad(t.day, 2) + (['T'] + TimeOfDay(t))))))
  }

  /** memcmp order */
  predicate TextLess(a: string, b: string) {
    if b == "" then false
    else if a == "" then true
    else a[0] < b[0] || (a[0] == b[0] && TextLess(a[1..], b[1..]))
  }

  // ----- Instants -----

  function DaysBeforeYear(year: nat): int
    requires year >= 1
  {
    var y := year - 1;
    y * 365 + y / 4 - y / 100 + y / 400
  }

  function DaysBeforeMonth(year: nat, month: nat): nat {
    if month <= 1 then 0 else DaysBeforeMonth(year, month - 1) + DaysInMonth(year, month - 1)
  }

  /** `toordinal` */
  function Ordinal(t: Stamp): int
    requires t.year >= 1
  {
    DaysBeforeYear(t.year) + DaysBeforeMonth(t.year, t.month) + t.day
  }

  /** Microseconds on the proleptic Gregorian time line. */
  function Instant(t: Stamp): int
    requires t.year >= 1
  {
    (((Ordinal(t) * 24 + t.hour) * 60 + t.minute) * 60 + t.second) * 1_000_000 + t.micro
  }

  /** Comparison field by field. */
  predicate FieldsLess(a: Stamp, b: Stamp) {
    if a.year != b.year then a.year < b.year
    else if a.month != b.month then a.month < b.month
    else if a.day != b.day then a.day < b.day
    else if a.hour != b.hour then a.hour < b.hour
    else if a.minute != b.minute then a.minute < b.minute
    else if a.second != b.second then a.second < b.second
    else a.micro < b.micro
  }

  // ----- The calendar is monotone -----

  lemma QuotientSteps(y: nat)
    ensures (y + 1) / 4 == y / 4 + (if (y + 1) % 4 == 0 then 1 else 0)
    ensures (y + 1) / 100 == y / 100 + (if (y + 1) % 100 == 0 then 1 else 0)
    ensures (y + 1) / 400 == y / 400 + (if (y + 1) % 400 == 0 then 1 else 0)
  {
  }

  lemma FourHundredthYear(y: nat)
    ensures y % 400 == 0 ==> y % 100 == 0
  {
    if y % 400 == 0 {
      assert y == 100 * (4 * (y / 400));
    }
  }

  lemma CenturyYear(y: nat)
    ensures y % 100 == 0 ==> y % 4 == 0
  {
    if y % 100 == 0 {
      var centuries := y / 100;
      FourTimes(25 * centuries);
    }
  }

  lemma FourTimes(k: nat)
    ensures 4 * k % 4 == 0
  {
  }

  lemma YearLength(year: nat)
    requires year >= 1
    ensures DaysBeforeYear(year + 1) == DaysBeforeYear(year) + (if Leap(year) then 366 else 365)
  {
    QuotientSteps(year - 1);
    FourHundredthYear(year);
    CenturyYear(year);
  }

  lemma {:induction false} YearsApart(a: nat, b: nat)
    requires 1 <= a < b
    ensures DaysBeforeYear(b) >= DaysBeforeYear(a) + (if Leap(a) then 366 else 365)
    decreases b
  {
    if a + 1 == b {
      YearLength(a);
    } else {
      YearsApart(a, b - 1);
      YearLength(b - 1);
    }
  }

  lemma {:induction false} MonthsApart(year: nat, a: nat, b: nat)
    requires 1 <= a < b
    ensures DaysBeforeMonth(year, b) >= DaysBeforeMonth(year, a) + DaysInMonth(year, a)
    decreases b
  {
    if a + 1 < b {
      MonthsApart(year, a, b - 1);
    }
  }

  lemma MonthsFillYear(year: nat)
    ensures DaysBeforeMonth(year, 13) == if Leap(year) then 366 else 365
  {
    assert DaysBeforeMonth(year, 2) == 31;
    assert DaysBeforeMonth(year, 3) == 31 + DaysInMonth(year, 2);
    assert DaysBeforeMonth(year, 5) == DaysBeforeMonth(year, 3) + 61;
    assert DaysBeforeMonth(year, 7) == DaysBeforeMonth(year, 5) + 61;
    assert DaysBeforeMonth(year, 9) == DaysBeforeMonth(year, 7) + 62;
    assert DaysBeforeMonth(year, 11) == DaysBeforeMonth(year, 9) + 61;
    assert DaysBeforeMonth(year, 13) == DaysBeforeMonth(year, 11) + 61;
  }

  lemma OrdinalMonotone(a: Stamp, b: Stamp)
    requires Valid(a) && Valid(b)
    requires a.year < b.year || (a.year == b.year && (a.month < b.month || (a.month == b.month && a.day < b.day)))
    ensures Ordinal(a) < Ordinal(b)
  {
    if a.year < b.year {
      YearsApart(a.year, b.year);
      MonthsFillYear(a.year);
      MonthsApart(a.year, a.month, 13);
    } else if a.month < b.month {
      MonthsApart(a.year, a.month, b.month);
    }
  }

  lemma FieldsLessIsEarlier(a: Stamp, b: Stamp)
    requires Valid(a) && Valid(b) && FieldsLess(a, b)
    ensures Instant(a) < Instant(b)
  {
    if a.year != b.year || a.month != b.month || a.day != b.day {
      OrdinalMonotone(a, b);
    }
  }

  lemma InstantOrder(a: Stamp, b: Stamp)
    requires Valid(a) && Valid(b)
    ensures Instant(a) < Instant(b) <==> FieldsLess(a, b)
    ensures Instant(a) == Instant(b) <==> a == b
  {
    if FieldsLess(a, b) {
      FieldsLessIsEarlier(a, b);
    } else if FieldsLess(b, a) {
      FieldsLessIsEarlier(b, a);
    }
  }

  const MICROS_PER_DAY := 86_400_000_000

  /** From each day to the next, over the ends of months and years, is one day. */
  lemma NextDay(t: Stamp)
    requires Valid(t)
    ensures var leap := t.year % 4 == 0 && (t.year % 100 != 0 || t.year % 400 == 0);
            var length := if t.month == 2 then (if leap then 29 else 28)
                          else if t.month == 4 || t.month == 6 || t.month == 9 || t.month == 11 then 30 else 31;
            var next := if t.day < length then t.(day := t.day + 1)
                        else if t.month < 12 then t.(month := t.month + 1, day := 1)
                        else t.(year := t.year + 1, month := 1, day := 1);
            t.day <= length && Instant(next) == Instant(t) + MICROS_PER_DAY
  {
    YearLength(t.year);
    MonthsFillYear(t.year);
    if t.month == 12 {
      assert DaysBeforeMonth(t.year, 13) == DaysBeforeMonth(t.year, 12) + 31;
    }
  }

  /** 400 years are 146,097 days, and the time line has 1970 where it belongs. */
  lemma FourCenturies(year: nat)
    requires year >= 1
    ensures DaysBeforeYear(year + 400) == DaysBeforeYear(year) + 146_097
    ensures Instant(Stamp(1970, 1, 1, 0, 0, 0, 0)) == 719_163 * MICROS_PER_DAY
  {
    var y := year - 1;
    assert (y + 400) / 4 == y / 4 + 100 && (y + 400) / 100 == y / 100 + 4 && (y + 400) / 400 == y / 400 + 1;
  }

  // ----- Text order -----

  lemma DigitOrder(m: nat, n: nat)
    requires m < 10 && n < 10
    ensures Digit(m) < Digit(n) <==> m < n
    ensures Digit(m) == Digit(n) <==> m == n
  {
  }

  lemma LessAfterSameChar(c: char, d: char, x: string, y: string)
    ensures TextLess([c] + x, [d] + y) <==> c < d || (c == d && TextLess(x, y))
  {
    assert ([c] + x)[1..] == x && ([d] + y)[1..] == y;
  }

  /** A zero-padded field decides the comparison unless the two fields are equal. */
  lemma {:induction false} FieldDecides(m: nat, n: nat, width: nat, x: string, y: string)
    requires m < PowerOfTen(width) && n < PowerOfTen(width)
    ensures TextLess(Pad(m, width) + x, Pad(n, width) + y) <==> m < n || (m == n && TextLess(x, y))
  {
    if width == 0 {
      assert Pad(m, 0) + x == x && Pad(n, 0) + y == y;
    } else {
      assert Pad(m, width) + x == Pad(m / 10, width - 1) + ([Digit(m % 10)] + x);
      assert Pad(n, width) + y == Pad(n / 10, width - 1) + ([Digit(n % 10)] + y);
      FieldDecides(m / 10, n / 10, width - 1, [Digit(m % 10)] + x, [Digit(n % 10)] + y);
      LessAfterSameChar(Digit(m % 10), Digit(n % 10), x, y);
      DigitOrder(m % 10, n % 10);
    }
  }

  lemma {:induction false} NotLessItself(s: string)
    ensures !TextLess(s, s)
  {
    if s != "" {
      NotLessItself(s[1..]);
    }
  }

  /** The fraction may be missing: then '+' meets '.', which sorts after it. */
  lemma FractionDecides(m: nat, n: nat)
    requires m < 1_000_000 && n < 1_000_000
    ensures TextLess(Fraction(m) + "+00:00", Fraction(n) + "+00:00") <==> m < n
  {
    var zone := "+00:00";
    NotLessItself(zone);
    assert PowerOfTen(6) == 1_000_000;
    assert m == 0 ==> Fraction(m) + zone == ['+'] + "00:00";
    assert n == 0 ==> Fraction(n) + zone == ['+'] + "00:00";
    assert m > 0 ==> Fraction(m) + zone == ['.'] + (Pad(m, 6) + zone);
    assert n > 0 ==> Fraction(n) + zone == ['.'] + (Pad(n, 6) + zone);
    if m == 0 && n > 0 {
      LessAfterSameChar('+', '.', "00:00", Pad(n, 6) + zone);
    } else if m > 0 && n == 0 {
      LessAfterSameChar('.', '+', Pad(m, 6) + zone, "00:00");
    } else if m > 0 && n > 0 {
      LessAfterSameChar('.', '.', Pad(m, 6) + zone, Pad(n, 6) + zone);
      FieldDecides(m, n, 6, zone, zone);
    }
  }

  lemma TimeOfDayDecides(a: Stamp, b: Stamp)
    requires Valid(a) && Valid(b)
    ensures TextLess(TimeOfDay(a), TimeOfDay(b)) <==>
              FieldsLess(a.(year := b.year, month := b.month, day := b.day), b)
  {
    assert PowerOfTen(2) == 100;
    var s, s' := Fraction(a.micro) + "+00:00", Fraction(b.micro) + "+00:00";
    var m, m' := Pad(a.second, 2) + s, Pad(b.second, 2) + s';
    var h, h' := Pad(a.minute, 2) + ([':'] + m), Pad(b.minute, 2) + ([':'] + m');
    FractionDecides(a.micro, b.micro);
    FieldDecides(a.second, b.second, 2, s, s');
    LessAfterSameChar(':', ':', m, m');
    FieldDecides(a.minute, b.minute, 2, [':'] + m, [':'] + m');
    LessAfterSameChar(':', ':', h, h');
    FieldDecides(a.hour, b.hour, 2, [':'] + h, [':'] + h');
  }

  lemma TextOrder(a: Stamp, b: Stamp)
    requires Valid(a) && Valid(b)
    ensures TextLess(IsoText(a), IsoText(b)) <==> FieldsLess(a, b)
  {
    assert PowerOfTen(4) == 10_000 && PowerOfTen(2) == 100;
    var t, t' := TimeOfDay(a), TimeOfDay(b);
    var d, d' := Pad(a.day, 2) + (['T'] + t), Pad(b.day, 2) + (['T'] + t');
    var m, m' := Pad(a.month, 2) + (['-'] + d), Pad(b.month, 2) + (['-'] + d');
    TimeOfDayDecides(a, b);
    LessAfterSameChar('T', 'T', t, t');
    FieldDecides(a.day, b.day, 2, ['T'] + t, ['T'] + t');
    LessAfterSameChar('-', '-', d, d');
    FieldDecides(a.month, b.month, 2, ['-'] + d, ['-'] + d');
    LessAfterSameChar('-', '-', m, m');
    FieldDecides(a.year, b.year, 4, ['-'] + m, ['-'] + m');
  }

  // ----- Main results -----

  /** Stored timestamps sort as the instants they denote. */
  lemma TextSortsAsTime(a: Stamp, b: Stamp)
    requires Valid(a) && Valid(b)
    ensures TextLess(IsoText(a), IsoText(b)) <==> Instant(a) < Instant(b)
    ensures IsoText(a) == IsoText(b) <==> Instant(a) == Instant(b)
  {
    TextOrder(a, b);
    TextOrder(b, a);
    InstantOrder(a, b);
    InstantOrder(b, a);
    NotLessItself(IsoText(a));
  }

  /** The SELECT's `scheduled_at <= ?` and the DELETE's `completed_at < ?` compare instants. */
  lemma TextComparisonsAreTimeComparisons(stored: Stamp, now: Stamp)
    requires Valid(stored) && Valid(now)
    ensures (IsoText(stored) == IsoText(now) || TextLess(IsoText(stored), IsoText(now))) <==> Instant(stored) <= Instant(now)
    ensures TextLess(IsoText(stored), IsoText(now)) <==> Instant(stored) < Instant(now)
  {
    TextSortsAsTime(stored, now);
  }

  // ----- Reading back -----

  /** One of the two layouts that `isoformat` writes. */
  predicate LaidOut(text: string) {
    && (|text| == 25 || |text| == 32)
    && text[4] == '-' && text[7] == '-' && text[10] == 'T' && text[13] == ':' && text[16] == ':'
    && text[|text| - 6..] == "+00:00" && (|text| == 32 ==> text[19] == '.')
  }

  function ReadMicro(text: string): Option<nat>
    requires LaidOut(text)
  {
    if |text| == 25 then Some(0) else ParseDigits(text[20..26])
  }

  function Assemble(y: Option<nat>, mo: Option<nat>, d: Option<nat>, h: Option<nat>, mi: Option<nat>, s: Option<nat>,
                    us: Option<nat>): Option<Stamp> {
    if y.None? || mo.None? || d.None? || h.None? || mi.None? || s.None? || us.None? then None
    else
      var t := Stamp(y.value, mo.value, d.value, h.value, mi.value, s.value, us.value);
      if Valid(t) then Some(t) else None
  }

  /** `fromisoformat` on those layouts */
  function FromIso(text: string): Option<Stamp> {
    if !LaidOut(text) then None
    else Assemble(ParseDigits(text[..4]), ParseDigits(text[5..7]), ParseDigits(text[8..10]), ParseDigits(text[11..13]),
                  ParseDigits(text[14..16]), ParseDigits(text[17..19]), ReadMicro(text))
  }

  lemma IsoLayout(t: Stamp)
    ensures var text := IsoText(t);
            && |text| == (if t.micro == 0 then 25 else 32)
            && text[..4] == Pad(t.year, 4) && text[5..7] == Pad(t.month, 2) && text[8..10] == Pad(t.day, 2)
            && text[4] == '-' && text[7] == '-' && text[10] == 'T'
            && text[11..] == TimeOfDay(t)
  {
    var text := IsoText(t);
    var d := Pad(t.day, 2) + (['T'] + TimeOfDay(t));
    var m := Pad(t.month, 2) + (['-'] + d);
    assert text == Pad(t.year, 4) + (['-'] + m);
    FieldThen(Pad(t.year, 4), '-', m);
    FieldThen(Pad(t.month, 2), '-', d);
    FieldThen(Pad(t.day, 2), 'T', TimeOfDay(t));
    assert text[5..][3..] == text[8..] && text[8..][3..] == text[11..];
    assert text[5..][..2] == text[5..7] && text[8..][..2] == text[8..10];
    assert text[7] == text[5..][2] && text[10] == text[8..][2];
  }

  lemma FieldThen(field: string, c: char, rest: string)
    ensures var s := field + ([c] + rest);
            && |s| == |field| + 1 + |rest| && s[..|field|] == field && s[|field|] == c && s[|field| + 1..] == rest
  {
  }

  lemma TimeLayout(t: Stamp)
    ensures var s := TimeOfDay(t);
            && |s| == (if t.micro == 0 then 14 else 21)
            && s[..2] == Pad(t.hour, 2) && s[3..5] == Pad(t.minute, 2) && s[6..8] == Pad(t.second, 2)
            && s[2] == ':' && s[5] == ':'
            && s[8..] == Fraction(t.micro) + "+00:00"
  {
    var s := TimeOfDay(t);
    var f := Pad(t.second, 2) + (Fraction(t.micro) + "+00:00");
    var m := Pad(t.minute, 2) + ([':'] + f);
    assert s == Pad(t.hour, 2) + ([':'] + m);
    FieldThen(Pad(t.hour, 2), ':', m);
    FieldThen(Pad(t.minute, 2), ':', f);
    assert s[3..][3..] == s[6..] && s[6..][2..] == s[8..];
    assert s[3..][..2] == s[3..5] && s[6..][..2] == s[6..8] && s[5] == s[3..][2];
    assert f[..2] == Pad(t.second, 2) && f[2..] == Fraction(t.micro) + "+00:00";
  }

  /** The characters and the seven numerals at the places where the reader looks. */
  lemma IsoFields(t: Stamp)
    ensures var text := IsoText(t);
            && |text| == (if t.micro == 0 then 25 else 32)
            && text[4] == '-' && text[7] == '-' && text[10] == 'T' && text[13] == ':' && text[16] == ':'
            && text[..4] == Pad(t.year, 4) && text[5..7] == Pad(t.month, 2) && text[8..10] == Pad(t.day, 2)
            && text[11..13] == Pad(t.hour, 2) && text[14..16] == Pad(t.minute, 2) && text[17..19] == Pad(t.second, 2)
            && text[19..] == Fraction(t.micro) + "+00:00"
  {
    var text := IsoText(t);
    var s := TimeOfDay(t);
    IsoLayout(t);
    TimeLayout(t);
    assert text[11..13] == s[..2] && text[14..16] == s[3..5] && text[17..19] == s[6..8];
    assert text[13] == s[2] && text[16] == s[5];
    assert text[19..] == s[8..];
  }

  lemma ZonePlaced(t: Stamp)
    ensures var text := IsoText(t);
            && |text| == (if t.micro == 0 then 25 else 32) && text[|text| - 6..] == "+00:00"
            && (t.micro != 0 ==> text[19] == '.' && text[20..26] == Pad(t.micro, 6))
  {
    IsoFields(t);
    var text, zone := IsoText(t), "+00:00";
    if t.micro == 0 {
      assert Fraction(t.micro) + zone == zone;
    } else {
      var p := Pad(t.micro, 6);
      assert text[19..] == ['.'] + p + zone;
      assert text[19] == text[19..][0];
      assert text[20..26] == text[19..][1..7] == p;
      assert text[26..] == text[19..][7..] == zone;
    }
  }

  lemma IsoIsLaidOut(t: Stamp)
    requires t.micro < 1_000_000
    ensures LaidOut(IsoText(t)) && ReadMicro(IsoText(t)) == Some(t.micro)
  {
    IsoFields(t);
    ZonePlaced(t);
    assert PowerOfTen(6) == 1_000_000;
    ParsePad(t.micro, 6);
  }

  lemma FieldsRead(t: Stamp)
    requires Valid(t)
    ensures ParseDigits(Pad(t.year, 4)) == Some(t.year) && ParseDigits(Pad(t.month, 2)) == Some(t.month)
    ensures ParseDigits(Pad(t.day, 2)) == Some(t.day) && ParseDigits(Pad(t.hour, 2)) == Some(t.hour)
    ensures ParseDigits(Pad(t.minute, 2)) == Some(t.minute) && ParseDigits(Pad(t.second, 2)) == Some(t.second)
  {
    assert PowerOfTen(4) == 10_000 && PowerOfTen(2) == 100;
    ParsePad(t.year, 4);
    ParsePad(t.month, 2);
    ParsePad(t.day, 2);
    ParsePad(t.hour, 2);
    ParsePad(t.minute, 2);
    ParsePad(t.second, 2);
  }

  /** Reading a stored timestamp gives back the datetime that was stored. */
  lemma IsoRoundTrip(t: Stamp)
    requires Valid(t)
    ensures FromIso(IsoText(t)) == Some(t)
  {
    IsoIsLaidOut(t);
    IsoFields(t);
    FieldsRead(t);
  }
}
