/** UTC instants of the years 0 to 9999, their RFC 3339 text with nanoseconds, and the order of the text. */
module Timestamps {
  import opened Text

  const SECOND: nat := 1_000_000_000
  const DAY_SECONDS: nat := 86_400

  /** Nanoseconds since the start of year 0. */
  type Instant = nat

  // ---------- the calendar ----------

  predicate IsLeap(year: nat) { year % 4 == 0 && (year % 100 != 0 || year % 400 == 0) }

  function MonthLength(year: nat, month: nat): (days: nat)
    ensures 28 <= days <= 31
  {
    if month == 2 then (if IsLeap(year) then 29 else 28)
    else if month == 4 || month == 6 || month == 9 || month == 11 then 30
    else 31
  }

  /** The days of a year from the first of a month on. */
  function DaysFrom(year: nat, month: nat): nat
    requires 1 <= month <= 13
    decreases 13 - month
  {
    if month == 13 then 0 else MonthLength(year, month) + DaysFrom(year, month + 1)
  }

  function YearLength(year: nat): (days: nat)
    ensures days > 0
  {
    DaysFrom(year, 1)
  }

  datatype Date = Date(year: nat, month: nat, day: nat)

  /** The date that lies `day` days after the first of a month. */
  function DateInYear(year: nat, month: nat, day: nat): (d: Date)
    requires 1 <= month <= 12 && day < DaysFrom(year, month)
    ensures d.year == year && month <= d.month <= 12 && 1 <= d.day <= 31
    decreases 13 - month
  {
    if day < MonthLength(year, month) then Date(year, month, day + 1)
    else DateInYear(year, month + 1, day - MonthLength(year, month))
  }

  /** The date that lies `day` days after the start of a year. */
  function DateFrom(year: nat, day: nat): (d: Date)
    ensures d.year >= year && 1 <= d.month <= 12 && 1 <= d.day <= 31
    decreases day
  {
    if day < YearLength(year) then DateInYear(year, 1, day) else DateFrom(year + 1, day - YearLength(year))
  }

  predicate Earlier(a: Date, b: Date) {
    a.year < b.year || (a.year == b.year && (a.month < b.month || (a.month == b.month && a.day < b.day)))
  }

  lemma {:induction false} DatesInYearAscend(year: nat, month: nat, a: nat, b: nat)
    requires 1 <= month <= 12 && a < b < DaysFrom(year, month)
    ensures Earlier(DateInYear(year, month, a), DateInYear(year, month, b))
    decreases 13 - month
  {
    hide MonthLength;
    var length := MonthLength(year, month);
    if a >= length {
      DatesInYearAscend(year, month + 1, a - length, b - length);
    }
  }

  lemma {:induction false} DatesAscend(year: nat, a: nat, b: nat)
    requires a < b
    ensures Earlier(DateFrom(year, a), DateFrom(year, b))
    decreases a
  {
    if b < YearLength(year) {
      DatesInYearAscend(year, 1, a, b);
    } else if a >= YearLength(year) {
      DatesAscend(year + 1, a - YearLength(year), b - YearLength(year));
    }
  }

  function DaysBefore(year: nat): nat { if year == 0 then 0 else DaysBefore(year - 1) + YearLength(year - 1) }

  lemma YearHas(year: nat)
    ensures YearLength(year) == if IsLeap(year) then 366 else 365
  {
    assert DaysFrom(year, 12) == 31 && DaysFrom(year, 11) == 61 && DaysFrom(year, 10) == 92 && DaysFrom(year, 9) == 122;
    assert DaysFrom(year, 8) == 153 && DaysFrom(year, 7) == 184 && DaysFrom(year, 6) == 214 && DaysFrom(year, 5) == 245;
    assert DaysFrom(year, 4) == 275 && DaysFrom(year, 3) == 306;
  }

  /** Leap years before a year. */
  function LeapsBefore(year: nat): int { (year + 3) / 4 - (year + 99) / 100 + (year + 399) / 400 }

  lemma OneMoreMultiple(year: nat, n: nat)
    requires n == 4 || n == 100 || n == 400
    ensures (year + n) / n == (year + n - 1) / n + if year % n == 0 then 1 else 0
  {
  }

  lemma LeapStep(year: nat)
    ensures LeapsBefore(year + 1) == LeapsBefore(year) + if IsLeap(year) then 1 else 0
  {
    OneMoreMultiple(year, 4);
    OneMoreMultiple(year, 100);
    OneMoreMultiple(year, 400);
    MultiplesNest(year);
  }

  lemma MultiplesNest(year: nat)
    ensures (year % 400 == 0 ==> year % 100 == 0) && (year % 100 == 0 ==> year % 4 == 0)
  {
    HundredsInFourHundreds(year / 400);
    FoursInHundreds(year / 100);
  }

  lemma HundredsInFourHundreds(q: nat)
    ensures 400 * q % 100 == 0
  {
    var e := 4 * q - 400 * q / 100;
    assert 400 * q % 100 == 100 * e;
  }

  lemma FoursInHundreds(q: nat)
    ensures 100 * q % 4 == 0
  {
    var e := 25 * q - 100 * q / 4;
    assert 100 * q % 4 == 4 * e;
  }

  /** The Gregorian calendar: a leap day every four years, but not every hundred, and yet every four hundred. */
  lemma {:induction false} GregorianYears(year: nat)
    ensures DaysBefore(year) == 365 * year + LeapsBefore(year)
  {
    hide YearLength, IsLeap, LeapsBefore;
    if year == 0 {
      NoLeapsYet();
    } else {
      var last := year - 1;
      GregorianYears(last);
      YearHas(last);
      LeapStep(last);
      assert last + 1 == year;
      assert DaysBefore(year) == DaysBefore(last) + YearLength(last);
    }
  }

  lemma NoLeapsYet()
    ensures LeapsBefore(0) == 0
  {
  }

  // ---------- the text ----------

  function Pow10(width: nat): (p: nat)
    ensures p > 0
  {
    if width == 0 then 1 else 10 * Pow10(width - 1)
  }

  /** The last `width` decimal digits. */
  function Pad(n: nat, width: nat): (s: string)
    ensures |s| == width && AllDigits(s)
  {
    if width == 0 then "" else Pad(n / 10, width - 1) + [Digit(n % 10)]
  }

  function TrimZeros(s: string): (t: string)
    ensures t <= s
  {
    if s != "" && s[|s| - 1] == '0' then TrimZeros(s[..|s| - 1]) else s
  }

  datatype Field = Field(lead: string, value: nat, width: nat)

  function Render(fields: seq<Field>): string {
    if fields == [] then "" else fields[0].lead + Pad(fields[0].value, fields[0].width) + Render(fields[1..])
  }

  /** Year, month, day, hour, minute and second of a whole second. */
  function Fields(second: nat): (fields: seq<Field>)
    ensures |fields| == 6
  {
    var date := DateFrom(0, second / DAY_SECONDS);
    var rest := second % DAY_SECONDS;
    [Field("", date.year, 4), Field("-", date.month, 2), Field("-", date.day, 2),
     Field("T", rest / 3600, 2), Field(":", rest % 3600 / 60, 2), Field(":", rest % 60, 2)]
  }

  /** The digits of the fraction: nine, less the zeros at the end. */
  function Fraction(t: Instant): string { TrimZeros(Pad(t % SECOND, 9)) }

  function Tail(fraction: string): string { if fraction == "" then "Z" else "." + fraction + "Z" }

  function WholeSecond(t: Instant): nat { t / SECOND }

  /** Format(time.RFC3339Nano) of a UTC time. */
  function Stamp(t: Instant): string { Render(Fields(WholeSecond(t))) + Tail(Fraction(t)) }

  /** The years that four digits can show. */
  predicate FourDigitYear(t: Instant) { DateFrom(0, WholeSecond(t) / DAY_SECONDS).year <= 9999 }

  // ---------- numerals of one width ----------

  /** The first digit in which two numerals of one width differ. */
  lemma {:induction false} FirstDifference(m: nat, n: nat, width: nat) returns (k: nat)
    requires m < n < Pow10(width)
    ensures k < width && Pad(m, width)[..k] == Pad(n, width)[..k] && Pad(m, width)[k] < Pad(n, width)[k]
  {
    if m / 10 < n / 10 {
      k := FirstDifference(m / 10, n / 10, width - 1);
      assert Pad(m, width)[..k] == Pad(m / 10, width - 1)[..k];
      assert Pad(n, width)[..k] == Pad(n / 10, width - 1)[..k];
    } else {
      k := width - 1;
    }
  }

  lemma PadOrder(m: nat, n: nat, width: nat)
    requires m < n < Pow10(width)
    ensures Less(Pad(m, width), Pad(n, width)) && Pad(m, width) != Pad(n, width)
  {
    var k := FirstDifference(m, n, width);
    LessAtFirstDifference(Pad(m, width), Pad(n, width), k);
  }

  // ---------- whole seconds ----------

  /** The same layout, with room for every value. */
  predicate SameLayout(a: seq<Field>, b: seq<Field>) {
    |a| == |b| && forall i :: 0 <= i < |a| ==>
      a[i].lead == b[i].lead && a[i].width == b[i].width && a[i].value < Pow10(a[i].width) && b[i].value < Pow10(b[i].width)
  }

  predicate FieldsLess(a: seq<Field>, b: seq<Field>)
    requires |a| == |b|
  {
    a != [] && (a[0].value < b[0].value || (a[0].value == b[0].value && FieldsLess(a[1..], b[1..])))
  }

  lemma {:induction false} RenderOrder(a: seq<Field>, b: seq<Field>, x: string, y: string)
    requires SameLayout(a, b) && FieldsLess(a, b)
    ensures Less(Render(a) + x, Render(b) + y)
  {
    hide Pad, Less;
    var f, g := a[0], b[0];
    var restA, restB := Render(a[1..]) + x, Render(b[1..]) + y;
    assert Render(a) + x == f.lead + (Pad(f.value, f.width) + restA);
    assert Render(b) + y == f.lead + (Pad(g.value, f.width) + restB);
    LessAfterHead(f.lead, Pad(f.value, f.width) + restA, Pad(g.value, f.width) + restB);
    if f.value < g.value {
      PadOrder(f.value, g.value, f.width);
      LessByHead(Pad(f.value, f.width), Pad(g.value, f.width), restA, restB);
    } else {
      RenderOrder(a[1..], b[1..], x, y);
      LessAfterHead(Pad(f.value, f.width), restA, restB);
    }
  }

  lemma FieldsAscend(a: nat, b: nat)
    requires a < b
    ensures FieldsLess(Fields(a), Fields(b))
  {
    hide DateFrom, FieldsLess;
    var dayA, dayB, restA, restB := a / DAY_SECONDS, b / DAY_SECONDS, a % DAY_SECONDS, b % DAY_SECONDS;
    if dayA < dayB {
      DatesAscend(0, dayA, dayB);
      DateDecides(Fields(a), Fields(b), DateFrom(0, dayA), DateFrom(0, dayB));
    } else {
      ClockAscends(restA, restB);
      ClockDecides(Fields(a), Fields(b));
    }
  }

  lemma ClockIsRight(rest: nat)
    requires rest < DAY_SECONDS
    ensures rest / 3600 < 24 && rest % 3600 / 60 < 60 && rest % 60 < 60
    ensures rest / 3600 * 3600 + rest % 3600 / 60 * 60 + rest % 60 == rest
  {
    assert rest % 60 == rest % 3600 % 60;
  }

  lemma ClockAscends(a: nat, b: nat)
    requires a < b < DAY_SECONDS
    ensures a / 3600 < b / 3600
            || (a / 3600 == b / 3600 && (a % 3600 / 60 < b % 3600 / 60 || (a % 3600 / 60 == b % 3600 / 60 && a % 60 < b % 60)))
  {
    ClockIsRight(a);
    ClockIsRight(b);
    LaterClock(a / 3600, a % 3600 / 60, a % 60, b / 3600, b % 3600 / 60, b % 60);
  }

  lemma LaterClock(h: nat, m: nat, s: nat, i: nat, n: nat, t: nat)
    requires m < 60 && s < 60 && n < 60 && t < 60 && h * 3600 + m * 60 + s < i * 3600 + n * 60 + t
    ensures h < i || (h == i && (m < n || (m == n && s < t)))
  {
  }

  lemma DateDecides(a: seq<Field>, b: seq<Field>, x: Date, y: Date)
    requires |a| == |b| == 6 && Earlier(x, y)
    requires a[0].value == x.year && a[1].value == x.month && a[2].value == x.day
    requires b[0].value == y.year && b[1].value == y.month && b[2].value == y.day
    ensures FieldsLess(a, b)
  {
    assert a[1..][0] == a[1] && a[1..][1..][0] == a[2] && b[1..][0] == b[1] && b[1..][1..][0] == b[2];
  }

  lemma ClockDecides(a: seq<Field>, b: seq<Field>)
    requires |a| == |b| == 6 && a[..3] == b[..3]
    requires a[3].value < b[3].value
             || (a[3].value == b[3].value && (a[4].value < b[4].value || (a[4].value == b[4].value && a[5].value < b[5].value)))
    ensures FieldsLess(a, b)
  {
    assert forall i :: 0 <= i < 3 ==> a[i] == a[..3][i] == b[..3][i] == b[i];
    assert a[3..] == [a[3], a[4], a[5]] && b[3..] == [b[3], b[4], b[5]];
    assert FieldsLess(a[3..], b[3..]);
    assert a[2..][1..] == a[3..] && b[2..][1..] == b[3..] && a[1..][1..] == a[2..] && b[1..][1..] == b[2..];
  }

  lemma PowersOfTen()
    ensures Pow10(2) == 100 && Pow10(4) == 10_000 && Pow10(9) == SECOND
  {
    assert Pow10(1) == 10 && Pow10(3) == 1000 && Pow10(6) == 1_000_000;
  }

  lemma FieldsFit(a: nat, b: nat)
    requires DateFrom(0, a / DAY_SECONDS).year <= 9999 && DateFrom(0, b / DAY_SECONDS).year <= 9999
    ensures SameLayout(Fields(a), Fields(b))
  {
    hide DateFrom, Pow10;
    PowersOfTen();
    var restA, restB := a % DAY_SECONDS, b % DAY_SECONDS;
    assert restA / 3600 < 24 && restA % 3600 / 60 < 60 && restA % 60 < 60;
    assert restB / 3600 < 24 && restB % 3600 / 60 < 60 && restB % 60 < 60;
  }

  /** In different whole seconds, the earlier instant has the smaller text. */
  lemma EarlierSecondIsLess(s: Instant, t: Instant)
    requires FourDigitYear(s) && FourDigitYear(t) && WholeSecond(s) < WholeSecond(t)
    ensures Less(Stamp(s), Stamp(t))
  {
    hide Render, Fields;
    FieldsAscend(WholeSecond(s), WholeSecond(t));
    FieldsFit(WholeSecond(s), WholeSecond(t));
    RenderOrder(Fields(WholeSecond(s)), Fields(WholeSecond(t)), Tail(Fraction(s)), Tail(Fraction(t)));
  }

  // ---------- inside one second ----------

  lemma {:induction false} TrimmedLength(s: string, k: nat)
    requires k < |s| && s[k] != '0'
    ensures |TrimZeros(s)| > k
  {
    if s[|s| - 1] == '0' {
      TrimmedLength(s[..|s| - 1], k);
    }
  }

  /** Of two fractions, the text of the smaller is the smaller, unless its digits begin those of the larger. */
  lemma FractionOrder(m: nat, n: nat)
    requires m < n < SECOND
    ensures var p, q := TrimZeros(Pad(m, 9)), TrimZeros(Pad(n, 9));
            if p <= q then Less(Tail(q), Tail(p)) else Less(Tail(p), Tail(q))
  {
    PowersOfTen();
    var x, y := Pad(m, 9), Pad(n, 9);
    var p, q := TrimZeros(x), TrimZeros(y);
    var k := FirstDifference(m, n, 9);
    assert IsDigit(x[k]);
    TrimmedLength(y, k);
    TailOrder(x, y, p, q, k);
  }

  lemma TailOrder(x: string, y: string, p: string, q: string, k: nat)
    requires AllDigits(y) && k < |x| == |y| && x[..k] == y[..k] && x[k] < y[k]
    requires p <= x && q <= y && |q| > k
    ensures if p <= q then Less(Tail(q), Tail(p)) else Less(Tail(p), Tail(q))
  {
    hide Tail, Less;
    assert q[..k] == y[..k] && q[k] == y[k] && AllDigits(q);
    if |p| > k {
      assert p[..k] == x[..k] && p[k] == x[k];
      TailDiffers(p, q, k);
    } else {
      assert p == x[..|p|] == x[..k][..|p|] == y[..k][..|p|] == q[..|p|];
      TailBegins(p, q);
    }
  }

  lemma TailDiffers(p: string, q: string, k: nat)
    requires k < |p| && k < |q| && p[..k] == q[..k] && p[k] < q[k]
    ensures !(p <= q) && Less(Tail(p), Tail(q))
  {
    assert Tail(p)[..k + 1] == "." + p[..k] == "." + q[..k] == Tail(q)[..k + 1];
    LessAtFirstDifference(Tail(p), Tail(q), k + 1);
  }

  lemma TailBegins(p: string, q: string)
    requires p < q && AllDigits(q)
    ensures Less(Tail(q), Tail(p))
  {
    assert IsDigit(q[|p|]);
    if p != "" {
      assert Tail(p)[..|p| + 1] == "." + p == Tail(q)[..|p| + 1];
      LessAtFirstDifference(Tail(q), Tail(p), |p| + 1);
    } else {
      LessAtFirstDifference(Tail(q), Tail(p), 0);
    }
  }

  // ---------- the order of the text ----------

  /** The earlier instant has the smaller text exactly when the two do not share a second in which its digits begin the other's. */
  lemma TextOrder(s: Instant, t: Instant)
    requires FourDigitYear(s) && FourDigitYear(t) && s < t
    ensures Less(Stamp(s), Stamp(t)) <==> !(WholeSecond(s) == WholeSecond(t) && Fraction(s) <= Fraction(t))
    ensures !Less(Stamp(s), Stamp(t)) ==> Less(Stamp(t), Stamp(s))
  {
    if WholeSecond(s) < WholeSecond(t) {
      EarlierSecondIsLess(s, t);
    } else {
      var head := Render(Fields(WholeSecond(s)));
      hide Render, Fields;
      FractionOrder(s % SECOND, t % SECOND);
      LessAfterHead(head, Tail(Fraction(s)), Tail(Fraction(t)));
      LessAfterHead(head, Tail(Fraction(t)), Tail(Fraction(s)));
      LessTrichotomy(Stamp(s), Stamp(t));
    }
  }

  /** In different whole seconds, text order is time order. */
  lemma TextOrderIsTimeOrder(s: Instant, t: Instant)
    requires FourDigitYear(s) && FourDigitYear(t) && WholeSecond(s) != WholeSecond(t)
    ensures Less(Stamp(s), Stamp(t)) <==> s < t
  {
    if s < t {
      EarlierSecondIsLess(s, t);
    } else {
      EarlierSecondIsLess(t, s);
      LessTrichotomy(Stamp(s), Stamp(t));
    }
  }

  /** In one second it need not be: half past a second sorts before the second itself. */
  lemma HalfSecondSortsFirst()
    ensures FourDigitYear(0) && FourDigitYear(500_000_000) && Less(Stamp(500_000_000), Stamp(0))
  {
    assert Pad(0, 9) == Pad(0, 8) + "0";
    TrimmedPrefix(0, 500_000_000);
    TextOrder(0, 500_000_000);
  }

  lemma TrimmedPrefix(s: Instant, t: Instant)
    requires s % SECOND == 0
    ensures Fraction(s) <= Fraction(t)
  {
    ZerosTrim(9);
  }

  lemma {:induction false} ZerosTrim(width: nat)
    ensures TrimZeros(Pad(0, width)) == ""
  {
    if width > 0 {
      ZerosTrim(width - 1);
    }
  }

  /** Different instants have different texts. */
  lemma StampInjective(s: Instant, t: Instant)
    requires FourDigitYear(s) && FourDigitYear(t)
    ensures Stamp(s) == Stamp(t) <==> s == t
  {
    if s < t {
      TextOrder(s, t);
      LessTrichotomy(Stamp(s), Stamp(t));
    } else if t < s {
      TextOrder(t, s);
      LessTrichotomy(Stamp(s), Stamp(t));
    }
  }

  // ---------- reading a stamp ----------

  /** Days from the start of year 0 to a date. */
  function DayNumber(date: Date): int
    requires 1 <= date.month <= 12
  {
    DaysBefore(date.year) + YearLength(date.year) - DaysFrom(date.year, date.month) + date.day - 1
  }

  lemma {:induction false} DateInYearIsRight(year: nat, month: nat, day: nat)
    requires 1 <= month <= 12 && day < DaysFrom(year, month)
    ensures var d := DateInYear(year, month, day);
            d.day <= MonthLength(year, d.month) && DaysFrom(year, d.month) - d.day == DaysFrom(year, month) - day - 1
    decreases 13 - month
  {
    if day >= MonthLength(year, month) {
      DateInYearIsRight(year, month + 1, day - MonthLength(year, month));
    }
  }

  /** Day numbers and calendar dates are inverse. */
  lemma {:induction false} DateIsRight(year: nat, day: nat)
    ensures var d := DateFrom(year, day); d.day <= MonthLength(d.year, d.month) && DayNumber(d) == DaysBefore(year) + day
    decreases day
  {
    hide DaysFrom, MonthLength, DateInYear;
    if day < YearLength(year) {
      DateInYearIsRight(year, 1, day);
    } else {
      DateIsRight(year + 1, day - YearLength(year));
      assert DaysBefore(year + 1) == DaysBefore(year) + YearLength(year);
    }
  }

  /** The six numerals of a stamp, with their separators and widths; the values are not read. */
  const LAYOUT: seq<Field> := [Field("", 0, 4), Field("-", 0, 2), Field("-", 0, 2), Field("T", 0, 2), Field(":", 0, 2), Field(":", 0, 2)]

  /** The epoch of Unix time, by its day number. */
  lemma EpochIsRight(epoch: Date)
    requires epoch == Date(1970, 1, 1)
    ensures DayNumber(epoch) == 719_528
  {
    hide DaysBefore, DaysFrom;
    GregorianYears(epoch.year);
  }

  /** time.Parse on the shape that Stamp prints: six numerals, then a fraction of one to nine digits or none. */
  function ReadStamp(text: string): Option<int> {
    match ReadFields(text, LAYOUT)
    case None => None
    case Some((v, tail)) =>
      var second, nanoseconds := SecondOf(v[0], v[1], v[2], v[3], v[4], v[5]), ReadTail(tail);
      if second.Some? && nanoseconds.Some? then Some(second.value * SECOND + nanoseconds.value) else None
  }

  /** Numerals of the layout's widths behind its separators, and what follows them. */
  function ReadFields(text: string, layout: seq<Field>): (r: Option<(seq<nat>, string)>)
    ensures r.Some? ==> |r.value.0| == |layout|
  {
    if layout == [] then Some(([], text))
    else
      var start, end := |layout[0].lead|, |layout[0].lead| + layout[0].width;
      if !(layout[0].lead <= text) || |text| < end || !AllDigits(text[start..end]) then None
      else
        match ReadFields(text[end..], layout[1..])
        case None => None
        case Some((values, rest)) => Some(([ValueOf(text[start..end])] + values, rest))
  }

  function SecondOf(year: nat, month: nat, day: nat, hour: nat, minute: nat, second: nat): Option<int> {
    if 1 <= month <= 12 && 1 <= day <= MonthLength(year, month) && hour < 24 && minute < 60 && second < 60 then
      Some(DayNumber(Date(year, month, day)) * DAY_SECONDS + hour * 3600 + minute * 60 + second)
    else None
  }

  function ReadTail(tail: string): Option<nat> {
    if tail == "Z" then Some(0)
    else if |tail| < 3 || |tail| > 11 || tail[0] != '.' || tail[|tail| - 1] != 'Z' then None
    else
      var digits := tail[1..|tail| - 1];
      if AllDigits(digits) then Some(ValueOf(digits) * Pow10(9 - |digits|)) else None
  }

  lemma {:induction false} PadReadsBack(n: nat, width: nat)
    requires n < Pow10(width)
    ensures ValueOf(Pad(n, width)) == n
  {
    if width > 0 {
      PadReadsBack(n / 10, width - 1);
      assert Pad(n, width)[..width - 1] == Pad(n / 10, width - 1);
    }
  }

  lemma TenTimes(x: nat, y: nat)
    ensures x * (10 * y) == 10 * (x * y)
  {
  }

  lemma {:induction false} TrimmedReadsBack(s: string)
    requires AllDigits(s)
    ensures AllDigits(TrimZeros(s)) && ValueOf(TrimZeros(s)) * Pow10(|s| - |TrimZeros(s)|) == ValueOf(s)
  {
    if s != "" && s[|s| - 1] == '0' {
      var front := s[..|s| - 1];
      TrimmedReadsBack(front);
      assert TrimZeros(s) == TrimZeros(front) && ValueOf(s) == 10 * ValueOf(front);
      var value, dropped := ValueOf(TrimZeros(front)), |front| - |TrimZeros(front)|;
      hide TrimZeros, ValueOf;
      assert Pow10(dropped + 1) == 10 * Pow10(dropped);
      TenTimes(value, Pow10(dropped));
    }
  }

  lemma TailReadsBack(t: Instant)
    ensures ReadTail(Tail(Fraction(t))) == Some(t % SECOND)
  {
    PowersOfTen();
    var digits := Pad(t % SECOND, 9);
    PadReadsBack(t % SECOND, 9);
    TrimmedReadsBack(digits);
    hide Pow10, Pad;
    var fraction := Fraction(t);
    if fraction != "" {
      assert Tail(fraction)[1..|fraction| + 1] == fraction;
    }
  }

  function ValuesOf(fields: seq<Field>): (values: seq<nat>)
    ensures |values| == |fields| && forall i :: 0 <= i < |values| ==> values[i] == fields[i].value
  {
    if fields == [] then [] else [fields[0].value] + ValuesOf(fields[1..])
  }

  predicate FitsLayout(fields: seq<Field>, layout: seq<Field>) {
    |fields| == |layout| && forall i :: 0 <= i < |fields| ==>
      fields[i].lead == layout[i].lead && fields[i].width == layout[i].width && fields[i].value < Pow10(fields[i].width)
  }

  lemma Pieces(lead: string, digits: string, rest: string)
    ensures var text, end := lead + digits + rest, |lead| + |digits|;
            lead <= text && end <= |text| && text[|lead|..end] == digits && text[end..] == rest
  {
  }

  /** Reading printed fields by their layout gives back their values and what followed them. */
  lemma {:induction false} RenderReadsBack(fields: seq<Field>, layout: seq<Field>, tail: string)
    requires FitsLayout(fields, layout)
    ensures ReadFields(Render(fields) + tail, layout) == Some((ValuesOf(fields), tail))
  {
    hide Pad, ValueOf, Pow10;
    if fields == [] {
      assert "" + tail == tail;
    } else {
      var f := fields[0];
      var digits, rest := Pad(f.value, f.width), Render(fields[1..]) + tail;
      PadReadsBack(f.value, f.width);
      RenderReadsBack(fields[1..], layout[1..], tail);
      Pieces(f.lead, digits, rest);
      RenderStarts(fields, tail);
    }
  }

  lemma RenderStarts(fields: seq<Field>, tail: string)
    requires fields != []
    ensures Render(fields) + tail == fields[0].lead + Pad(fields[0].value, fields[0].width) + (Render(fields[1..]) + tail)
  {
    hide Pad;
  }

  lemma FieldValues(second: nat)
    ensures var f := Fields(second); SecondOf(f[0].value, f[1].value, f[2].value, f[3].value, f[4].value, f[5].value) == Some(second)
  {
    var day, rest := second / DAY_SECONDS, second % DAY_SECONDS;
    var date := DateFrom(0, day);
    DateOfDay(day);
    ClockIsRight(rest);
    hide DateFrom, DayNumber, MonthLength;
    assert Date(date.year, date.month, date.day) == date;
    assert SecondOf(date.year, date.month, date.day, rest / 3600, rest % 3600 / 60, rest % 60) == Some(day * DAY_SECONDS + rest);
  }

  lemma DateOfDay(day: nat)
    ensures var d := DateFrom(0, day); d.day <= MonthLength(d.year, d.month) && DayNumber(d) == day
  {
    DateIsRight(0, day);
    hide DateFrom, DayNumber, MonthLength;
    assert DaysBefore(0) == 0;
  }

  lemma FieldsReadBack(second: nat)
    ensures var v := ValuesOf(Fields(second)); SecondOf(v[0], v[1], v[2], v[3], v[4], v[5]) == Some(second)
  {
    hide SecondOf;
    var f, v := Fields(second), ValuesOf(Fields(second));
    assert SecondOf(f[0].value, f[1].value, f[2].value, f[3].value, f[4].value, f[5].value) == Some(second) by { FieldValues(second); }
    assert v[0] == f[0].value && v[1] == f[1].value && v[2] == f[2].value && v[3] == f[3].value && v[4] == f[4].value && v[5] == f[5].value;
    hide Fields, ValuesOf;
  }

  lemma FieldsFitLayout(second: nat)
    requires DateFrom(0, second / DAY_SECONDS).year <= 9999
    ensures FitsLayout(Fields(second), LAYOUT)
  {
    FieldsFit(second, second);
    hide DateFrom, Pow10;
  }

  /** Reading a stamp gives back the instant, to the nanosecond. */
  lemma StampReadsBack(t: Instant)
    requires FourDigitYear(t)
    ensures ReadStamp(Stamp(t)) == Some(t)
  {
    hide Render, Fields, ReadFields, ReadTail, Fraction, DateFrom, SecondOf, ValuesOf, FitsLayout;
    var second, tail := WholeSecond(t), Tail(Fraction(t));
    FieldsFitLayout(second);
    RenderReadsBack(Fields(second), LAYOUT, tail);
    FieldsReadBack(second);
    TailReadsBack(t);
  }
}
