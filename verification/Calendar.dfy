/** Session expiry times: UTC instants and their canonical RFC 3339 text, sections 5.6 and 5.7 (session.py). */
module Calendar {
  import opened Wrappers
  import opened Text

  const MICROS_PER_SECOND := 1_000_000
  const MICROS_PER_DAY := 86_400 * MICROS_PER_SECOND
  const DAYS_IN_RANGE := 3_652_059

  /** Microseconds since 0001-01-01T00:00:00Z, up to the last instant a datetime can hold. */
  type Instant = i: int | 0 <= i < DAYS_IN_RANGE * MICROS_PER_DAY witness 0

  datatype Civil = Civil(year: nat, month: nat, day: nat, hour: nat, minute: nat, second: nat, micro: nat)

  predicate IsLeap(year: nat) {
    year % 4 == 0 && (year % 100 != 0 || year % 400 == 0)
  }

  /** Days of the proleptic Gregorian calendar before 1 January of `year`. */
  function DaysBeforeYear(year: nat): int
    requires year >= 1
  {
    var y := year - 1;
    365 * y + y / 4 - y / 100 + y / 400
  }

  function MonthLength(year: nat, month: nat): (days: nat)
    requires 1 <= month <= 12
    ensures 28 <= days <= 31
  {
    if month == 2 then (if IsLeap(year) then 29 else 28)
    else if month == 4 || month == 6 || month == 9 || month == 11 then 30
    else 31
  }

  function DaysBeforeMonth(year: nat, month: nat): nat
    requires 1 <= month <= 13
  {
    if month == 1 then 0 else DaysBeforeMonth(year, month - 1) + MonthLength(year, month - 1)
  }

  predicate ValidCivil(c: Civil) {
    && 1 <= c.year <= 9999 && 1 <= c.month <= 12 && 1 <= c.day <= MonthLength(c.year, c.month)
    && c.hour < 24 && c.minute < 60 && c.second < 60 && c.micro < MICROS_PER_SECOND
  }

  /** The months of a common year and of a leap year: one that is divisible by 4, and if by 100 then by 400. */
  lemma MonthsInLiterals(year: nat, month: nat)
    requires 1 <= month <= 12
    ensures var february := if year % 4 == 0 && (year % 100 == 0 ==> year % 400 == 0) then 29 else 28;
            MonthLength(year, month) == [31, february, 31, 30, 31, 30, 31, 31, 30, 31, 30, 31][month - 1]
  {
  }

  /** The months of a year, one after the other. */
  lemma MonthStep(year: nat, month: nat)
    requires 2 <= month <= 13
    ensures DaysBeforeMonth(year, month) == DaysBeforeMonth(year, month - 1) + MonthLength(year, month - 1)
  {
  }

  lemma FirstMonths(year: nat)
    ensures DaysBeforeMonth(year, 7) == if IsLeap(year) then 182 else 181
  {
    hide DaysBeforeMonth, IsLeap;
    assert DaysBeforeMonth(year, 1) == 0 by { NoMonths(year); }
    MonthStep(year, 2);
    MonthStep(year, 3);
    MonthStep(year, 4);
    MonthStep(year, 5);
    MonthStep(year, 6);
    MonthStep(year, 7);
  }

  lemma NoMonths(year: nat)
    ensures DaysBeforeMonth(year, 1) == 0
  {
  }

  lemma AllMonths(year: nat)
    ensures DaysBeforeMonth(year, 13) == if IsLeap(year) then 366 else 365
  {
    hide DaysBeforeMonth, IsLeap;
    FirstMonths(year);
    MonthStep(year, 8);
    MonthStep(year, 9);
    MonthStep(year, 10);
    MonthStep(year, 11);
    MonthStep(year, 12);
    MonthStep(year, 13);
  }

  lemma FourthYear(year: nat)
    requires year >= 1
    ensures year / 4 == (year - 1) / 4 + if year % 4 == 0 then 1 else 0
  {
  }

  lemma HundredthYear(year: nat)
    requires year >= 1
    ensures year / 100 == (year - 1) / 100 + if year % 100 == 0 then 1 else 0
  {
  }

  lemma FourHundredthYear(year: nat)
    requires year >= 1
    ensures year / 400 == (year - 1) / 400 + if year % 400 == 0 then 1 else 0
  {
  }

  lemma MultipleOfFour(n: nat)
    ensures (4 * n) % 4 == 0
  {
  }

  lemma MultipleOfHundred(n: nat)
    ensures (100 * n) % 100 == 0
  {
  }

  lemma HundredthIsFourth(year: nat)
    ensures year % 100 == 0 ==> year % 4 == 0
  {
    if year % 100 == 0 {
      MultipleOfFour(25 * (year / 100));
    }
  }

  lemma FourHundredthIsHundredth(year: nat)
    ensures year % 400 == 0 ==> year % 100 == 0
  {
    if year % 400 == 0 {
      MultipleOfHundred(4 * (year / 400));
    }
  }

  lemma YearLength(year: nat)
    requires year >= 1
    ensures DaysBeforeYear(year + 1) == DaysBeforeYear(year) + DaysBeforeMonth(year, 13)
    ensures DaysBeforeMonth(year, 13) == if IsLeap(year) then 366 else 365
  {
    hide DaysBeforeMonth;
    AllMonths(year);
    FourthYear(year);
    HundredthYear(year);
    FourHundredthYear(year);
    HundredthIsFourth(year);
    FourHundredthIsHundredth(year);
  }

  /** The year, no earlier than `from`, that contains day number `days`. */
  function YearOf(days: nat, from: nat): (year: nat)
    requires from >= 1 && DaysBeforeYear(from) <= days < DAYS_IN_RANGE
    ensures from <= year <= 9999
    ensures DaysBeforeYear(year) <= days < DaysBeforeYear(year + 1)
    decreases 10_000 - from
  {
    YearLength(from);
    assert from <= 9999;
    if days < DaysBeforeYear(from + 1) then from else YearOf(days, from + 1)
  }

  /** The month, no earlier than `from`, that contains day `rest` of `year`. */
  function MonthOf(year: nat, rest: nat, from: nat): (month: nat)
    requires 1 <= from <= 12 && DaysBeforeMonth(year, from) <= rest < DaysBeforeMonth(year, 13)
    ensures from <= month <= 12
    ensures DaysBeforeMonth(year, month) <= rest < DaysBeforeMonth(year, month + 1)
    decreases 12 - from
  {
    if rest < DaysBeforeMonth(year, from + 1) then from else MonthOf(year, rest, from + 1)
  }

  function ToCivil(t: Instant): (c: Civil)
    ensures ValidCivil(c)
  {
    var days, clock := t / MICROS_PER_DAY, t % MICROS_PER_DAY;
    var year := YearOf(days, 1);
    YearLength(year);
    var rest := days - DaysBeforeYear(year);
    var month := MonthOf(year, rest, 1);
    var seconds := clock / MICROS_PER_SECOND;
    Civil(year, month, rest - DaysBeforeMonth(year, month) + 1,
          seconds / 3600, seconds / 60 % 60, seconds % 60, clock % MICROS_PER_SECOND)
  }

  function DayNumber(c: Civil): int
    requires ValidCivil(c)
  {
    DaysBeforeYear(c.year) + DaysBeforeMonth(c.year, c.month) + c.day - 1
  }

  function SecondOfDay(c: Civil): nat {
    (c.hour * 60 + c.minute) * 60 + c.second
  }

  function FromCivil(c: Civil): Option<Instant>
    requires ValidCivil(c)
  {
    var t := DayNumber(c) * MICROS_PER_DAY + SecondOfDay(c) * MICROS_PER_SECOND + c.micro;
    if 0 <= t < DAYS_IN_RANGE * MICROS_PER_DAY then Some(t) else None
  }

  lemma SecondsRoundTrip(seconds: nat)
    ensures (seconds / 3600 * 60 + seconds / 60 % 60) * 60 + seconds % 60 == seconds
  {
    assert seconds / 3600 == seconds / 60 / 60;
  }

  lemma ClockRoundTrip(t: Instant)
    ensures var c := ToCivil(t);
            SecondOfDay(c) * MICROS_PER_SECOND + c.micro == t % MICROS_PER_DAY
  {
    var clock := t % MICROS_PER_DAY;
    SecondsRoundTrip(clock / MICROS_PER_SECOND);
    assert SecondOfDay(ToCivil(t)) == clock / MICROS_PER_SECOND;
  }

  lemma DayRoundTrip(t: Instant)
    ensures DayNumber(ToCivil(t)) == t / MICROS_PER_DAY
  {
  }

  lemma CivilRoundTrip(t: Instant)
    ensures FromCivil(ToCivil(t)) == Some(t)
  {
    hide ToCivil, DayNumber, SecondOfDay;
    ClockRoundTrip(t);
    DayRoundTrip(t);
  }

  function Fraction(micro: nat): string {
    if micro == 0 then "" else "." + Padded(micro, 6)
  }

  function DateText(c: Civil): (s: string)
    ensures |s| == 10
  {
    Padded(c.year, 4) + "-" + Padded(c.month, 2) + "-" + Padded(c.day, 2)
  }

  function ClockText(c: Civil): (s: string)
    ensures |s| == 8
  {
    Padded(c.hour, 2) + ":" + Padded(c.minute, 2) + ":" + Padded(c.second, 2)
  }

  function CivilText(c: Civil): string {
    DateText(c) + "T" + ClockText(c) + Fraction(c.micro) + "Z"
  }

  /** `_format_expiry`: whole seconds unless there is a fraction. */
  function FormatExpiry(t: Instant): string {
    CivilText(ToCivil(t))
  }

  function Field(s: string, from: nat, to: nat): Option<nat>
    requires from <= to <= |s|
  {
    if forall c | c in s[from..to] :: IsDigit(c) then Some(Number(s[from..to])) else None
  }

  /** `datetime.fromisoformat` on the two shapes that `_format_expiry` writes. It accepts other
      shapes too, but `_expiry` then rejects them because they are not what `_format_expiry` writes. */
  function ReadCivil(s: string): Option<Civil>
  {
    if |s| != 20 && |s| != 27 then None
    else if s[4] != '-' || s[7] != '-' || s[10] != 'T' || s[13] != ':' || s[16] != ':' || s[|s| - 1] != 'Z' then None
    else if |s| == 27 && s[19] != '.' then None
    else
      match (Field(s, 0, 4), Field(s, 5, 7), Field(s, 8, 10), Field(s, 11, 13), Field(s, 14, 16), Field(s, 17, 19),
             if |s| == 27 then Field(s, 20, 26) else Some(0))
      case (Some(y), Some(mo), Some(d), Some(h), Some(mi), Some(sec), Some(us)) =>
        var c := Civil(y, mo, d, h, mi, sec, us);
        if ValidCivil(c) then Some(c) else None
      case _ => None
  }

  /** `_expiry`: only canonical text is accepted. */
  function ParseExpiry(s: string): Option<Instant>
  {
    match ReadCivil(s)
    case None => None
    case Some(c) =>
      match FromCivil(c)
      case None => None
      case Some(t) => if FormatExpiry(t) == s then Some(t) else None
  }

  lemma FieldOfPadded(s: string, from: nat, n: nat, width: nat)
    requires n < Pow10(width)
    requires from + width <= |s| && s[from..from + width] == Padded(n, width)
    ensures Field(s, from, from + width) == Some(n)
  {
    NumberOfPadded(n, width);
  }

  lemma Powers()
    ensures Pow10(2) == 100 && Pow10(4) == 10_000 && Pow10(6) == 1_000_000
  {
    assert Pow10(1) == 10;
    assert Pow10(3) == 1000;
    assert Pow10(5) == 100_000;
  }

  lemma DateFields(c: Civil)
    requires ValidCivil(c)
    ensures var s := DateText(c);
            && s[4] == s[7] == '-'
            && Field(s, 0, 4) == Some(c.year) && Field(s, 5, 7) == Some(c.month) && Field(s, 8, 10) == Some(c.day)
  {
    Powers();
    var s := DateText(c);
    FieldOfPadded(s, 0, c.year, 4);
    FieldOfPadded(s, 5, c.month, 2);
    FieldOfPadded(s, 8, c.day, 2);
  }

  lemma ClockFields(c: Civil)
    requires ValidCivil(c)
    ensures var s := ClockText(c);
            && s[2] == s[5] == ':'
            && Field(s, 0, 2) == Some(c.hour) && Field(s, 3, 5) == Some(c.minute) && Field(s, 6, 8) == Some(c.second)
  {
    Powers();
    var s := ClockText(c);
    FieldOfPadded(s, 0, c.hour, 2);
    FieldOfPadded(s, 3, c.minute, 2);
    FieldOfPadded(s, 6, c.second, 2);
  }

  lemma FieldShift(before: string, s: string, after: string, from: nat, to: nat)
    requires from <= to <= |s|
    ensures Field(before + s + after, |before| + from, |before| + to) == Field(s, from, to)
  {
    assert (before + s + after)[|before| + from..|before| + to] == s[from..to];
  }

  lemma ReadDate(c: Civil, tail: string)
    requires ValidCivil(c)
    ensures var s := DateText(c) + tail;
            && s[4] == s[7] == '-'
            && Field(s, 0, 4) == Some(c.year) && Field(s, 5, 7) == Some(c.month) && Field(s, 8, 10) == Some(c.day)
  {
    var date := DateText(c);
    DateFields(c);
    assert date + tail == "" + date + tail;
    FieldShift("", date, tail, 0, 4);
    FieldShift("", date, tail, 5, 7);
    FieldShift("", date, tail, 8, 10);
  }

  lemma ReadClock(lead: string, c: Civil, tail: string)
    requires ValidCivil(c) && |lead| == 11
    ensures var s := lead + ClockText(c) + tail;
            && s[13] == s[16] == ':'
            && Field(s, 11, 13) == Some(c.hour) && Field(s, 14, 16) == Some(c.minute)
            && Field(s, 17, 19) == Some(c.second)
  {
    var clock := ClockText(c);
    ClockFields(c);
    FieldShift(lead, clock, tail, 0, 2);
    FieldShift(lead, clock, tail, 3, 5);
    FieldShift(lead, clock, tail, 6, 8);
  }

  lemma ReadFraction(lead: string, micro: nat)
    requires |lead| == 19 && 0 < micro < MICROS_PER_SECOND
    ensures var s := lead + Fraction(micro) + "Z";
            |s| == 27 && s[19] == '.' && Field(s, 20, 26) == Some(micro)
  {
    Powers();
    var s := lead + Fraction(micro) + "Z";
    assert s[20..26] == Padded(micro, 6);
    FieldOfPadded(s, 20, micro, 6);
  }

  lemma ReadOfText(c: Civil)
    requires ValidCivil(c)
    ensures ReadCivil(CivilText(c)) == Some(c)
  {
    hide DateText, ClockText, Field, Padded;
    var date, clock, end := DateText(c), ClockText(c), Fraction(c.micro) + "Z";
    var s := CivilText(c);
    assert s == date + ("T" + clock + end);
    ReadDate(c, "T" + clock + end);
    assert s == (date + "T") + clock + end;
    ReadClock(date + "T", c, end);
    if c.micro != 0 {
      ReadFraction(date + "T" + clock, c.micro);
    }
  }

  /** The canonical text names exactly one instant, and only canonical text is read. */
  lemma ExpiryRoundTrip(s: string, t: Instant)
    ensures ParseExpiry(s) == Some(t) <==> s == FormatExpiry(t)
  {
    if s == FormatExpiry(t) {
      ReadOfText(ToCivil(t));
      CivilRoundTrip(t);
    }
  }
}
