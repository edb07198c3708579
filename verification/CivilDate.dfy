/** The calendar arithmetic behind an HTTP date: a closed-form day number with checked 64-bit steps. */
module CivilDate {
  import opened Hashing

  datatype Date = Date(year: int, month: int, day: int)

  predicate Leap(year: int) { year % 4 == 0 && (year % 100 != 0 || year % 400 == 0) }

  function DaysInMonth(year: int, month: int): (d: int) {
    if month == 2 then (if Leap(year) then 29 else 28)
    else if month == 4 || month == 6 || month == 9 || month == 11 then 30
    else 31
  }

  /** A date of the Gregorian calendar, from 1970 to 9999. */
  predicate Valid(d: Date) {
    1970 <= d.year <= 9999 && 1 <= d.month <= 12 && 1 <= d.day <= DaysInMonth(d.year, d.month)
  }

  // ---- the code ----

  predicate FitsI64(x: int) { -0x8000_0000_0000_0000 <= x < 0x8000_0000_0000_0000 }

  function Checked(x: int): (r: Option<int>) { if FitsI64(x) then Some(x) else None }

  /** The year counted from March. */
  function MarchYear(d: Date): (y: int) { if d.month <= 2 then d.year - 1 else d.year }

  function DayOfYear(d: Date): (n: int) { (153 * (d.month + (if d.month > 2 then -3 else 9)) + 2) / 5 + d.day - 1 }

  function DayOfEra(d: Date): (n: int) {
    var yoe := MarchYear(d) - MarchYear(d) / 400 * 400;
    yoe * 365 + yoe / 4 - yoe / 100 + DayOfYear(d)
  }

  /** Days since 1970-01-01, every step checked. */
  function DayNumber(d: Date): (r: Option<int>) {
    match Checked(MarchYear(d) / 400 * 146_097)
    case None => None
    case Some(a) =>
      match Checked(a + DayOfEra(d))
      case None => None
      case Some(b) => Checked(b - 719_468)
  }

  /** Seconds since the Unix epoch; a clock may show a leap second. */
  function Seconds(d: Date, h: nat, mi: nat, sec: nat): (r: Option<nat>)
    requires 1 <= d.month <= 12
  {
    if h > 23 || mi > 59 || sec > 60 || !(1970 <= d.year <= 9999) then None
    else if !(1 <= d.day <= DaysInMonth(d.year, d.month)) then None
    else
      match DayNumber(d)
      case None => None
      case Some(days) =>
        match Checked(days * 86_400)
        case None => None
        case Some(s) =>
          match Checked(s + (h * 3600 + mi * 60 + sec))
          case None => None
          case Some(t) => if t < 0 then None else Some(t)
  }

  // ---- counting day by day ----

  const EPOCH := Date(1970, 1, 1)

  /** The day before. */
  function Previous(d: Date): (p: Date)
    requires Valid(d) && d != EPOCH
    ensures Valid(p)
  {
    if d.day > 1 then d.(day := d.day - 1)
    else if d.month > 1 then Date(d.year, d.month - 1, DaysInMonth(d.year, d.month - 1))
    else Date(d.year - 1, 12, 31)
  }

  /** The number of days passed since 1970-01-01, counted one by one. */
  ghost function CountedDays(d: Date): (n: nat)
    requires Valid(d)
    decreases d.year, d.month, d.day
  {
    if d == EPOCH then 0 else CountedDays(Previous(d)) + 1
  }

  // ---- the closed form counts ----

  /** The day number without checks. */
  ghost function Closed(d: Date): (n: int) {
    MarchYear(d) / 400 * 146_097 + DayOfEra(d) - 719_468
  }

  /** Days before March of year `y`, free of eras. */
  ghost function BeforeMarch(y: int): (n: int) { 365 * y + y / 4 - y / 100 + y / 400 }

  lemma EraFree(y: int)
    requires 0 <= y
    ensures var yoe := y - y / 400 * 400;
            y / 400 * 146_097 + yoe * 365 + yoe / 4 - yoe / 100 == BeforeMarch(y)
  {
    var era, yoe := y / 400, y - y / 400 * 400;
    assert y == 400 * era + yoe && 0 <= yoe < 400;
    assert y / 4 == 100 * era + yoe / 4;
    assert y / 100 == 4 * era + yoe / 100;
  }

  /** A year counted from March has a leap day at its end exactly when the next civil year is leap. */
  lemma MarchStep(y: int)
    requires 0 <= y
    ensures BeforeMarch(y + 1) - BeforeMarch(y) == if Leap(y + 1) then 366 else 365
  {
    var z := y + 1;
    assert z / 4 - y / 4 == if z % 4 == 0 then 1 else 0;
    assert z / 100 - y / 100 == if z % 100 == 0 then 1 else 0;
    assert z / 400 - y / 400 == if z % 400 == 0 then 1 else 0;
  }

  /** The table behind `(153 m + 2) / 5`: days from March to the start of a month. */
  lemma MonthTable(d: Date)
    requires 1 <= d.month <= 12
    ensures DayOfYear(d) == d.day - 1 +
              (match d.month
               case 1 => 306 case 2 => 337 case 3 => 0 case 4 => 31 case 5 => 61 case 6 => 92
               case 7 => 122 case 8 => 153 case 9 => 184 case 10 => 214 case 11 => 245 case _ => 275)
  {
  }

  lemma ClosedForm(d: Date)
    requires Valid(d)
    ensures Closed(d) == BeforeMarch(MarchYear(d)) + DayOfYear(d) - 719_468
  {
    hide BeforeMarch, DayOfYear;
    EraFree(MarchYear(d));
  }

  /** One day later the number is one larger. */
  lemma OneDay(d: Date)
    requires Valid(d) && d != EPOCH
    ensures Closed(d) == Closed(Previous(d)) + 1
  {
    hide BeforeMarch, DayOfYear, Closed;
    var p := Previous(d);
    ClosedForm(d);
    ClosedForm(p);
    MonthTable(d);
    MonthTable(p);
    if d.day == 1 && d.month == 3 {
      MarchStep(d.year - 1);
    }
  }

  lemma {:induction false} ClosedCounts(d: Date)
    requires Valid(d)
    ensures Closed(d) == CountedDays(d)
    decreases d.year, d.month, d.day
  {
    hide Closed;
    if d == EPOCH {
      EpochIsZero();
    } else {
      OneDay(d);
      ClosedCounts(Previous(d));
    }
  }

  lemma EpochIsZero()
    ensures Closed(EPOCH) == 0
  {
  }

  lemma ClosedBounds(d: Date)
    requires Valid(d)
    ensures 0 <= MarchYear(d) / 400 * 146_097 <= 24 * 146_097 && 0 <= DayOfEra(d) <= 400 * 366 + 400
    ensures Closed(d) <= 4_000_000
  {
    MonthTable(d);
  }

  /** For every valid date no checked step fails, and the closed form is the count of days. */
  lemma DayNumberCounts(d: Date)
    requires Valid(d)
    ensures DayNumber(d) == Some(CountedDays(d) as int)
  {
    hide MarchYear, DayOfEra, CountedDays, Valid;
    ClosedCounts(d);
    ClosedBounds(d);
  }

  /** Seconds are given exactly for the valid dates and clock readings, and are what the calendar says. */
  lemma SecondsExact(d: Date, h: nat, mi: nat, sec: nat)
    requires 1 <= d.month <= 12
    ensures Seconds(d, h, mi, sec).Some? <==> Valid(d) && h <= 23 && mi <= 59 && sec <= 60
    ensures Seconds(d, h, mi, sec).Some? ==> Seconds(d, h, mi, sec).value == CountedDays(d) * 86_400 + h * 3600 + mi * 60 + sec
  {
    hide DayNumber, CountedDays, DaysInMonth;
    if Valid(d) {
      DayNumberCounts(d);
      ClosedCounts(d);
      ClosedBounds(d);
    }
  }
}
