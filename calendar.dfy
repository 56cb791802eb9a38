/** Local calendar dates and minute-precision timestamps, standing in for the JavaScript `Date`
    objects the tracker builds and compares. Only the behaviour the tracker relies on is modelled:
    the local year/month/day/hour/minute fields, `setDate(getDate() +/- 1)`, the overflow of
    `new Date(y, m, d, h, mi)` into later days, and ordering by `getTime()`. */
module Calendar {

  /** A calendar day. `month` runs 1..12 (one more than JavaScript's `getMonth()`). */
  datatype Date = Date(year: int, month: int, day: int)

  /** A local point in time, to the minute. */
  datatype Timestamp = Timestamp(date: Date, hour: int, minute: int)

  /** Gregorian leap-year rule (proleptic, as JavaScript's `Date`). */
  predicate IsLeapYear(y: int) {
    y % 4 == 0 && (y % 100 != 0 || y % 400 == 0)
  }

  function DaysInMonth(y: int, m: int): (n: int)
    ensures 28 <= n <= 31
    ensures m == 2 ==> (n == 29 <==> IsLeapYear(y))
  {
    if m == 2 then (if IsLeapYear(y) then 29 else 28)
    else if m == 4 || m == 6 || m == 9 || m == 11 then 30
    else 31
  }

  ghost predicate ValidDate(d: Date) {
    1 <= d.month <= 12 && 1 <= d.day <= DaysInMonth(d.year, d.month)
  }

  ghost predicate ValidTimestamp(t: Timestamp) {
    ValidDate(t.date) && 0 <= t.hour < 24 && 0 <= t.minute < 60
  }

  /** Strict chronological order of calendar days. */
  predicate DateBefore(a: Date, b: Date) {
    a.year < b.year
    || (a.year == b.year && a.month < b.month)
    || (a.year == b.year && a.month == b.month && a.day < b.day)
  }

  predicate DateNotAfter(a: Date, b: Date) {
    a == b || DateBefore(a, b)
  }

  /** `d.setDate(d.getDate() + 1)`: the following calendar day. */
  function NextDay(d: Date): (r: Date)
    ensures ValidDate(d) ==> ValidDate(r) && DateBefore(d, r)
  {
    if d.day < DaysInMonth(d.year, d.month) then Date(d.year, d.month, d.day + 1)
    else if d.month < 12 then Date(d.year, d.month + 1, 1)
    else Date(d.year + 1, 1, 1)
  }

  /** `d.setDate(d.getDate() - 1)`: the preceding calendar day. */
  function PrevDay(d: Date): (r: Date)
    ensures ValidDate(d) ==> ValidDate(r) && DateBefore(r, d)
  {
    if d.day > 1 then Date(d.year, d.month, d.day - 1)
    else if d.month > 1 then Date(d.year, d.month - 1, DaysInMonth(d.year, d.month - 1))
    else Date(d.year - 1, 12, 31)
  }

  /** The next day is the immediate successor: no valid day lies strictly between. */
  lemma NextDayIsSuccessor(d: Date, e: Date)
    requires ValidDate(d) && ValidDate(e) && DateBefore(d, e)
    ensures DateNotAfter(NextDay(d), e)
  {
  }

  /** The previous day is the immediate predecessor: no valid day lies strictly between. */
  lemma PrevDayIsPredecessor(d: Date, e: Date)
    requires ValidDate(d) && ValidDate(e) && DateBefore(e, d)
    ensures DateNotAfter(e, PrevDay(d))
  {
  }

  /** Stepping back and forward (in either order) returns to the same day. */
  lemma NextPrevInverse(d: Date)
    requires ValidDate(d)
    ensures NextDay(PrevDay(d)) == d
    ensures PrevDay(NextDay(d)) == d
  {
  }

  /** `n` applications of NextDay. */
  function AddDays(d: Date, n: nat): (r: Date)
    ensures ValidDate(d) ==> ValidDate(r)
    ensures ValidDate(d) && n > 0 ==> DateBefore(d, r)
    decreases n
  {
    if n == 0 then d else AddDays(NextDay(d), n - 1)
  }

  /** `new Date(d.year, d.month - 1, d.day, h, m)`: hours and minutes beyond a day carry into the
      following days, as JavaScript's MakeTime/MakeDate arithmetic does. */
  function MakeTime(d: Date, h: nat, m: nat): (t: Timestamp)
    ensures ValidDate(d) ==> ValidTimestamp(t)
    ensures t.hour * 60 + t.minute == (h * 60 + m) % 1440
    ensures t.date == AddDays(d, (h * 60 + m) / 1440)
  {
    var total := h * 60 + m;
    var r := total % 1440;
    SplitMinuteOfDay(r);
    Timestamp(AddDays(d, total / 1440), r / 60, r % 60)
  }

  /** A minute of the day splits into an hour of the day and a minute of the hour. */
  lemma SplitMinuteOfDay(r: int)
    requires 0 <= r < 1440
    ensures 0 <= r / 60 < 24 && 0 <= r % 60 < 60 && (r / 60) * 60 + r % 60 == r
  {
  }

  /** A time of day inside the day keeps that day and that time. */
  lemma MakeTimeWithinDay(d: Date, h: nat, m: nat)
    requires h < 24 && m < 60
    ensures MakeTime(d, h, m) == Timestamp(d, h, m)
  {
  }

  /** Chronological order of timestamps: `a.getTime() < b.getTime()`. */
  predicate TimeBefore(a: Timestamp, b: Timestamp) {
    DateBefore(a.date, b.date)
    || (a.date == b.date && a.hour < b.hour)
    || (a.date == b.date && a.hour == b.hour && a.minute < b.minute)
  }

  /** Across days the earlier day comes first; within a day the earlier minute of the day. */
  lemma TimeBeforeByMinuteOfDay(a: Timestamp, b: Timestamp)
    ensures a.date != b.date ==> (TimeBefore(a, b) <==> DateBefore(a.date, b.date))
    ensures a.date == b.date && 0 <= a.minute < 60 && 0 <= b.minute < 60 ==>
      (TimeBefore(a, b) <==> a.hour * 60 + a.minute < b.hour * 60 + b.minute)
  {
  }

  /** TimeBefore is a strict total order. */
  lemma TimeBeforeIsStrictTotalOrder(a: Timestamp, b: Timestamp, c: Timestamp)
    ensures !TimeBefore(a, a)
    ensures TimeBefore(a, b) && TimeBefore(b, c) ==> TimeBefore(a, c)
    ensures a == b || TimeBefore(a, b) || TimeBefore(b, a)
  {
  }
}
