/**
 Billing windows of internal/agent/ssh_inbounds.go: Gregorian month arithmetic
 in a zone of fixed offset. An instant is a count of nanoseconds of local time;
 months are counted through all years, so month 12 * y + k is the (k+1)-th month
 of year y.
 */
module BillingCalendar {

  const DAY: nat := 86_400_000_000_000

  predicate Leap(year: int) {
    year % 4 == 0 && (year % 100 != 0 || year % 400 == 0)
  }

  function DaysIn(m: int): (n: nat)
    ensures 28 <= n <= 31
  {
    match m % 12
    case 1 => if Leap(m / 12) then 29 else 28
    case 3 | 5 | 8 | 10 => 30
    case _ => 31
  }

  /** Days from the first day of month 0 to the first day of month `m`. */
  function MonthStart(m: int): int
    decreases if m < 0 then -m else m
  {
    if m == 0 then 0
    else if m > 0 then MonthStart(m - 1) + DaysIn(m - 1)
    else MonthStart(m + 1) - DaysIn(m)
  }

  lemma {:induction false} MonthsAdvance(a: int, b: int)
    requires a < b
    ensures MonthStart(a) + DaysIn(a) <= MonthStart(b)
    ensures MonthStart(a) + 28 * (b - a) <= MonthStart(b)
    decreases b - a
  {
    assert MonthStart(b) == MonthStart(b - 1) + DaysIn(b - 1);
    if a < b - 1 {
      MonthsAdvance(a, b - 1);
    }
  }

  /** The twelve months of a year, and their sum. */
  lemma YearOfMonths(year: int)
    ensures var m := 12 * year;
            && DaysIn(m) == 31 && DaysIn(m + 1) == (if Leap(year) then 29 else 28) && DaysIn(m + 2) == 31
            && DaysIn(m + 3) == 30 && DaysIn(m + 4) == 31 && DaysIn(m + 5) == 30
            && DaysIn(m + 6) == 31 && DaysIn(m + 7) == 31 && DaysIn(m + 8) == 30
            && DaysIn(m + 9) == 31 && DaysIn(m + 10) == 30 && DaysIn(m + 11) == 31
    ensures MonthStart(12 * (year + 1)) - MonthStart(12 * year) == if Leap(year) then 366 else 365
  {
    var m := 12 * year;
    MonthOfYear(year, 0, 1, 2, 3);
    MonthOfYear(year, 4, 5, 6, 7);
    MonthOfYear(year, 8, 9, 10, 11);
  }

  lemma MonthOfYear(year: int, a: nat, b: nat, c: nat, d: nat)
    requires a + 1 == b && b + 1 == c && c + 1 == d && d < 12
    ensures var m := 12 * year;
            && (m + a) % 12 == a && (m + b) % 12 == b && (m + c) % 12 == c && (m + d) % 12 == d
            && (m + a) / 12 == (m + b) / 12 == (m + c) / 12 == (m + d) / 12 == year
            && MonthStart(m + d + 1) ==
               MonthStart(m + a) + DaysIn(m + a) + DaysIn(m + b) + DaysIn(m + c) + DaysIn(m + d)
  {
    hide DaysIn;
    var m := 12 * year;
    assert MonthStart(m + b) == MonthStart(m + a) + DaysIn(m + a);
    assert MonthStart(m + c) == MonthStart(m + b) + DaysIn(m + b);
    assert MonthStart(m + d) == MonthStart(m + c) + DaysIn(m + c);
  }

  /** Leap days before the first day of `year`, counted from year 0 by the rule of 4, 100 and 400. */
  function LeapDays(year: int): int {
    (year + 3) / 4 - (year + 99) / 100 + (year + 399) / 400
  }

  lemma OneMoreYear(year: int)
    ensures LeapDays(year + 1) == LeapDays(year) + if Leap(year) then 1 else 0
  {
    assert (year + 4) / 4 == (year + 3) / 4 + if year % 4 == 0 then 1 else 0;
    assert (year + 100) / 100 == (year + 99) / 100 + if year % 100 == 0 then 1 else 0;
    assert (year + 400) / 400 == (year + 399) / 400 + if year % 400 == 0 then 1 else 0;
    CenturiesAreMultiples(year);
  }

  lemma CenturiesAreMultiples(year: int)
    ensures year % 100 == 0 ==> year % 4 == 0
    ensures year % 400 == 0 ==> year % 100 == 0
  {
    var q, r := year / 400, year % 400;
    assert year == 100 * (4 * q + r / 100) + r % 100 == 4 * (100 * q + r / 4) + r % 4;
  }

  /** The first day of every year, in closed form: the Gregorian calendar. */
  lemma {:induction false} YearStart(year: int)
    ensures MonthStart(12 * year) == 365 * year + LeapDays(year)
    decreases if year < 0 then -year else year
  {
    if year > 0 {
      YearStart(year - 1);
      YearOfMonths(year - 1);
      OneMoreYear(year - 1);
    } else if year < 0 {
      YearStart(year + 1);
      YearOfMonths(year);
      OneMoreYear(year);
    }
  }

  function MonthFrom(m: int, d: int): (r: int)
    requires MonthStart(m) <= d
    ensures MonthStart(r) <= d < MonthStart(r + 1)
    decreases d - MonthStart(m)
  {
    assert MonthStart(m + 1) == MonthStart(m) + DaysIn(m);
    if d < MonthStart(m + 1) then m else MonthFrom(m + 1, d)
  }

  /** The month that day number `d` falls in. */
  function MonthOf(d: int): (r: int)
    ensures MonthStart(r) <= d < MonthStart(r + 1)
  {
    if d >= 0 then MonthFrom(0, d) else (MonthsAdvance(d, 0); MonthFrom(d, d))
  }

  lemma MonthOfIsUnique(m: int, d: int)
    requires MonthStart(m) <= d < MonthStart(m) + DaysIn(m)
    ensures MonthOf(d) == m
  {
    var r := MonthOf(d);
    assert MonthStart(r + 1) == MonthStart(r) + DaysIn(r);
    if r < m {
      MonthsAdvance(r, m);
    } else if m < r {
      MonthsAdvance(m, r);
    }
  }

  // Calendar fields of an instant
  function Month(t: int): int {
    MonthOf(t / DAY)
  }

  function DayOfMonth(t: int): int {
    t / DAY - MonthStart(Month(t)) + 1
  }

  function Clock(t: int): nat {
    t % DAY
  }

  /** time.Date: a day outside the month spills into its neighbours. */
  function Date(m: int, day: int, clock: nat): int {
    (MonthStart(m) + day - 1) * DAY + clock
  }

  /** Time.AddDate(0, months, 0). */
  function AddMonths(t: int, months: int): int {
    Date(Month(t) + months, DayOfMonth(t), Clock(t))
  }

  /** A date that exists reads back as written. */
  lemma DateFields(m: int, day: int, clock: nat)
    requires 1 <= day <= DaysIn(m) && clock < DAY
    ensures var t := Date(m, day, clock); Month(t) == m && DayOfMonth(t) == day && Clock(t) == clock
  {
    var d := MonthStart(m) + day - 1;
    assert Date(m, day, clock) / DAY == d;
    MonthOfIsUnique(m, d);
  }

  lemma FieldsMakeDate(t: int)
    ensures 1 <= DayOfMonth(t) <= DaysIn(Month(t)) && Clock(t) < DAY
    ensures t == Date(Month(t), DayOfMonth(t), Clock(t))
  {
    var m := Month(t);
    assert MonthStart(m + 1) == MonthStart(m) + DaysIn(m);
  }

  lemma LaterMonthIsLater(s: int, t: int)
    requires Month(s) < Month(t)
    ensures s < t
  {
    FieldsMakeDate(s);
    FieldsMakeDate(t);
    MonthsAdvance(Month(s), Month(t));
  }

  function ClampedMonthDay(m: int, day: int): int {
    var last := DayOfMonth(Date(m + 1, 0, 0));
    if day > last then last else if day < 1 then 1 else day
  }

  /** The clamp lands on the given day, or on the last day of a month that is too short. */
  lemma ClampedDayExists(m: int, day: int)
    ensures 1 <= ClampedMonthDay(m, day) <= DaysIn(m)
    ensures ClampedMonthDay(m, day) == if day < 1 then 1 else if day <= DaysIn(m) then day else DaysIn(m)
  {
    assert MonthStart(m + 1) == MonthStart(m) + DaysIn(m);
    assert Date(m + 1, 0, 0) == Date(m, DaysIn(m), 0);
    DateFields(m, DaysIn(m), 0);
  }

  /** The day of month `m` on which `day` falls: itself, or the month's last. */
  function Reach(m: int, day: int): int {
    if day <= DaysIn(m) then day else DaysIn(m)
  }

  // ---------------------------------------------------------------------------
  // Anniversary months
  // ---------------------------------------------------------------------------

  datatype Window = Window(start: int, end: int)

  function AnniversaryBoundary(anchor: int, months: int): int {
    var monthStart := Date(Month(anchor) + months, 1, Clock(anchor));
    var day := ClampedMonthDay(Month(monthStart), DayOfMonth(anchor));
    Date(Month(monthStart), day, Clock(anchor))
  }

  function AnniversaryWindow(now: int, anchor: int): Window {
    if now < anchor then
      Window(anchor, AnniversaryBoundary(anchor, 1))
    else
      var months := Month(now) - Month(anchor);
      var start := AnniversaryBoundary(anchor, months);
      if now < start then
        Window(AnniversaryBoundary(anchor, months - 1), AnniversaryBoundary(anchor, months))
      else
        Window(start, AnniversaryBoundary(anchor, months + 1))
  }

  /** Each boundary lies in its own month, on the anchor's day or the month's last, at the anchor's clock time. */
  lemma BoundaryFields(anchor: int, k: int)
    ensures Month(AnniversaryBoundary(anchor, k)) == Month(anchor) + k
    ensures Clock(AnniversaryBoundary(anchor, k)) == Clock(anchor)
    ensures DayOfMonth(AnniversaryBoundary(anchor, k)) == Reach(Month(anchor) + k, DayOfMonth(anchor))
    ensures AnniversaryBoundary(anchor, 0) == anchor
  {
    hide Month, DayOfMonth, Clock, Date;
    FieldsMakeDate(anchor);
    DateFields(Month(anchor) + k, 1, Clock(anchor));
    ClampedDayExists(Month(anchor) + k, DayOfMonth(anchor));
    DateFields(Month(anchor) + k, ClampedMonthDay(Month(anchor) + k, DayOfMonth(anchor)), Clock(anchor));
    DateFields(Month(anchor), 1, Clock(anchor));
    ClampedDayExists(Month(anchor), DayOfMonth(anchor));
  }

  /** Boundaries strictly increase through short months and leap years. */
  lemma BoundariesIncrease(anchor: int, j: int, k: int)
    requires j < k
    ensures AnniversaryBoundary(anchor, j) < AnniversaryBoundary(anchor, k)
  {
    BoundaryFields(anchor, j);
    BoundaryFields(anchor, k);
    LaterMonthIsLater(AnniversaryBoundary(anchor, j), AnniversaryBoundary(anchor, k));
  }

  /** A boundary in another month than `now` is on the same side as that month. */
  lemma BoundarySide(now: int, anchor: int, k: int)
    ensures Month(now) < Month(anchor) + k ==> now < AnniversaryBoundary(anchor, k)
    ensures Month(anchor) + k < Month(now) ==> AnniversaryBoundary(anchor, k) < now
  {
    BoundaryFields(anchor, k);
    if Month(now) < Month(anchor) + k {
      LaterMonthIsLater(now, AnniversaryBoundary(anchor, k));
    } else if Month(anchor) + k < Month(now) {
      LaterMonthIsLater(AnniversaryBoundary(anchor, k), now);
    }
  }

  /** The number of whole anniversary months from the anchor to `now`. */
  function AnniversaryIndex(now: int, anchor: int): int {
    var months := Month(now) - Month(anchor);
    if now < AnniversaryBoundary(anchor, months) then months - 1 else months
  }

  /** From the anchor on, the window is the boundary interval that contains `now`. */
  lemma AnniversaryWindowContainsNow(now: int, anchor: int)
    requires anchor <= now
    ensures var w := AnniversaryWindow(now, anchor);
            var k := AnniversaryIndex(now, anchor);
            && 0 <= k && w.start <= now < w.end
            && w == Window(AnniversaryBoundary(anchor, k), AnniversaryBoundary(anchor, k + 1))
  {
    hide AnniversaryBoundary, Month;
    var months := Month(now) - Month(anchor);
    BoundarySide(now, anchor, 0);
    BoundarySide(now, anchor, months - 1);
    BoundarySide(now, anchor, months + 1);
    BoundaryFields(anchor, 0);
  }

  /** In a strictly increasing sequence an instant lies between one pair of neighbours only. */
  lemma IntervalIsUnique(b: int -> int, j: int, k: int, t: int)
    requires forall x, y :: x < y ==> b(x) < b(y)
    requires b(j) <= t < b(j + 1) && b(k) <= t < b(k + 1)
    ensures j == k
  {
    assert j + 1 < k || j + 1 == k || j == k || k + 1 == j || k + 1 < j;
  }

  /** Windows tile: all instants of a window agree on it, and its end opens the next one. */
  lemma AnniversaryWindowsTile(now: int, anchor: int, t: int)
    requires anchor <= now && anchor <= t
    ensures var w := AnniversaryWindow(now, anchor);
            && (w.start <= t < w.end ==> AnniversaryWindow(t, anchor) == w)
            && (t == w.end ==> AnniversaryWindow(t, anchor).start == w.end)
  {
    hide AnniversaryBoundary, AnniversaryWindow, AnniversaryIndex;
    var b := (i: int) => AnniversaryBoundary(anchor, i);
    forall x, y | x < y ensures b(x) < b(y) {
      BoundariesIncrease(anchor, x, y);
    }
    AnniversaryWindowContainsNow(now, anchor);
    AnniversaryWindowContainsNow(t, anchor);
    var j, k := AnniversaryIndex(t, anchor), AnniversaryIndex(now, anchor);
    if b(k) <= t < b(k + 1) {
      IntervalIsUnique(b, j, k, t);
    } else if t == b(k + 1) {
      IntervalIsUnique(b, j, k + 1, t);
    }
  }

  // ---------------------------------------------------------------------------
  // Calendar months and a fixed day of the month
  // ---------------------------------------------------------------------------

  datatype Mode = Never | AnniversaryMonth | MonthDay | CalendarMonth

  /** time.Date(9999, December, 31, 23, 59, 59, 0). */
  const FOREVER: int := Date(12 * 9999 + 11, 31, 86_399_000_000_000)

  function CalendarWindow(now: int): Window {
    var start := Date(Month(now), 1, 0);
    Window(start, AddMonths(start, 1))
  }

  /** Midnight of `day`, clamped, in the month of `t`. */
  function ResetIn(t: int, day: int): int {
    Date(Month(t), ClampedMonthDay(Month(t), day), 0)
  }

  function MonthDayWindow(now: int, day: int): Window {
    var current := ResetIn(now, day);
    var start := if now < current then ResetIn(AddMonths(current, -1), day) else current;
    Window(start, ResetIn(AddMonths(start, 1), day))
  }

  function ClampedResetDay(day: int): int {
    if day < 1 then 1 else if day > 31 then 31 else day
  }

  /** An unset anchor stands for `now`. */
  function TrafficWindow(now: int, mode: Mode, resetDay: int, anchorSet: bool, anchor: int): Window {
    var from := if anchorSet then anchor else now;
    match mode
    case Never => Window(from, FOREVER)
    case AnniversaryMonth => AnniversaryWindow(now, from)
    case CalendarMonth => CalendarWindow(now)
    case MonthDay => MonthDayWindow(now, ClampedResetDay(resetDay))
  }

  lemma CalendarWindowsTile(now: int)
    ensures var w := CalendarWindow(now);
            && w.start <= now < w.end && CalendarWindow(w.end).start == w.end
            && w == Window(Date(Month(now), 1, 0), Date(Month(now) + 1, 1, 0))
  {
    var m := Month(now);
    FieldsMakeDate(now);
    DateFields(m, 1, 0);
    DateFields(m + 1, 1, 0);
    assert MonthStart(m + 1) == MonthStart(m) + DaysIn(m);
  }

  /** The reset instant of month `m`, by its meaning. */
  function Reset(m: int, day: int): int {
    Date(m, Reach(m, day), 0)
  }

  lemma ResetsIncrease(j: int, k: int, day: int)
    requires 1 <= day && j < k
    ensures Reset(j, day) < Reset(k, day)
  {
    DateFields(j, Reach(j, day), 0);
    DateFields(k, Reach(k, day), 0);
    LaterMonthIsLater(Reset(j, day), Reset(k, day));
  }

  /** The window from the last reset at or before `now` to the first one after it. */
  function TrueMonthDayWindow(now: int, day: int): Window {
    var m := Month(now);
    if now < Reset(m, day) then Window(Reset(m - 1, day), Reset(m, day)) else Window(Reset(m, day), Reset(m + 1, day))
  }

  lemma TrueMonthDayWindowContainsNow(now: int, day: int)
    requires 1 <= day
    ensures var w := TrueMonthDayWindow(now, day); w.start <= now < w.end
  {
    var m := Month(now);
    FieldsMakeDate(now);
    MonthsAdvance(m - 1, m);
    assert MonthStart(m + 1) == MonthStart(m) + DaysIn(m);
  }

  lemma ResetInIsReset(t: int, day: int)
    requires 1 <= day
    ensures ResetIn(t, day) == Reset(Month(t), day)
  {
    ClampedDayExists(Month(t), day);
  }

  /** Stepping from one reset to a neighbouring month lands there only if that month has the day. */
  lemma StepFromReset(m: int, day: int, step: int)
    requires 1 <= day && (step == 1 || step == -1)
    ensures var t := AddMonths(Reset(m, day), step);
            Month(t) == if Reach(m, day) <= DaysIn(m + step) then m + step else m + step + 1
  {
    hide Month, DayOfMonth, Clock;
    DateFields(m, Reach(m, day), 0);
    if Reach(m, day) <= DaysIn(m + step) {
      DateFields(m + step, Reach(m, day), 0);
    } else {
      var over := Reach(m, day) - DaysIn(m + step);
      assert MonthStart(m + step + 1) == MonthStart(m + step) + DaysIn(m + step);
      assert Date(m + step, Reach(m, day), 0) == Date(m + step + 1, over, 0);
      DateFields(m + step + 1, over, 0);
    }
  }

  /**
   Exactly when the code returns the true window: the month stepped to must have
   the day stepped from. AddDate spills past a shorter month.
   */
  predicate StepsStayInMonth(now: int, day: int) {
    var m := Month(now);
    if now < Reset(m, day) then Reach(m, day) <= DaysIn(m - 1) && Reach(m - 1, day) <= DaysIn(m)
    else Reach(m, day) <= DaysIn(m + 1)
  }

  lemma MonthDayWindowIsTrueIff(now: int, day: int)
    requires 1 <= day
    ensures MonthDayWindow(now, day) == TrueMonthDayWindow(now, day) <==> StepsStayInMonth(now, day)
    ensures var w := MonthDayWindow(now, day);
            if now < Reset(Month(now), day) && Reach(Month(now), day) > DaysIn(Month(now) - 1)
            then w.start == Reset(Month(now), day)
            else w.start <= now < w.end
  {
    hide Reset, Month, AddMonths, ResetIn;
    var m := Month(now);
    TrueMonthDayWindowContainsNow(now, day);
    ResetInIsReset(now, day);
    if now < Reset(m, day) {
      StepFromReset(m, day, -1);
      ResetInIsReset(AddMonths(Reset(m, day), -1), day);
      ResetsIncrease(m - 1, m, day);
      if Reach(m, day) <= DaysIn(m - 1) {
        WindowFrom(m - 1, day);
      }
    } else {
      WindowFrom(m, day);
    }
  }

  /** The end the code computes for a window that starts at the reset of month `m`. */
  lemma WindowFrom(m: int, day: int)
    requires 1 <= day
    ensures var end := ResetIn(AddMonths(Reset(m, day), 1), day);
            && end == Reset(if Reach(m, day) <= DaysIn(m + 1) then m + 1 else m + 2, day)
            && Reset(m + 1, day) <= end
            && (end == Reset(m + 1, day) <==> Reach(m, day) <= DaysIn(m + 1))
  {
    hide Reset, AddMonths, ResetIn;
    StepFromReset(m, day, 1);
    ResetInIsReset(AddMonths(Reset(m, day), 1), day);
    ResetsIncrease(m + 1, m + 2, day);
  }

  /** Days 1 to 28 exist in every month, so the window is always the true one. */
  lemma EarlyResetDaysAreExact(now: int, day: int)
    requires 1 <= day <= 28
    ensures var w := MonthDayWindow(now, day);
            && w == TrueMonthDayWindow(now, day) && w.start <= now < w.end
            && MonthDayWindow(w.end, day).start == w.end
  {
    hide Reset, MonthDayWindow, TrueMonthDayWindow;
    MonthDayWindowIsTrueIff(now, day);
    TrueMonthDayWindowContainsNow(now, day);
    var w := TrueMonthDayWindow(now, day);
    MonthDayWindowIsTrueIff(w.end, day);
    TrueEndOpensNext(now, day);
  }

  lemma TrueEndOpensNext(now: int, day: int)
    requires 1 <= day
    ensures var w := TrueMonthDayWindow(now, day); TrueMonthDayWindow(w.end, day).start == w.end
  {
    hide Month;
    var m := Month(now);
    DateFields(m, Reach(m, day), 0);
    DateFields(m + 1, Reach(m + 1, day), 0);
  }

  /** With reset day 31, on the first of March the code opens a window that lies wholly in the future. */
  lemma MarchWindowIsInTheFuture(year: int)
    ensures var now := Date(12 * year + 2, 1, 0);
            Month(now) == 12 * year + 2 && now < MonthDayWindow(now, 31).start
  {
    hide Month, MonthDayWindow, TrueMonthDayWindow;
    var m := 12 * year + 2;
    var now := Date(m, 1, 0);
    DateFields(m, 1, 0);
    MonthDayWindowIsTrueIff(now, 31);
    assert (m - 1) % 12 == 1 && m % 12 == 2;
  }

  /** Exactly when the billing window contains the present, over all modes. */
  lemma TrafficWindowContainsNowIff(now: int, mode: Mode, resetDay: int, anchorSet: bool, anchor: int)
    ensures var w := TrafficWindow(now, mode, resetDay, anchorSet, anchor);
            w.start <= now < w.end <==>
            match mode
            case Never => (anchorSet ==> anchor <= now) && now < FOREVER
            case AnniversaryMonth => anchorSet ==> anchor <= now
            case CalendarMonth => true
            case MonthDay =>
              var m, day := Month(now), ClampedResetDay(resetDay);
              now >= Reset(m, day) || Reach(m, day) <= DaysIn(m - 1)
  {
    hide Month, Reset, AnniversaryBoundary, CalendarWindow, MonthDayWindow;
    match mode
    case Never =>
    case AnniversaryMonth =>
      var from := if anchorSet then anchor else now;
      if from <= now {
        AnniversaryWindowContainsNow(now, from);
      }
    case CalendarMonth => CalendarWindowsTile(now);
    case MonthDay => MonthDayWindowIsTrueIff(now, ClampedResetDay(resetDay));
  }

  // ---------------------------------------------------------------------------
  // Which window it is
  // ---------------------------------------------------------------------------

  /** `t` is that day and time of day of month `m`. */
  predicate IsAt(t: int, m: int, day: int, clock: int) {
    Month(t) == m && DayOfMonth(t) == day && Clock(t) == clock
  }

  /** Midnight of the reset day in month `m`. */
  predicate IsReset(t: int, m: int, day: int) {
    IsAt(t, m, Reach(m, day), 0)
  }

  lemma ResetFields(m: int, day: int)
    requires 1 <= day
    ensures IsReset(Reset(m, day), m, day)
  {
    DateFields(m, Reach(m, day), 0);
  }

  /** The reset of this month has passed exactly if its day has come. */
  lemma ResetHasPassedIff(now: int, day: int)
    requires 1 <= day
    ensures Reset(Month(now), day) <= now <==> Reach(Month(now), day) <= DayOfMonth(now)
  {
    FieldsMakeDate(now);
  }

  /**
   The month the window starts in: this one, the one before if this month's reset
   is still to come, and this one again if the step back spills over.
   */
  function StartMonth(now: int, day: int): int {
    var m := Month(now);
    if DayOfMonth(now) < Reach(m, day) <= DaysIn(m - 1) then m - 1 else m
  }

  /** Reset windows run from one reset to the next, or past it where the step forward spills over. */
  lemma MonthDayWindowIs(now: int, day: int)
    requires 1 <= day
    ensures var w, m := MonthDayWindow(now, day), StartMonth(now, day);
            && IsReset(w.start, m, day)
            && IsReset(w.end, if Reach(m, day) <= DaysIn(m + 1) then m + 1 else m + 2, day)
  {
    hide Reset, Month, AddMonths, ResetIn, Clock, DayOfMonth, IsAt;
    var m, n := Month(now), StartMonth(now, day);
    ResetInIsReset(now, day);
    ResetHasPassedIff(now, day);
    if now < Reset(m, day) {
      StepFromReset(m, day, -1);
      ResetInIsReset(AddMonths(Reset(m, day), -1), day);
    }
    WindowFrom(n, day);
    ResetFields(n, day);
    ResetFields(n + 1, day);
    ResetFields(n + 2, day);
  }

  /**
   Which window each mode bills by. Calendar: from the first of this month to the
   first of the next. Anniversary: between neighbouring boundaries, each on the
   anchor's day, or the last of a shorter month, at its time of day. Never: from
   the anchor to the last second of 9999. Day of the month: as above, and exactly
   if no step spills over, between the resets on both sides of the present.
   */
  lemma TrafficWindowIs(now: int, mode: Mode, resetDay: int, anchorSet: bool, anchor: int)
    ensures var w := TrafficWindow(now, mode, resetDay, anchorSet, anchor);
            var from := if anchorSet then anchor else now;
            match mode
            case Never => w.start == from && IsAt(w.end, 12 * 9999 + 11, 31, 86_399_000_000_000)
            case CalendarMonth => IsAt(w.start, Month(now), 1, 0) && IsAt(w.end, Month(now) + 1, 1, 0)
            case AnniversaryMonth =>
              var k := if now < from then 0 else AnniversaryIndex(now, from);
              var m, day := Month(from) + k, DayOfMonth(from);
              && k >= 0 && (from <= now ==> w.start <= now < w.end)
              && IsAt(w.start, m, Reach(m, day), Clock(from)) && IsAt(w.end, m + 1, Reach(m + 1, day), Clock(from))
            case MonthDay =>
              var day := if resetDay < 1 then 1 else if resetDay > 31 then 31 else resetDay;
              var m := StartMonth(now, day);
              && IsReset(w.start, m, day)
              && IsReset(w.end, if Reach(m, day) <= DaysIn(m + 1) then m + 1 else m + 2, day)
              && (w == TrueMonthDayWindow(now, day) <==> StepsStayInMonth(now, day))
  {
    hide Month, Reset, AnniversaryBoundary, CalendarWindow, MonthDayWindow, AnniversaryIndex, AnniversaryWindow,
      StartMonth, StepsStayInMonth, TrueMonthDayWindow, IsReset;
    match mode
    case Never => DateFields(12 * 9999 + 11, 31, 86_399_000_000_000);
    case CalendarMonth =>
      CalendarWindowsTile(now);
      DateFields(Month(now), 1, 0);
      DateFields(Month(now) + 1, 1, 0);
    case AnniversaryMonth => AnniversaryWindowIs(now, if anchorSet then anchor else now);
    case MonthDay =>
      MonthDayWindowIs(now, ClampedResetDay(resetDay));
      MonthDayWindowIsTrueIff(now, ClampedResetDay(resetDay));
  }

  lemma AnniversaryWindowIs(now: int, anchor: int)
    ensures var w := AnniversaryWindow(now, anchor);
            var k := if now < anchor then 0 else AnniversaryIndex(now, anchor);
            var m, day := Month(anchor) + k, DayOfMonth(anchor);
            && k >= 0 && (anchor <= now ==> w.start <= now < w.end)
            && IsAt(w.start, m, Reach(m, day), Clock(anchor)) && IsAt(w.end, m + 1, Reach(m + 1, day), Clock(anchor))
  {
    hide Month, AnniversaryBoundary, AnniversaryIndex, DayOfMonth, Clock, Reach;
    var k := if now < anchor then 0 else AnniversaryIndex(now, anchor);
    if anchor <= now {
      AnniversaryWindowContainsNow(now, anchor);
    }
    BoundaryFields(anchor, k);
    BoundaryFields(anchor, k + 1);
  }
}
