/** The NA charging reservation of `GspaApiEU`: weekdays and wall-clock times moved to UTC
    for a fixed whole-minute offset. */
module WeekShift {
  import opened Prelude

  const DAY: int := 86_400  // seconds
  const WEEK: int := 10_080  // minutes

  /** The wire's "HH:MM:00Z". */
  datatype Clock = Clock(hour: int, minute: int)

  /** `date.weekday()` of a proleptic ordinal: Monday is 0, and ordinal 1 is a Monday. */
  function PyWeekday(ordinal: int): int {
    (ordinal + 6) % 7
  }

  /** Sunday is 0. */
  function SundayFirst(ordinal: int): int {
    (PyWeekday(ordinal) + 1) % 7
  }

  /** The local date `_to_utc` picks: today, or the next date on the asked weekday. */
  function TargetDate(today: int, day: Option<int>): int {
    if day.None? then today else today + ((day.value - 1) % 7 - PyWeekday(today)) % 7
  }

  /** `_to_utc`: `time` is in seconds of the local day, `offset` in minutes east of UTC. */
  function ToUtc(today: int, offset: int, time: int, day: Option<int>): (int, Clock) {
    var utc := TargetDate(today, day) * DAY + time - offset * 60;
    var second := utc % DAY;
    (SundayFirst(utc / DAY), Clock(second / 3600, second / 60 % 60))
  }

  /** How many days the shift moves the date, and the UTC clock it gives. */
  function DayShift(offset: int, time: int): int {
    (time - offset * 60) / DAY
  }

  function UtcClock(offset: int, time: int): Clock {
    var second := (time - offset * 60) % DAY;
    Clock(second / 3600, second / 60 % 60)
  }

  lemma AddDays(n: int, x: int)
    ensures (n * DAY + x) / DAY == n + x / DAY && (n * DAY + x) % DAY == x % DAY
  {
  }

  lemma ModSum(x: int, y: int)
    ensures (x + y) % 7 == (x % 7 + y) % 7
  {
  }

  lemma TargetDateIsOnDay(today: int, day: int)
    ensures SundayFirst(TargetDate(today, Some(day))) == day % 7
  {
    var a, p := (day - 1) % 7, PyWeekday(today);
    var step := (a - p) % 7;
    ModSum(today + 6, step);
    assert p + step == a || p + step == a + 7;
    assert PyWeekday(today + step) == a;
    ModSum(day - 1, 1);
  }

  lemma WeekdayAdds(ordinal: int, n: int)
    ensures SundayFirst(ordinal + n) == (SundayFirst(ordinal) + n) % 7
  {
  }

  /** The reference date does not matter: a local weekday moves by the shift, and the UTC
      clock depends on the time and the offset alone. */
  lemma ToUtcMeans(today: int, offset: int, time: int, day: Option<int>)
    ensures ToUtc(today, offset, time, day).1 == UtcClock(offset, time)
    ensures day.Some? ==> ToUtc(today, offset, time, day).0 == (day.value + DayShift(offset, time)) % 7
  {
    var date := TargetDate(today, day);
    AddDays(date, time - offset * 60);
    WeekdayAdds(date, DayShift(offset, time));
    if day.Some? {
      TargetDateIsOnDay(today, day.value);
      ModSum(day.value, DayShift(offset, time));
    }
  }

  function MinuteOfWeek(day: int, clock: Clock): int {
    day * 1440 + clock.hour * 60 + clock.minute
  }

  lemma ClockMinutes(x: int)
    ensures var second := x % DAY;
            && x / 60 == x / DAY * 1440 + second / 3600 * 60 + second / 60 % 60
            && 0 <= second / 3600 < 24 && 0 <= second / 60 % 60 < 60
  {
    var d, second := x / DAY, x % DAY;
    assert x == d * DAY + second;
    assert x / 60 == d * 1440 + second / 60;
    assert second / 60 == second / 3600 * 60 + second / 60 % 60;
  }

  lemma WeekOf(days: int, minute: int)
    requires 0 <= minute < 1440
    ensures days % 7 * 1440 + minute == (days * 1440 + minute) % WEEK
  {
    var w := days / 7;
    assert days == 7 * w + days % 7;
    assert days * 1440 + minute == WEEK * w + (days % 7 * 1440 + minute);
  }

  /** The wire day and time name the same minute of the week as the local ones, moved by
      the offset. */
  lemma SameMinuteOfTheWeek(today: int, offset: int, time: int, day: int)
    ensures var (wireDay, clock) := ToUtc(today, offset, time, Some(day));
            && MinuteOfWeek(wireDay, clock) == (day * 1440 + time / 60 - offset) % WEEK
            && 0 <= wireDay < 7 && 0 <= clock.hour < 24 && 0 <= clock.minute < 60
  {
    ToUtcMeans(today, offset, time, Some(day));
    var x, shift := time - offset * 60, DayShift(offset, time);
    var clock := UtcClock(offset, time);
    ClockMinutes(x);
    var local := (day + shift) * 1440 + clock.hour * 60 + clock.minute;
    assert local == day * 1440 + time / 60 - offset;
    WeekOf(day + shift, clock.hour * 60 + clock.minute);
  }

  // ----- the loop over the days

  /** `sorted(set(days))` */
  function Insert(x: int, s: seq<int>): seq<int> {
    if s == [] || x < s[0] then [x] + s else if x == s[0] then s else [s[0]] + Insert(x, s[1..])
  }

  function SortedSet(days: seq<int>): seq<int> {
    if days == [] then [] else Insert(days[0], SortedSet(days[1..]))
  }

  predicate Increasing(s: seq<int>) {
    forall i, j | 0 <= i < j < |s| :: s[i] < s[j]
  }

  lemma {:induction false} InsertKeeps(x: int, s: seq<int>)
    requires Increasing(s)
    ensures Increasing(Insert(x, s)) && forall y :: y in Insert(x, s) <==> y == x || y in s
  {
    if s != [] && x > s[0] {
      assert Increasing(s[1..]);
      InsertKeeps(x, s[1..]);
      assert forall y :: y in s <==> y == s[0] || y in s[1..];
      var t := Insert(x, s[1..]);
      forall i | 0 <= i < |t|
        ensures s[0] < t[i]
      {
        assert t[i] in t;
      }
    } else if s != [] && x < s[0] {
      assert forall i | 0 <= i < |s| :: s[0] <= s[i];
    }
  }

  lemma {:induction false} SortedSetSorts(days: seq<int>)
    ensures Increasing(SortedSet(days)) && forall y :: y in SortedSet(days) <==> y in days
  {
    if days != [] {
      SortedSetSorts(days[1..]);
      InsertKeeps(days[0], SortedSet(days[1..]));
      assert forall y :: y in days <==> y == days[0] || y in days[1..];
    }
  }

  datatype Reservation = Reservation(wireDays: seq<int>, start: Clock, end: Clock)
  datatype ReservationError = ValueError

  /** The wire days of a list of local days. */
  function ShiftDays(days: seq<int>, shift: int): seq<int> {
    seq(|days|, i requires 0 <= i < |days| => (days[i] + shift) % 7)
  }

  /** `schedule_reservation_charge_na`: `todays` is the local date that each conversion
      reads from the clock, which may pass midnight on the way. Every day's conversion
      gives the same start time, so overwriting it loses nothing. */
  method ScheduleReservation(days: seq<int>, start: int, end: int, offset: int, todays: nat -> int)
      returns (r: Result<Reservation, ReservationError>)
    ensures days == [] ==> r == Err(ValueError)
    ensures days != [] ==> r == Ok(Reservation(ShiftDays(SortedSet(days), DayShift(offset, start)),
                                               UtcClock(offset, start), UtcClock(offset, end)))
  {
    if days == [] {
      return Err(ValueError);
    }
    var sorted := SortedSet(days);
    SortedSetSorts(days);
    assert days[0] in sorted;
    var wireDays: seq<int> := [];
    var startWire := Clock(0, 0);
    for i := 0 to |sorted|
      invariant wireDays == ShiftDays(sorted, DayShift(offset, start))[..i]
      invariant i > 0 ==> startWire == UtcClock(offset, start)
    {
      var (wireDay, clock) := ToUtc(todays(i), offset, start, Some(sorted[i]));
      ToUtcMeans(todays(i), offset, start, Some(sorted[i]));
      wireDays := wireDays + [wireDay];
      startWire := clock;
    }
    var endWire := ToUtc(todays(|sorted|), offset, end, None).1;
    ToUtcMeans(todays(|sorted|), offset, end, None);
    assert wireDays == ShiftDays(sorted, DayShift(offset, start));
    return Ok(Reservation(wireDays, startWire, endWire));
  }

  predicate Distinct(s: seq<int>) {
    forall i, j | 0 <= i < j < |s| :: s[i] != s[j]
  }

  /** Two distinct days that are the same day of the week. */
  predicate Clash(days: seq<int>) {
    exists i, j :: 0 <= i < j < |days| && days[i] % 7 == days[j] % 7
  }

  lemma Difference(a: int, b: int)
    ensures a % 7 == b % 7 <==> (a - b) % 7 == 0
  {
  }

  lemma ShiftMod(a: int, b: int, shift: int)
    ensures (a + shift) % 7 == (b + shift) % 7 <==> a % 7 == b % 7
  {
    var d := a - b;
    assert (a + shift) % 7 == (b + shift) % 7 <==> d % 7 == 0 by { Difference(a + shift, b + shift); }
    Difference(a, b);
  }

  /** The wire days stay distinct exactly when no two different days share a weekday. */
  lemma WireDaysDistinctIff(days: seq<int>, shift: int)
    ensures Distinct(ShiftDays(SortedSet(days), shift)) <==> !Clash(SortedSet(days))
  {
    var s := SortedSet(days);
    var w := ShiftDays(s, shift);
    forall i, j | 0 <= i < j < |s|
      ensures w[i] == w[j] <==> s[i] % 7 == s[j] % 7
    {
      ShiftMod(s[i], s[j], shift);
    }
  }

  /** Days in the documented range, Sunday 0 to Saturday 6, never clash. */
  lemma WeekDaysStayDistinct(days: seq<int>, shift: int)
    requires forall i | 0 <= i < |days| :: 0 <= days[i] < 7
    ensures Distinct(ShiftDays(SortedSet(days), shift))
  {
    SortedSetSorts(days);
    WireDaysDistinctIff(days, shift);
    hide SortedSet, ShiftDays;
    var s := SortedSet(days);
    forall i | 0 <= i < |s|
      ensures s[i] % 7 == s[i]
    {
      assert s[i] in days;
    }
  }
}
