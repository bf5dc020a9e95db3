/** The month and day trip views of `HyundaiBlueLinkApiUSA`, and the odometer correction
    of the trip distances. */
module Trips {
  import opened Prelude
  import Numerals

  /** One processed trip; `start` is its full start date, "YYYY-MM-DD HH:MM:SS.f". */
  datatype Trip = Trip(
    start: string, driveTime: int, idleTime: int, distance: real, avgSpeed: real, maxSpeed: int)

  /** The totals of a summary. */
  datatype Summary = Summary(driveTime: int, idleTime: int, distance: real, avgSpeed: real, maxSpeed: int)
  datatype DayCount = DayCount(yyyymmdd: string, tripCount: int)
  datatype MonthInfo = MonthInfo(yyyymm: string, summary: Summary, dayList: seq<DayCount>)

  /** A trip as the day view lists it, with its start as "HHMMSS". */
  datatype TripItem = TripItem(
    hhmmss: string, driveTime: int, idleTime: int, distance: real, avgSpeed: real, maxSpeed: int)
  datatype DayInfo = DayInfo(yyyymmdd: string, summary: Summary, tripList: seq<TripItem>)

  /** A Python slice with non-negative bounds: cut to what is there. */
  function Slice(s: string, i: nat, j: nat): string
    requires i <= j
  {
    if |s| <= i then [] else if |s| < j then s[i..] else s[i..j]
  }

  function MonthKey(t: Trip): string {
    Slice(t.start, 0, 4) + Slice(t.start, 5, 7)
  }

  function DayKey(t: Trip): string {
    MonthKey(t) + Slice(t.start, 8, 10)
  }

  /** Whatever the start strings look like, trips of one day are trips of one month. */
  lemma DayDeterminesMonth(t: Trip, u: Trip)
    requires DayKey(t) == DayKey(u)
    ensures MonthKey(t) == MonthKey(u)
  {
    var m, n := MonthKey(t), MonthKey(u);
    assert |t.start| > 8 ==> |m| == 6;
    assert |u.start| > 8 ==> |n| == 6;
    assert |m| == |n| ==> m == DayKey(t)[..|m|] == n;
  }

  // ----- the two views, as functions of the matching trips

  function InMonth(trips: seq<Trip>, month: string): (r: seq<Trip>)
    ensures forall i | 0 <= i < |r| :: MonthKey(r[i]) == month
  {
    if trips == [] then []
    else
      var t := trips[|trips| - 1];
      InMonth(trips[..|trips| - 1], month) + if MonthKey(t) == month then [t] else []
  }

  function OnDay(trips: seq<Trip>, day: string): (r: seq<Trip>)
    ensures forall i | 0 <= i < |r| :: DayKey(r[i]) == day
  {
    if trips == [] then []
    else
      var t := trips[|trips| - 1];
      OnDay(trips[..|trips| - 1], day) + if DayKey(t) == day then [t] else []
  }

  /** `round(x, 1)` */
  function RoundTenth(x: real): real {
    Numerals.Round(x * 10.0) as real / 10.0
  }

  /** The summary with its speed divided by the number of trips so far, and rounded. */
  function Averaged(s: Summary, n: nat): Summary
    requires n > 0
  {
    s.(avgSpeed := RoundTenth(s.avgSpeed / n as real))
  }

  function Of(t: Trip): Summary {
    Summary(t.driveTime, t.idleTime, t.distance, t.avgSpeed, t.maxSpeed)
  }

  function Plus(s: Summary, t: Trip): Summary {
    Summary(s.driveTime + t.driveTime, s.idleTime + t.idleTime, s.distance + t.distance, s.avgSpeed + t.avgSpeed,
            if t.maxSpeed >= s.maxSpeed then t.maxSpeed else s.maxSpeed)
  }

  /** The running summary of a non-empty list. */
  function Totals(ts: seq<Trip>): Summary
    requires ts != []
  {
    Averaged(if |ts| == 1 then Of(ts[0]) else Plus(Totals(ts[..|ts| - 1]), ts[|ts| - 1]), |ts|)
  }

  function Bump(days: seq<DayCount>, key: string): (r: seq<DayCount>)
    ensures |r| >= |days|
  {
    if days == [] then [DayCount(key, 1)]
    else if days[0].yyyymmdd == key then [days[0].(tripCount := days[0].tripCount + 1)] + days[1..]
    else [days[0]] + Bump(days[1..], key)
  }

  function DayCounts(ts: seq<Trip>): seq<DayCount> {
    if ts == [] then [] else Bump(DayCounts(ts[..|ts| - 1]), DayKey(ts[|ts| - 1]))
  }

  function MonthView(trips: seq<Trip>, month: string): Option<MonthInfo> {
    var ts := InMonth(trips, month);
    if ts == [] then None else Some(MonthInfo(month, Totals(ts), DayCounts(ts)))
  }

  function ItemOf(t: Trip): TripItem {
    TripItem(Slice(t.start, 11, 13) + Slice(t.start, 14, 16) + Slice(t.start, 17, 19),
             t.driveTime, t.idleTime, t.distance, t.avgSpeed, t.maxSpeed)
  }

  function Items(ts: seq<Trip>): (r: seq<TripItem>)
    ensures |r| == |ts|
    ensures forall i | 0 <= i < |ts| :: r[i] == ItemOf(ts[i])
  {
    seq(|ts|, i requires 0 <= i < |ts| => ItemOf(ts[i]))
  }

  function DayView(trips: seq<Trip>, day: string): Option<DayInfo> {
    var ts := OnDay(trips, day);
    if ts == [] then None else Some(DayInfo(day, Totals(ts), Items(ts)))
  }

  lemma InMonthStep(trips: seq<Trip>, month: string, n: nat)
    requires n < |trips|
    ensures InMonth(trips[..n + 1], month)
         == if MonthKey(trips[n]) == month then InMonth(trips[..n], month) + [trips[n]] else InMonth(trips[..n], month)
  {
    assert trips[..n + 1][..n] == trips[..n];
  }

  lemma OnDayStep(trips: seq<Trip>, day: string, n: nat)
    requires n < |trips|
    ensures OnDay(trips[..n + 1], day)
         == if DayKey(trips[n]) == day then OnDay(trips[..n], day) + [trips[n]] else OnDay(trips[..n], day)
  {
    assert trips[..n + 1][..n] == trips[..n];
  }

  lemma ItemsStep(ts: seq<Trip>, t: Trip)
    ensures Items(ts + [t]) == Items(ts) + [ItemOf(t)] && Items([]) == []
  {
    hide ItemOf;
  }

  lemma TotalsStep(ts: seq<Trip>, t: Trip)
    ensures Totals(ts + [t]) == Averaged(if ts == [] then Of(t) else Plus(Totals(ts), t), |ts| + 1)
    ensures DayCounts(ts + [t]) == Bump(DayCounts(ts), DayKey(t))
  {
    assert (ts + [t])[..|ts|] == ts;
  }

  predicate DistinctDays(days: seq<DayCount>) {
    forall i, j | 0 <= i < j < |days| :: days[i].yyyymmdd != days[j].yyyymmdd
  }

  predicate HasDay(days: seq<DayCount>, key: string) {
    exists i :: 0 <= i < |days| && days[i].yyyymmdd == key
  }

  lemma HasDayCons(d: DayCount, days: seq<DayCount>, key: string)
    ensures HasDay([d] + days, key) <==> d.yyyymmdd == key || HasDay(days, key)
  {
    var all := [d] + days;
    assert all[0] == d && forall i | 0 <= i < |days| :: all[i + 1] == days[i];
  }

  lemma {:induction false} BumpHasDay(days: seq<DayCount>, key: string, k: string)
    ensures HasDay(Bump(days, key), k) <==> k == key || HasDay(days, k)
  {
    if days == [] {
      assert Bump(days, key)[0].yyyymmdd == key;
    } else {
      assert [days[0]] + days[1..] == days;
      HasDayCons(days[0], days[1..], k);
      if days[0].yyyymmdd == key {
        HasDayCons(days[0].(tripCount := days[0].tripCount + 1), days[1..], k);
      } else {
        BumpHasDay(days[1..], key, k);
        HasDayCons(days[0], Bump(days[1..], key), k);
      }
    }
  }

  lemma {:induction false} BumpKeepsDistinct(days: seq<DayCount>, key: string)
    requires DistinctDays(days)
    ensures DistinctDays(Bump(days, key))
  {
    if days != [] && days[0].yyyymmdd != key {
      var rest := Bump(days[1..], key);
      BumpKeepsDistinct(days[1..], key);
      BumpHasDay(days[1..], key, days[0].yyyymmdd);
      assert !HasDay(days[1..], days[0].yyyymmdd);
      assert forall i | 0 <= i < |rest| :: rest[i].yyyymmdd != days[0].yyyymmdd;
    }
  }

  /** One entry per distinct day of the trips, and no other. */
  lemma {:induction false} DayCountsDistinct(ts: seq<Trip>)
    ensures DistinctDays(DayCounts(ts))
    ensures forall i | 0 <= i < |ts| :: HasDay(DayCounts(ts), DayKey(ts[i]))
  {
    if ts != [] {
      var n := |ts| - 1;
      DayCountsDistinct(ts[..n]);
      BumpKeepsDistinct(DayCounts(ts[..n]), DayKey(ts[n]));
      forall i | 0 <= i < |ts|
        ensures HasDay(DayCounts(ts), DayKey(ts[i]))
      {
        assert i < n ==> ts[..n][i] == ts[i];
        BumpHasDay(DayCounts(ts[..n]), DayKey(ts[n]), DayKey(ts[i]));
      }
    }
  }

  /** What the inner loop makes of one entry of the day list. */
  function BumpedEntry(d: DayCount, key: string): DayCount {
    if d.yyyymmdd == key then d.(tripCount := d.tripCount + 1) else d
  }

  lemma {:induction false} BumpAll(days: seq<DayCount>, key: string, r: seq<DayCount>, found: bool)
    requires DistinctDays(days) && |r| == |days|
    requires forall k | 0 <= k < |days| :: r[k] == BumpedEntry(days[k], key)
    requires found <==> HasDay(days, key)
    ensures Bump(days, key) == if found then r else r + [DayCount(key, 1)]
  {
    if days != [] {
      assert r == [r[0]] + r[1..] && days == [days[0]] + days[1..];
      HasDayCons(days[0], days[1..], key);
      if days[0].yyyymmdd == key {
        assert r[1..] == days[1..];
      } else {
        BumpAll(days[1..], key, r[1..], found);
      }
    }
  }

  // ----- conservation

  /** What adds up: drive time, idle time, distance and the number of trips. */
  datatype Amount = Amount(driveTime: int, idleTime: int, distance: real, trips: int)

  const NOTHING := Amount(0, 0, 0.0, 0)

  function Add(a: Amount, b: Amount): Amount {
    Amount(a.driveTime + b.driveTime, a.idleTime + b.idleTime, a.distance + b.distance, a.trips + b.trips)
  }

  function AmountOf(t: Trip): Amount {
    Amount(t.driveTime, t.idleTime, t.distance, 1)
  }

  function Sum(ts: seq<Trip>): Amount {
    if ts == [] then NOTHING else Add(Sum(ts[..|ts| - 1]), AmountOf(ts[|ts| - 1]))
  }

  function Shown(s: Summary, trips: int): Amount {
    Amount(s.driveTime, s.idleTime, s.distance, trips)
  }

  /** A summary shows the sums over its trips, and the highest of their top speeds. */
  lemma {:induction false} TotalsAreSums(ts: seq<Trip>)
    requires ts != []
    ensures Shown(Totals(ts), |ts|) == Sum(ts)
    ensures forall i | 0 <= i < |ts| :: ts[i].maxSpeed <= Totals(ts).maxSpeed
    ensures exists i :: 0 <= i < |ts| && ts[i].maxSpeed == Totals(ts).maxSpeed
  {
    var n := |ts| - 1;
    if n == 0 {
      assert Sum(ts[..0]) == NOTHING;
      assert ts[0].maxSpeed == Totals(ts).maxSpeed;
    } else {
      TotalsAreSums(ts[..n]);
      assert forall i | 0 <= i < n :: ts[i] == ts[..n][i];
      if Totals(ts).maxSpeed == ts[n].maxSpeed {
      } else {
        var i :| 0 <= i < n && ts[..n][i].maxSpeed == Totals(ts[..n]).maxSpeed;
        assert ts[i].maxSpeed == Totals(ts).maxSpeed;
      }
    }
  }

  /** What the day view of one day shows. */
  function DayAmount(trips: seq<Trip>, day: string): Amount {
    match DayView(trips, day)
    case None => NOTHING
    case Some(info) => Shown(info.summary, |info.tripList|)
  }

  lemma DayAmountIsSum(trips: seq<Trip>, day: string)
    ensures DayAmount(trips, day) == Sum(OnDay(trips, day))
  {
    if OnDay(trips, day) != [] { TotalsAreSums(OnDay(trips, day)); }
  }

  /** The day views of all listed days together. */
  function OverDays(days: seq<DayCount>, trips: seq<Trip>): Amount {
    if days == [] then NOTHING else Add(DayAmount(trips, days[0].yyyymmdd), OverDays(days[1..], trips))
  }

  lemma SumStep(ts: seq<Trip>, t: Trip)
    ensures Sum(ts + [t]) == Add(Sum(ts), AmountOf(t))
  {
    assert (ts + [t])[..|ts|] == ts;
  }

  lemma DayAmountStep(trips: seq<Trip>, day: string, n: nat)
    requires n < |trips|
    ensures DayAmount(trips[..n + 1], day)
         == Add(DayAmount(trips[..n], day), if DayKey(trips[n]) == day then AmountOf(trips[n]) else NOTHING)
  {
    hide DayAmount, Sum, OnDay, DayKey;
    OnDayStep(trips, day, n);
    DayAmountIsSum(trips[..n], day);
    DayAmountIsSum(trips[..n + 1], day);
    SumStep(OnDay(trips[..n], day), trips[n]);
  }

  lemma FirstDay(days: seq<DayCount>, key: string)
    requires DistinctDays(days) && days != []
    ensures HasDay(days, key) <==> days[0].yyyymmdd == key || HasDay(days[1..], key)
    ensures !HasDay(days[1..], days[0].yyyymmdd) && DistinctDays(days[1..])
  {
    HasDayCons(days[0], days[1..], key);
    assert [days[0]] + days[1..] == days;
  }

  lemma AddCases(a: Amount, b: Amount, t: Amount, x: bool, y: bool)
    requires !(x && y)
    ensures Add(Add(a, if x then t else NOTHING), Add(b, if y then t else NOTHING))
         == Add(Add(a, b), if x || y then t else NOTHING)
    ensures Add(NOTHING, NOTHING) == NOTHING
  {
  }

  lemma NoDay(key: string)
    ensures !HasDay([], key)
  {
  }

  lemma {:induction false} OverDaysStep(days: seq<DayCount>, trips: seq<Trip>, n: nat)
    requires DistinctDays(days) && n < |trips|
    ensures OverDays(days, trips[..n + 1])
         == Add(OverDays(days, trips[..n]), if HasDay(days, DayKey(trips[n])) then AmountOf(trips[n]) else NOTHING)
  {
    hide DayAmount, DistinctDays, DayKey, HasDay, AmountOf, Add;
    var key, t := DayKey(trips[n]), AmountOf(trips[n]);
    if days == [] {
      NoDay(key);
      AddCases(NOTHING, NOTHING, t, false, false);
    } else {
      var p, q, day := trips[..n], trips[..n + 1], days[0].yyyymmdd;
      assert OverDays(days, p) == Add(DayAmount(p, day), OverDays(days[1..], p));
      assert OverDays(days, q) == Add(DayAmount(q, day), OverDays(days[1..], q));
      hide OverDays;
      FirstDay(days, key);
      OverDaysStep(days[1..], trips, n);
      DayAmountStep(trips, day, n);
      AddCases(DayAmount(p, day), OverDays(days[1..], p), t, key == day, HasDay(days[1..], key));
    }
  }

  lemma {:induction false} OverNoTrips(days: seq<DayCount>)
    ensures OverDays(days, []) == NOTHING && forall month :: Sum(InMonth([], month)) == NOTHING
  {
    if days != [] { OverNoTrips(days[1..]); }
  }

  /** When the listed days are the days of the month's trips, the day views add up to them. */
  lemma {:induction false} OverDaysIsSum(days: seq<DayCount>, trips: seq<Trip>, month: string, n: nat)
    requires DistinctDays(days) && n <= |trips|
    requires forall i | 0 <= i < |trips| :: HasDay(days, DayKey(trips[i])) <==> MonthKey(trips[i]) == month
    ensures OverDays(days, trips[..n]) == Sum(InMonth(trips[..n], month))
    decreases n
  {
    hide OverDays, Sum, InMonth, DayKey, MonthKey, HasDay;
    if n == 0 {
      OverNoTrips(days);
    } else {
      OverDaysIsSum(days, trips, month, n - 1);
      OverDaysStep(days, trips, n - 1);
      InMonthStep(trips, month, n - 1);
      SumStep(InMonth(trips[..n - 1], month), trips[n - 1]);
    }
  }

  lemma {:induction false} ListedDayHasTrip(ts: seq<Trip>, key: string)
    requires HasDay(DayCounts(ts), key)
    ensures exists i :: 0 <= i < |ts| && DayKey(ts[i]) == key
  {
    if ts != [] {
      var n := |ts| - 1;
      DayCountsDistinct(ts[..n]);
      BumpHasDay(DayCounts(ts[..n]), DayKey(ts[n]), key);
      if DayKey(ts[n]) != key {
        ListedDayHasTrip(ts[..n], key);
        var i :| 0 <= i < n && DayKey(ts[..n][i]) == key;
        assert DayKey(ts[i]) == key;
      }
    }
  }

  lemma {:induction false} InMonthHas(trips: seq<Trip>, month: string, i: nat)
    requires i < |trips| && MonthKey(trips[i]) == month
    ensures trips[i] in InMonth(trips, month)
  {
    var n := |trips| - 1;
    if i < n {
      InMonthHas(trips[..n], month, i);
    }
  }

  lemma ListedDaysAreTheMonths(trips: seq<Trip>, month: string)
    ensures forall i | 0 <= i < |trips| ::
              HasDay(DayCounts(InMonth(trips, month)), DayKey(trips[i])) <==> MonthKey(trips[i]) == month
  {
    var ts := InMonth(trips, month);
    DayCountsDistinct(ts);
    forall i | 0 <= i < |trips|
      ensures HasDay(DayCounts(ts), DayKey(trips[i])) <==> MonthKey(trips[i]) == month
    {
      if MonthKey(trips[i]) == month {
        InMonthHas(trips, month, i);
        var k :| 0 <= k < |ts| && ts[k] == trips[i];
        assert HasDay(DayCounts(ts), DayKey(ts[k]));
      }
      if HasDay(DayCounts(ts), DayKey(trips[i])) {
        ListedDayHasTrip(ts, DayKey(trips[i]));
        var k :| 0 <= k < |ts| && DayKey(ts[k]) == DayKey(trips[i]);
        DayDeterminesMonth(ts[k], trips[i]);
      }
    }
  }

  /** The month's drive time, idle time and distance are the sums over the month's trips,
      and the sums of the day views of the listed days. */
  lemma MonthIsSumOfDays(trips: seq<Trip>, month: string)
    requires MonthView(trips, month).Some?
    ensures var info, ts := MonthView(trips, month).value, InMonth(trips, month);
            && Shown(info.summary, |ts|) == Sum(ts)
            && Shown(info.summary, |ts|) == OverDays(info.dayList, trips)
  {
    var ts := InMonth(trips, month);
    TotalsAreSums(ts);
    DayCountsDistinct(ts);
    ListedDaysAreTheMonths(trips, month);
    OverDaysIsSum(DayCounts(ts), trips, month, |trips|);
    assert trips[..|trips|] == trips;
  }

  // ----- the average speed

  lemma RoundTenthBelow(x: real, m: int)
    requires x <= m as real / 10.0
    ensures RoundTenth(x) <= m as real / 10.0
  {
    var n := Numerals.Round(x * 10.0);
    assert n as real <= m as real + 0.5;
    hide Numerals.Round;
    assert n <= m;
  }

  lemma QuotientBelow(x: real, y: real, n: nat)
    requires n > 0 && x <= y
    ensures x / n as real <= y / n as real
    ensures y >= 0.0 ==> y / n as real <= y
  {
    var d := n as real;
    assert y / d - x / d == (y - x) / d;
    if y >= 0.0 {
      assert y == y / d * d;
    }
  }

  lemma OfSpeed(t: Trip)
    ensures Of(t).avgSpeed == t.avgSpeed
  {
  }

  lemma PlusSpeed(s: Summary, t: Trip)
    ensures Plus(s, t).avgSpeed == s.avgSpeed + t.avgSpeed
  {
  }

  lemma TwoHalves(top: real, n: nat)
    requires n >= 2 && top >= 0.0
    ensures (top + top) / n as real <= top
  {
    var q := (top + top) / n as real;
    assert q * n as real == top + top;
    assert q >= 0.0;
    assert q * 2.0 <= q * n as real;
  }

  /** The shown average is no mean: it is divided anew with each trip, so speeds of at most
      `m` tenths are shown as at most about twice that over the number of trips. */
  lemma {:induction false} AverageShrinks(ts: seq<Trip>, m: nat)
    requires ts != [] && forall i | 0 <= i < |ts| :: ts[i].avgSpeed <= m as real / 10.0
    ensures Totals(ts).avgSpeed <= m as real / 10.0
    ensures |ts| >= 2 ==> Totals(ts).avgSpeed <= m as real / 5.0 / |ts| as real + 0.05
  {
    hide Plus, Of;
    var n, top := |ts|, m as real / 10.0;
    if n == 1 {
      assert Totals(ts).avgSpeed == RoundTenth(ts[0].avgSpeed) by { OfSpeed(ts[0]); }
      RoundTenthBelow(ts[0].avgSpeed, m);
    } else {
      AverageShrinks(ts[..n - 1], m);
      var sum := Totals(ts[..n - 1]).avgSpeed + ts[n - 1].avgSpeed;
      assert Totals(ts).avgSpeed == RoundTenth(sum / n as real) by { PlusSpeed(Totals(ts[..n - 1]), ts[n - 1]); }
      QuotientBelow(sum, top + top, n);
      QuotientBelow(sum, top + top, 2);
      TwoHalves(top, n);
      RoundTenthBelow(sum / n as real, m);
    }
  }

  // ----- when the average is the mean

  function SpeedSum(ts: seq<Trip>): real {
    if ts == [] then 0.0 else SpeedSum(ts[..|ts| - 1]) + ts[|ts| - 1].avgSpeed
  }

  /** The mean of the trips' average speeds, to one decimal. */
  function MeanSpeed(ts: seq<Trip>): real
    requires ts != []
  {
    RoundTenth(SpeedSum(ts) / |ts| as real)
  }

  function TenthsOf(t: Trip): int {
    Numerals.Round(t.avgSpeed * 10.0)
  }

  /** A speed with at most one decimal. */
  predicate InTenths(t: Trip) {
    TenthsOf(t) as real / 10.0 == t.avgSpeed
  }

  function RoundDiv(a: int, n: nat): int
    requires n > 0
  {
    Numerals.Round(a as real / n as real)
  }

  /** The shown average in tenths, as a recurrence on integers. */
  function ShownTenths(ts: seq<Trip>): int
    requires ts != []
  {
    if |ts| == 1 then TenthsOf(ts[0])
    else RoundDiv(ShownTenths(ts[..|ts| - 1]) + TenthsOf(ts[|ts| - 1]), |ts|)
  }

  function SumTenths(ts: seq<Trip>): int {
    if ts == [] then 0 else SumTenths(ts[..|ts| - 1]) + TenthsOf(ts[|ts| - 1])
  }

  lemma RealCancel(a: real, b: real, d: real)
    requires d > 0.0 && a * d == b * d
    ensures a == b
  {
    assert (a - b) * d == 0.0;
  }

  lemma TenthsDivided(a: int, n: nat)
    requires n > 0
    ensures RoundTenth(a as real / 10.0 / n as real) == RoundDiv(a, n) as real / 10.0
  {
    var d, x := n as real, a as real;
    var q, y := x / d, x / 10.0 / d;
    assert q * d == x && y * d == x / 10.0;
    assert (y * 10.0) * d == x;
    RealCancel(y * 10.0, q, d);
    hide Numerals.Round;
  }

  lemma RoundDivOne(a: int)
    ensures RoundDiv(a, 1) == a
  {
    Numerals.RoundInt(a);
  }

  lemma NearInts(a: int, m: int, n: nat, f: real)
    requires m as real == a as real + f && -(n as real) <= 2.0 * f <= n as real
    ensures 2 * a - n <= 2 * m <= 2 * a + n
  {
    assert (2 * a - n) as real <= (2 * m) as real <= (2 * a + n) as real;
  }

  lemma NotNegative(x: real, d: real)
    requires x >= 0.0 && d > 0.0
    ensures x * d >= 0.0
  {
  }

  lemma HalfAtMost(e: real, d: real) returns (f: real)
    requires -0.5 <= e <= 0.5 && d > 0.0
    ensures f == e * d && -d <= 2.0 * f <= d
  {
    f := e * d;
    NotNegative(0.5 + e, d);
    NotNegative(0.5 - e, d);
    assert (0.5 + e) * d == 0.5 * d + f && (0.5 - e) * d == 0.5 * d - f;
  }

  /** `n * r` is off from `a` by the rounding error times the divisor. */
  lemma Spread(a: int, n: nat, r: int, e: real, f: real)
    requires n > 0 && r as real == a as real / n as real + e && f == e * n as real
    ensures (n * r) as real == a as real + f
  {
    var d, q := n as real, a as real / n as real;
    assert q * d == a as real;
    assert (q + e) * d == q * d + e * d;
    assert (n * r) as real == r as real * d;
  }

  /** A rounded quotient is off by at most half a divisor. */
  lemma RoundDivNear(a: int, n: nat)
    requires n > 0
    ensures 2 * a - n <= 2 * (n * RoundDiv(a, n)) <= 2 * a + n
  {
    var r := RoundDiv(a, n);
    var e := r as real - a as real / n as real;
    assert -0.5 <= e <= 0.5;
    hide Numerals.Round, RoundDiv;
    var f := HalfAtMost(e, n as real);
    Spread(a, n, r, e, f);
    NearInts(a, n * r, n, f);
  }

  lemma {:induction false} ShownInTenths(ts: seq<Trip>)
    requires ts != [] && forall i | 0 <= i < |ts| :: InTenths(ts[i])
    ensures Totals(ts).avgSpeed == ShownTenths(ts) as real / 10.0
  {
    var n := |ts|;
    assert InTenths(ts[n - 1]);
    hide Plus, Of;
    if n == 1 {
      OfSpeed(ts[0]);
      TenthsDivided(TenthsOf(ts[0]), 1);
      RoundDivOne(TenthsOf(ts[0]));
    } else {
      ShownInTenths(ts[..n - 1]);
      PlusSpeed(Totals(ts[..n - 1]), ts[n - 1]);
      TenthsDivided(ShownTenths(ts[..n - 1]) + TenthsOf(ts[n - 1]), n);
    }
    hide RoundTenth, RoundDiv, TenthsOf;
  }

  lemma {:induction false} SumInTenths(ts: seq<Trip>)
    requires forall i | 0 <= i < |ts| :: InTenths(ts[i])
    ensures SpeedSum(ts) == SumTenths(ts) as real / 10.0
  {
    if ts != [] {
      assert InTenths(ts[|ts| - 1]);
      SumInTenths(ts[..|ts| - 1]);
    }
    hide TenthsOf;
  }

  lemma {:induction false} SumAtLeast(ts: seq<Trip>)
    requires forall i | 0 <= i < |ts| :: TenthsOf(ts[i]) >= 3
    ensures SumTenths(ts) >= 3 * |ts|
  {
    hide TenthsOf;
    if ts != [] {
      SumAtLeast(ts[..|ts| - 1]);
    }
  }

  lemma ProductGrows(x: int, y: int, k: nat)
    requires x <= y
    ensures k * x <= k * y
  {
  }

  lemma Successor(y: int, k: nat)
    ensures k * (y + 1) == k * y + k
  {
  }

  /** A product with a positive factor is compared by its other factor. */
  lemma Cancel(x: int, y: int, k: nat)
    requires k > 0 && k * x <= k * y
    ensures x <= y
  {
    Successor(y, k);
    if x > y {
      ProductGrows(y + 1, x, k);
    }
  }

  lemma SumIsMore(h: int, s: int, k: nat)
    requires k >= 2 && s >= 3 * k && 2 * (k * h) <= 2 * s + k
    ensures h <= s
  {
    ProductGrows(2, k, s);
    assert k * h <= k * s;
    Cancel(h, s, k);
  }

  /** From two trips on, the shown average is at most the sum over the number, give or take
      the rounding. */
  lemma {:induction false} ShownBelow(ts: seq<Trip>)
    requires ts != [] && forall i | 0 <= i < |ts| :: TenthsOf(ts[i]) >= 3
    ensures ShownTenths(ts) <= SumTenths(ts)
    ensures |ts| >= 2 ==> 2 * (|ts| * ShownTenths(ts)) <= 2 * SumTenths(ts) + |ts|
  {
    hide TenthsOf, RoundDiv;
    var k := |ts|;
    if k == 1 {
      assert SumTenths(ts[..0]) == 0;
    } else {
      var init := ts[..k - 1];
      ShownBelow(init);
      SumAtLeast(ts);
      RoundDivNear(ShownTenths(init) + TenthsOf(ts[k - 1]), k);
      var h, s := ShownTenths(ts), SumTenths(ts);
      assert 2 * (k * h) <= 2 * s + k;
      hide ShownTenths, SumTenths;
      SumIsMore(h, s, k);
    }
  }

  /** Sums far enough apart are rounded apart. */
  lemma RoundedApart(a: int, d: int, n: nat)
    requires n > 0 && (d > n || (n == 3 && d >= 3))
    ensures RoundDiv(a + d, n) != RoundDiv(a, n)
  {
    RoundDivNear(a, n);
    RoundDivNear(a + d, n);
    hide RoundDiv;
  }

  /** What the shown average of the first `k` trips, at least two, has lost. */
  lemma LostSpeed(h: int, s: int, k: nat)
    requires k >= 2 && s >= 3 * k && 2 * (k * h) <= 2 * s + k
    ensures s - h > k + 1 || (k == 2 && s - h >= 3)
  {
    if k > 2 {
      ProductGrows(3 * k, s, k - 1);
      assert (k - 1) * (3 * k) == k * (3 * k - 3) && (k - 1) * s == k * s - s;
      assert k * (2 * (s - h)) == 2 * (k * s) - 2 * (k * h);
      assert k * (6 * k - 7) == 2 * (k * (3 * k - 3)) - k;
      Cancel(6 * k - 7, 2 * (s - h), k);
    }
  }

  lemma OneSum(ts: seq<Trip>)
    requires |ts| == 1
    ensures SumTenths(ts) == TenthsOf(ts[0])
  {
    assert SumTenths(ts[..0]) == 0;
  }

  lemma ShownIsMeanIff(ts: seq<Trip>)
    requires ts != [] && forall i | 0 <= i < |ts| :: TenthsOf(ts[i]) >= 3
    ensures ShownTenths(ts) == RoundDiv(SumTenths(ts), |ts|) <==> |ts| <= 2
  {
    hide TenthsOf, RoundDiv;
    var n := |ts|;
    var init := ts[..n - 1];
    if n == 1 {
      OneSum(ts);
      RoundDivOne(SumTenths(ts));
    } else {
      ShownBelow(init);
      SumAtLeast(init);
      var h, s, v := ShownTenths(init), SumTenths(init), TenthsOf(ts[n - 1]);
      assert ShownTenths(ts) == RoundDiv(h + v, n) && SumTenths(ts) == s + v;
      if n == 2 {
        OneSum(init);
      } else {
        hide ShownTenths, SumTenths;
        LostSpeed(h, s, n - 1);
        RoundedApart(h + v, s - h, n);
      }
    }
  }

  /** For speeds of whole tenths, at least 0.3, the shown average is the mean exactly when
      there are at most two trips. */
  lemma AverageIsMeanIff(ts: seq<Trip>)
    requires ts != [] && forall i | 0 <= i < |ts| :: InTenths(ts[i]) && ts[i].avgSpeed >= 0.3
    ensures Totals(ts).avgSpeed == MeanSpeed(ts) <==> |ts| <= 2
  {
    ShownInTenths(ts);
    SumInTenths(ts);
    TenthsDivided(SumTenths(ts), |ts|);
    forall i | 0 <= i < |ts|
      ensures TenthsOf(ts[i]) >= 3
    {
      assert InTenths(ts[i]);
    }
    hide Totals, TenthsOf, RoundTenth, InTenths, RoundDiv, ShownTenths, SumTenths, SpeedSum;
    ShownIsMeanIff(ts);
  }

  lemma SumOfFew(t: Trip, u: Trip, w: Trip)
    ensures SpeedSum([t, u]) == t.avgSpeed + u.avgSpeed
    ensures SpeedSum([t, u, w]) == t.avgSpeed + u.avgSpeed + w.avgSpeed
  {
    assert [t, u, w][..2] == [t, u] && [t, u][..1] == [t] && [t][..0] == [];
    assert SpeedSum([t]) == t.avgSpeed;
  }

  lemma ShownOfFew(t: Trip, u: Trip, w: Trip)
    ensures Totals([t, u]).avgSpeed == RoundTenth((RoundTenth(t.avgSpeed) + u.avgSpeed) / 2.0)
    ensures Totals([t, u, w]).avgSpeed == RoundTenth((Totals([t, u]).avgSpeed + w.avgSpeed) / 3.0)
  {
    hide RoundTenth;
    assert [t, u, w][..2] == [t, u] && [t, u][..1] == [t];
    assert Totals([t]).avgSpeed == RoundTenth(t.avgSpeed / 1.0);
  }

  lemma Nearest(x: real, n: int)
    requires n as real - 0.5 < x * 10.0 < n as real + 0.5
    ensures RoundTenth(x) == n as real / 10.0
  {
    Numerals.RoundNearest(x * 10.0, n);
    hide Numerals.Round;
  }

  /** Below 0.3, three trips may show their mean: the bound cannot be dropped. */
  lemma SlowTripsMayShowTheMean(t: Trip, u: Trip, w: Trip)
    requires t.avgSpeed == u.avgSpeed == 0.2 && w.avgSpeed == 0.3
    ensures Totals([t, u, w]).avgSpeed == MeanSpeed([t, u, w]) == 0.2
  {
    SumOfFew(t, u, w);
    ShownOfFew(t, u, w);
    hide Totals, SpeedSum, RoundTenth;
    Nearest(0.2, 2);
    Nearest(0.5 / 3.0, 2);
    Nearest(0.7 / 3.0, 2);
  }

  /** With a second decimal, two trips may miss it: nor can that condition. */
  lemma TwoTripsMayMissTheMean(t: Trip, u: Trip)
    requires t.avgSpeed == 10.04 && u.avgSpeed == 10.1
    ensures Totals([t, u]).avgSpeed == 10.0 && MeanSpeed([t, u]) == 10.1
  {
    SumOfFew(t, u, u);
    ShownOfFew(t, u, u);
    assert RoundTenth(20.1 / 2.0) == 10.0 by {
      assert 20.1 / 2.0 * 10.0 == 100.5 && (100.5).Floor == 100;
    }
    hide Totals, SpeedSum, RoundTenth;
    Nearest(10.04, 100);
    Nearest(20.14 / 2.0, 101);
  }

  /** Three trips at one speed are shown at two thirds of it. */
  lemma AverageIsNoMean(t: Trip)
    requires t.avgSpeed == 30.0
    ensures Totals([t, t]).avgSpeed == 30.0 && Totals([t, t, t]).avgSpeed == 20.0
  {
    Numerals.RoundInt(300);
    Numerals.RoundInt(200);
    assert [t, t, t][..2] == [t, t] && [t, t][..1] == [t];
    assert Totals([t]).avgSpeed == RoundTenth(30.0);
    assert Totals([t, t]).avgSpeed == RoundTenth(60.0 / 2.0);
    assert Totals([t, t, t]).avgSpeed == RoundTenth(60.0 / 3.0);
  }

  // ----- counts

  function CountOf(days: seq<DayCount>, key: string): int {
    if days == [] then 0
    else (if days[0].yyyymmdd == key then days[0].tripCount else 0) + CountOf(days[1..], key)
  }

  function CountAll(days: seq<DayCount>): int {
    if days == [] then 0 else days[0].tripCount + CountAll(days[1..])
  }

  lemma {:induction false} BumpCounts(days: seq<DayCount>, key: string, k: string)
    ensures CountAll(Bump(days, key)) == CountAll(days) + 1
    ensures CountOf(Bump(days, key), k) == CountOf(days, k) + if k == key then 1 else 0
  {
    if days != [] && days[0].yyyymmdd != key {
      BumpCounts(days[1..], key, k);
    }
  }

  lemma {:induction false} CountsAreExact(ts: seq<Trip>, key: string)
    ensures CountAll(DayCounts(ts)) == |ts|
    ensures CountOf(DayCounts(ts), key) == |OnDay(ts, key)|
  {
    if ts != [] {
      var n := |ts| - 1;
      CountsAreExact(ts[..n], key);
      BumpCounts(DayCounts(ts[..n]), DayKey(ts[n]), key);
    }
  }

  lemma CountOfAbsent(days: seq<DayCount>, key: string)
    requires forall i | 0 <= i < |days| :: days[i].yyyymmdd != key
    ensures CountOf(days, key) == 0
  {
  }

  lemma {:induction false} CountOfEntry(days: seq<DayCount>, i: nat)
    requires DistinctDays(days) && i < |days|
    ensures CountOf(days, days[i].yyyymmdd) == days[i].tripCount
  {
    if i == 0 {
      CountOfAbsent(days[1..], days[0].yyyymmdd);
    } else {
      CountOfEntry(days[1..], i - 1);
    }
  }

  lemma {:induction false} OnDayConcat(a: seq<Trip>, b: seq<Trip>, day: string)
    ensures OnDay(a + b, day) == OnDay(a, day) + OnDay(b, day)
  {
    if b == [] {
      assert a + b == a;
    } else {
      var n := |b| - 1;
      assert (a + b)[..|a + b| - 1] == a + b[..n];
      OnDayConcat(a, b[..n], day);
    }
    hide DayKey;
  }

  lemma OneSelected(t: Trip, month: string, day: string)
    ensures InMonth([t], month) == if MonthKey(t) == month then [t] else []
    ensures OnDay([t], day) == if DayKey(t) == day then [t] else []
  {
    assert [t][..0] == [];
    hide MonthKey, DayKey;
  }

  lemma {:induction false} SameDayTrips(trips: seq<Trip>, month: string, day: string)
    requires forall i | 0 <= i < |trips| && DayKey(trips[i]) == day :: MonthKey(trips[i]) == month
    ensures OnDay(InMonth(trips, month), day) == OnDay(trips, day)
  {
    if trips != [] {
      var n := |trips| - 1;
      var t := trips[n];
      assert forall i | 0 <= i < n :: trips[..n][i] == trips[i];
      SameDayTrips(trips[..n], month, day);
      assert trips[..n + 1] == trips;
      InMonthStep(trips, month, n);
      OnDayStep(trips, day, n);
      OneSelected(t, month, day);
      hide InMonth, OnDay, MonthKey, DayKey;
      if MonthKey(t) == month {
        OnDayConcat(InMonth(trips[..n], month), [t], day);
      }
    }
  }

  lemma {:induction false} OnDayHas(ts: seq<Trip>, day: string, j: nat)
    requires j < |ts| && DayKey(ts[j]) == day
    ensures |OnDay(ts, day)| > 0
  {
    var n := |ts| - 1;
    if j < n { OnDayHas(ts[..n], day, j); }
  }

  /** The day list has one entry per day, in it the number of trips that the day view
      lists, and the counts add up to the month's trips. */
  lemma DayListIsExact(trips: seq<Trip>, month: string)
    requires MonthView(trips, month).Some?
    ensures var info := MonthView(trips, month).value;
            && DistinctDays(info.dayList)
            && CountAll(info.dayList) == |InMonth(trips, month)|
            && (forall i | 0 <= i < |trips| :: HasDay(info.dayList, DayKey(trips[i])) <==> MonthKey(trips[i]) == month)
            && forall k | 0 <= k < |info.dayList| ::
                 info.dayList[k].tripCount == |OnDay(trips, info.dayList[k].yyyymmdd)| > 0
  {
    var ts := InMonth(trips, month);
    var days := DayCounts(ts);
    DayCountsDistinct(ts);
    CountsAreExact(ts, "");
    ListedDaysAreTheMonths(trips, month);
    forall k | 0 <= k < |days|
      ensures days[k].tripCount == |OnDay(trips, days[k].yyyymmdd)| > 0
    {
      var day := days[k].yyyymmdd;
      CountOfEntry(days, k);
      CountsAreExact(ts, day);
      ListedDayHasTrip(ts, day);
      forall i | 0 <= i < |trips| && DayKey(trips[i]) == day
        ensures MonthKey(trips[i]) == month
      {
        assert HasDay(days, DayKey(trips[i]));
      }
      SameDayTrips(trips, month, day);
      var j :| 0 <= j < |ts| && DayKey(ts[j]) == day;
      OnDayHas(ts, day, j);
    }
  }

  // ----- which trip is shown where

  /** A start date spelled out: "YYYY-MM-DD" and what follows. */
  predicate StartsOn(t: Trip, y: string, m: string, d: string, rest: string) {
    |y| == 4 && |m| == |d| == 2 && t.start == y + "-" + m + "-" + d + rest
  }

  lemma StartKeys(t: Trip, y: string, m: string, d: string, rest: string)
    requires StartsOn(t, y, m, d, rest)
    ensures MonthKey(t) == y + m && DayKey(t) == y + m + d
  {
    var s := t.start;
    assert s[0..4] == y && s[5..7] == m && s[8..10] == d;
  }

  /** A view's trip list shows the clock time of the start and the trip's own figures. */
  lemma ItemMeans(t: Trip, y: string, m: string, d: string, hh: string, mm: string, ss: string, rest: string)
    requires |hh| == |mm| == |ss| == 2 && StartsOn(t, y, m, d, " " + hh + ":" + mm + ":" + ss + rest)
    ensures ItemOf(t) == TripItem(hh + mm + ss, t.driveTime, t.idleTime, t.distance, t.avgSpeed, t.maxSpeed)
  {
    var s := t.start;
    assert s == y + "-" + m + "-" + d + " " + hh + ":" + mm + ":" + ss + rest;
    assert s[11..13] == hh && s[14..16] == mm && s[17..19] == ss;
  }

  lemma {:induction false} InMonthConcat(a: seq<Trip>, b: seq<Trip>, month: string)
    ensures InMonth(a + b, month) == InMonth(a, month) + InMonth(b, month)
  {
    if b == [] {
      assert a + b == a;
    } else {
      var n := |b| - 1;
      assert (a + b)[..|a + b| - 1] == a + b[..n];
      InMonthConcat(a, b[..n], month);
    }
    hide MonthKey;
  }

  lemma OneTotal(t: Trip)
    ensures Totals([t]) == Summary(t.driveTime, t.idleTime, t.distance, RoundTenth(t.avgSpeed), t.maxSpeed)
    ensures DayCounts([t]) == [DayCount(DayKey(t), 1)] && Items([t]) == [ItemOf(t)]
  {
    assert [t][..0] == [] && t.avgSpeed / 1.0 == t.avgSpeed;
    hide RoundTenth, DayKey, ItemOf;
  }

  /** What a single trip shows. */
  lemma OneTrip(t: Trip, y: string, m: string, d: string, rest: string, month: string, day: string)
    requires StartsOn(t, y, m, d, rest)
    ensures var shown := Summary(t.driveTime, t.idleTime, t.distance, RoundTenth(t.avgSpeed), t.maxSpeed);
            && MonthView([t], month)
               == (if month == y + m then Some(MonthInfo(month, shown, [DayCount(y + m + d, 1)])) else None)
            && DayView([t], day) == if day == y + m + d then Some(DayInfo(day, shown, [ItemOf(t)])) else None
  {
    StartKeys(t, y, m, d, rest);
    OneSelected(t, month, day);
    OneTotal(t);
    hide MonthKey, DayKey, RoundTenth, ItemOf, InMonth, OnDay, Totals, DayCounts, Items;
  }

  lemma {:induction false} OnDayLists(trips: seq<Trip>, day: string, i: nat)
    requires i < |trips| && DayKey(trips[i]) == day
    ensures trips[i] in OnDay(trips, day)
  {
    hide DayKey;
    var n := |trips| - 1;
    if i < n {
      OnDayLists(trips[..n], day, i);
    }
  }

  /** A trip of any list is counted in the month view of its own month and no other, under
      its own day, and listed in the day view of its own day and no other. */
  lemma ShownWhere(trips: seq<Trip>, i: nat, y: string, m: string, d: string, rest: string, month: string, day: string)
    requires i < |trips| && StartsOn(trips[i], y, m, d, rest)
    ensures month == y + m <==>
            MonthView(trips, month).Some? && HasDay(MonthView(trips, month).value.dayList, y + m + d)
    ensures trips[i] in OnDay(trips, day) <==> day == y + m + d
    ensures day == y + m + d ==> DayView(trips, day).Some? && ItemOf(trips[i]) in DayView(trips, day).value.tripList
  {
    StartKeys(trips[i], y, m, d, rest);
    hide MonthKey, DayKey, ItemOf, Totals, DayCounts, StartsOn;
    if MonthView(trips, month).Some? {
      DayListIsExact(trips, month);
    } else if month == y + m {
      InMonthHas(trips, month, i);
    }
    if day == y + m + d {
      OnDayLists(trips, day, i);
      var k :| 0 <= k < |OnDay(trips, day)| && OnDay(trips, day)[k] == trips[i];
      assert Items(OnDay(trips, day))[k] == ItemOf(trips[i]);
    }
  }

  // ----- distances from the odometer

  datatype OdometerTrip = OdometerTrip(odometer: Option<real>, distance: real)

  /** Python truth of an odometer reading: reported, and not zero. */
  predicate Known(odometer: Option<real>) {
    odometer.Some? && odometer.value != 0.0
  }

  /** The distance of a trip, given the next older one. */
  function Corrected(t: OdometerTrip, older: OdometerTrip): real {
    if Known(older.odometer) && Known(t.odometer) && t.odometer.value >= older.odometer.value
    then t.odometer.value - older.odometer.value else t.distance
  }

  function CorrectedAt(before: seq<OdometerTrip>, k: nat): OdometerTrip
    requires k < |before|
  {
    if k + 1 < |before| then before[k].(distance := Corrected(before[k], before[k + 1])) else before[k]
  }

  /** From index `from` on, every trip but the oldest has its corrected distance, and
      nothing else has changed. */
  predicate CorrectedFrom(before: seq<OdometerTrip>, trips: seq<OdometerTrip>, from: nat) {
    && |trips| == |before|
    && forall k | from <= k < |before| :: trips[k] == CorrectedAt(before, k)
  }

  /** The loop over the reversed trip list, newest trip at index 0: every distance is
      overwritten in place from two odometer readings, when they allow it. */
  method OverruleDistances(trips: array<OdometerTrip>) returns (previous: Option<real>)
    modifies trips
    ensures CorrectedFrom(old(trips[..]), trips[..], 0)
    ensures previous == if trips.Length == 0 then None else old(trips[..])[0].odometer
  {
    ghost var was := trips[..];
    previous := None;
    for i := trips.Length downto 0
      invariant previous == if i == |was| then None else was[i].odometer
      invariant trips[..i] == was[..i]
      invariant CorrectedFrom(was, trips[..], i)
    {
      var trip := trips[i];
      assert trip == trips[..i + 1][i] == was[..i + 1][i];
      if Known(previous) && Known(trip.odometer) {
        var delta := trip.odometer.value - previous.value;
        if delta >= 0.0 {
          trips[i] := trip.(distance := delta);
        }
      }
      previous := trip.odometer;
    }
  }

  /** What the loop leaves: every reading as it was; the distance of a trip with a next
      older one is the difference of their readings, when both are reported, not zero, and
      do not fall; every other distance as it was. */
  lemma OverruledMeans(before: seq<OdometerTrip>, trips: seq<OdometerTrip>, k: nat)
    requires CorrectedFrom(before, trips, 0) && k < |before|
    ensures |trips| == |before| && trips[k].odometer == before[k].odometer
    ensures trips[k].distance ==
            if && k + 1 < |before|
               && before[k].odometer.Some? && before[k].odometer.value != 0.0
               && before[k + 1].odometer.Some? && before[k + 1].odometer.value != 0.0
               && before[k].odometer.value - before[k + 1].odometer.value >= 0.0
            then before[k].odometer.value - before[k + 1].odometer.value
            else before[k].distance
  {
    assert trips[k] == CorrectedAt(before, k);
  }

  function Travelled(trips: seq<OdometerTrip>): real {
    if |trips| <= 1 then 0.0 else trips[0].distance + Travelled(trips[1..])
  }

  function Reading(t: OdometerTrip): real {
    if t.odometer.Some? then t.odometer.value else 0.0
  }

  /** Readings that never fall from the oldest trip to the newest: then the corrected
      distances of all trips but the oldest add up to the odometer's difference. */
  lemma {:induction false} DistancesTelescope(before: seq<OdometerTrip>, trips: seq<OdometerTrip>)
    requires |before| > 0 && CorrectedFrom(before, trips, 0)
    requires forall i | 0 <= i < |before| :: Known(before[i].odometer)
    requires forall i | 0 < i < |before| :: Reading(before[i - 1]) >= Reading(before[i])
    ensures Travelled(trips) == Reading(before[0]) - Reading(before[|before| - 1])
  {
    if |trips| > 1 {
      assert Reading(before[1 - 1]) >= Reading(before[1]);
      var b, t := before[1..], trips[1..];
      forall k: nat | k < |b|
        ensures t[k] == CorrectedAt(b, k)
      {
        assert trips[k + 1] == CorrectedAt(before, k + 1);
      }
      forall i | 0 < i < |b|
        ensures Reading(b[i - 1]) >= Reading(b[i])
      {
        var m := i + 1;
        assert Reading(before[m - 1]) >= Reading(before[m]);
      }
      assert trips[0] == CorrectedAt(before, 0);
      DistancesTelescope(b, t);
    }
  }
}
