/** The month and day views of `HyundaiBlueLinkApiUSA`, as its loops accumulate them on the
    vehicle. */
module TripViews {
  import opened Prelude
  import opened Trips
  import opened Vehicles

  /** The inner loop over the day list: bump every entry of the day, or append one. */
  method BumpDay(days: seq<DayCount>, key: string) returns (r: seq<DayCount>)
    ensures DistinctDays(days) ==> r == Bump(days, key)
  {
    r := days;
    var found := false;
    for i := 0 to |days|
      invariant |r| == |days|
      invariant forall k | 0 <= k < i :: r[k] == BumpedEntry(days[k], key)
      invariant forall k | i <= k < |days| :: r[k] == days[k]
      invariant found <==> HasDay(days[..i], key)
    {
      assert forall k | 0 <= k < i :: days[..i + 1][k] == days[..i][k];
      if r[i].yyyymmdd == key {
        assert days[..i + 1][i].yyyymmdd == key;
        r := r[i := r[i].(tripCount := r[i].tripCount + 1)];
        found := true;
      }
    }
    assert days[..|days|] == days;
    ghost var bumped := r;
    if !found {
      r := r + [DayCount(key, 1)];
    }
    if DistinctDays(days) {
      BumpAll(days, key, bumped, found);
    }
  }

  /** `update_month_trip_info` */
  method UpdateMonthTripInfo(vehicle: Vehicle, month: string)
    modifies vehicle`monthTripInfo
    ensures vehicle.monthTripInfo
         == if vehicle.filledTrips.None? then None else MonthView(vehicle.filledTrips.value, month)
  {
    vehicle.monthTripInfo := None;
    if vehicle.filledTrips.None? {
      return;
    }
    var trips := vehicle.filledTrips.value;
    var info: Option<MonthInfo> := None;
    var count := 0;
    for n := 0 to |trips|
      invariant count == |InMonth(trips[..n], month)|
      invariant info == MonthView(trips[..n], month)
    {
      var trip := trips[n];
      InMonthStep(trips, month, n);
      ghost var before := InMonth(trips[..n], month);
      hide InMonth, Totals, DayCounts, Averaged, Of, Plus, MonthKey, DayKey;
      if MonthKey(trip) == month {
        TotalsStep(before, trip);
        DayCountsDistinct(before);
        if count == 0 {
          assert before == [];
          info := Some(MonthInfo(month, Of(trip), []));
          count := 1;
        } else {
          count := count + 1;
          info := Some(info.value.(summary := Plus(info.value.summary, trip)));
        }
        info := Some(info.value.(summary := Averaged(info.value.summary, count)));
        var days := BumpDay(info.value.dayList, DayKey(trip));
        info := Some(info.value.(dayList := days));
      }
    }
    assert trips[..|trips|] == trips;
    vehicle.monthTripInfo := info;
  }

  /** What one more trip makes of the day view. */
  lemma DayViewStep(trips: seq<Trip>, day: string, n: nat)
    requires n < |trips|
    ensures var t, view, count := trips[n], DayView(trips[..n], day), |OnDay(trips[..n], day)|;
            && (view.None? <==> count == 0)
            && |OnDay(trips[..n + 1], day)| == count + (if DayKey(t) == day then 1 else 0)
            && DayView(trips[..n + 1], day)
            == (if DayKey(t) != day then view
               else if view.None? then Some(DayInfo(day, Averaged(Of(t), 1), [] + [ItemOf(t)]))
               else Some(DayInfo(day, Averaged(Plus(view.value.summary, t), count + 1),
                                 view.value.tripList + [ItemOf(t)])))
  {
    OnDayStep(trips, day, n);
    TotalsStep(OnDay(trips[..n], day), trips[n]);
    ItemsStep(OnDay(trips[..n], day), trips[n]);
    hide OnDay, Totals, ItemOf, Items, DayKey, Averaged, Plus, Of;
    assert |OnDay(trips[..n], day)| == 0 ==> OnDay(trips[..n], day) == [];
    assert [] + [ItemOf(trips[n])] == [ItemOf(trips[n])];
  }

  lemma NoTripsYet(trips: seq<Trip>, day: string)
    ensures OnDay(trips[..0], day) == [] && DayView(trips[..0], day) == None
  {
  }

  /** `update_day_trip_info` */
  method UpdateDayTripInfo(vehicle: Vehicle, day: string)
    modifies vehicle`dayTripInfo
    ensures vehicle.dayTripInfo
         == if vehicle.filledTrips.None? then None else DayView(vehicle.filledTrips.value, day)
  {
    vehicle.dayTripInfo := None;
    if vehicle.filledTrips.None? {
      return;
    }
    var trips := vehicle.filledTrips.value;
    var info: Option<DayInfo> := None;
    var count := 0;
    NoTripsYet(trips, day);
    hide DayView, OnDay, ItemOf, DayKey, Averaged, Plus, Of;
    for n := 0 to |trips|
      invariant count == |OnDay(trips[..n], day)|
      invariant info == DayView(trips[..n], day)
    {
      var trip := trips[n];
      DayViewStep(trips, day, n);
      if DayKey(trip) == day {
        var summary, items;
        if count == 0 {
          summary, items, count := Of(trip), [], 1;
        } else {
          summary, items, count := Plus(info.value.summary, trip), info.value.tripList, count + 1;
        }
        info := Some(DayInfo(day, Averaged(summary, count), items + [ItemOf(trip)]));
      }
    }
    assert trips[..|trips|] == trips;
    vehicle.dayTripInfo := info;
  }
}
