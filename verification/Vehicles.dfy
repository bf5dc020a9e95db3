/** The vehicle object that the APIs update, with the fields that this project follows. */
module Vehicles {
  import opened Prelude
  import opened Schedule
  import LastUpdated
  import Trips

  class Vehicle {
    var lastUpdatedAt: Option<int>  // the instant
    var ccs2Support: bool
    var isEv: bool

    var evFirstDepartureEnabled: Option<bool>
    var evSecondDepartureEnabled: Option<bool>
    var evFirstDepartureDays: Option<seq<int>>
    var evSecondDepartureDays: Option<seq<int>>
    var evFirstDepartureTime: Option<TimeOfDay>
    var evSecondDepartureTime: Option<TimeOfDay>
    var evFirstDepartureClimateEnabled: Option<bool>
    var evSecondDepartureClimateEnabled: Option<bool>
    var evFirstDepartureClimateTemperature: Option<real>
    var evSecondDepartureClimateTemperature: Option<real>
    var evFirstDepartureClimateTemperatureUnit: Option<TemperatureUnit>
    var evSecondDepartureClimateTemperatureUnit: Option<TemperatureUnit>
    var evFirstDepartureClimateDefrost: Option<bool>
    var evSecondDepartureClimateDefrost: Option<bool>
    var evOffPeakStartTime: Option<TimeOfDay>
    var evOffPeakEndTime: Option<TimeOfDay>
    var evOffPeakChargeOnlyEnabled: Option<bool>
    var evScheduleChargeEnabled: Option<bool>

    var filledTrips: Option<seq<Trips.Trip>>
    var monthTripInfo: Option<Trips.MonthInfo>
    var dayTripInfo: Option<Trips.DayInfo>

    constructor (ccs2: bool, electric: bool)
      ensures lastUpdatedAt == None && ccs2Support == ccs2 && isEv == electric
      ensures View() == Reported(NO_DEPARTURE, NO_DEPARTURE, None, None, None, None)
      ensures filledTrips == None && monthTripInfo == None && dayTripInfo == None
    {
      lastUpdatedAt, ccs2Support, isEv := None, ccs2, electric;
      evFirstDepartureEnabled, evFirstDepartureDays, evFirstDepartureTime := None, None, None;
      evSecondDepartureEnabled, evSecondDepartureDays, evSecondDepartureTime := None, None, None;
      evFirstDepartureClimateEnabled, evFirstDepartureClimateDefrost := None, None;
      evSecondDepartureClimateEnabled, evSecondDepartureClimateDefrost := None, None;
      evFirstDepartureClimateTemperature, evFirstDepartureClimateTemperatureUnit := None, None;
      evSecondDepartureClimateTemperature, evSecondDepartureClimateTemperatureUnit := None, None;
      evOffPeakStartTime, evOffPeakEndTime := None, None;
      evOffPeakChargeOnlyEnabled, evScheduleChargeEnabled := None, None;
      filledTrips, monthTripInfo, dayTripInfo := None, None, None;
    }

    function FirstDeparture(): Departure
      reads this
    {
      Departure(evFirstDepartureEnabled, evFirstDepartureDays, evFirstDepartureTime,
                evFirstDepartureClimateEnabled, evFirstDepartureClimateTemperature, evFirstDepartureClimateDefrost)
    }

    function SecondDeparture(): Departure
      reads this
    {
      Departure(evSecondDepartureEnabled, evSecondDepartureDays, evSecondDepartureTime,
                evSecondDepartureClimateEnabled, evSecondDepartureClimateTemperature, evSecondDepartureClimateDefrost)
    }

    /** The schedule that the vehicle reports. */
    function View(): Reported
      reads this
    {
      Reported(FirstDeparture(), SecondDeparture(),
               evScheduleChargeEnabled, evOffPeakStartTime, evOffPeakEndTime, evOffPeakChargeOnlyEnabled)
    }

    /** The setter of the first departure's temperature: a missing or unparsable value is
        None, and a missing unit, as for a value without one, keeps the old unit. */
    method SetFirstDepartureTemperature(value: Option<real>, unit: Option<TemperatureUnit>)
      modifies this`evFirstDepartureClimateTemperature, this`evFirstDepartureClimateTemperatureUnit
      ensures evFirstDepartureClimateTemperature == value
      ensures evFirstDepartureClimateTemperatureUnit == Or(unit, old(evFirstDepartureClimateTemperatureUnit))
    {
      evFirstDepartureClimateTemperature := value;
      if unit.Some? {
        evFirstDepartureClimateTemperatureUnit := unit;
      }
    }

    method SetSecondDepartureTemperature(value: Option<real>, unit: Option<TemperatureUnit>)
      modifies this`evSecondDepartureClimateTemperature, this`evSecondDepartureClimateTemperatureUnit
      ensures evSecondDepartureClimateTemperature == value
      ensures evSecondDepartureClimateTemperatureUnit == Or(unit, old(evSecondDepartureClimateTemperatureUnit))
    {
      evSecondDepartureClimateTemperature := value;
      if unit.Some? {
        evSecondDepartureClimateTemperatureUnit := unit;
      }
    }

    /** The `last_updated_at` setter. */
    method SetLastUpdatedAt(value: Option<LastUpdated.Aware>)
      modifies this`lastUpdatedAt
      ensures lastUpdatedAt == LastUpdated.Next(old(lastUpdatedAt), value)
    {
      var newest := if value.Some? then Some(value.value.instant) else None;
      var previous := lastUpdatedAt;
      if newest.Some? && previous.Some? && newest.value < previous.value {
        var corrected := newest.value + value.value.offset;
        if corrected >= previous.value {
          newest := Some(corrected);
        }
        newest := Some(LastUpdated.Max(newest.value, previous.value));
      }
      lastUpdatedAt := newest;
    }

    /** A run of assignments. */
    method AssignAll(values: seq<LastUpdated.Aware>)
      modifies this`lastUpdatedAt
      ensures lastUpdatedAt == LastUpdated.Run(old(lastUpdatedAt), values)
    {
      for i := 0 to |values|
        invariant lastUpdatedAt == LastUpdated.Run(old(lastUpdatedAt), values[..i])
      {
        SetLastUpdatedAt(Some(values[i]));
        assert values[..i + 1][..i] == values[..i];
      }
      assert values[..|values|] == values;
    }
  }
}
