/** The schedule options of `ApiImpl.py`: "None means leave unchanged", resolved from the
    vehicle's state by a filler that mutates the caller's options object. */
module Schedule {
  import opened Prelude

  // ----- values

  /** A `datetime.time`. */
  datatype Time = Time(hour: nat, minute: nat, second: nat, micro: nat)

  type TimeOfDay = t: Time | t.hour < 24 && t.minute < 60 && t.second < 60 && t.micro < 1_000_000
    witness Time(0, 0, 0, 0)

  const MIDNIGHT: TimeOfDay := Time(0, 0, 0, 0)
  const NOT_SELECTED: seq<int> := [9]  // the apps' "no days selected"

  /** The six fields of one departure, in the options or as the vehicle reports them. */
  datatype Departure = Departure(
    enabled: Option<bool>, days: Option<seq<int>>, time: Option<TimeOfDay>,
    climate: Option<bool>, temperature: Option<real>, defrost: Option<bool>)

  const NO_DEPARTURE := Departure(None, None, None, None, None, None)

  datatype Options = Options(
    first: Option<Departure>, second: Option<Departure>,
    charging: Option<bool>, offPeakStart: Option<TimeOfDay>, offPeakEnd: Option<TimeOfDay>, offPeakOnly: Option<bool>,
    climate: Option<bool>, temperature: Option<real>, defrost: Option<bool>)

  const NO_OPTIONS := Options(None, None, None, None, None, None, None, None, None)

  /** The top-level climate fields, which stand in for a departure's own. */
  datatype Fallback = Fallback(climate: Option<bool>, temperature: Option<real>, defrost: Option<bool>)

  function TopLevel(o: Options): Fallback {
    Fallback(o.climate, o.temperature, o.defrost)
  }

  datatype TemperatureUnit = Celsius | Fahrenheit | OtherUnit

  /** What the filler reads of a vehicle. */
  datatype Reported = Reported(
    first: Departure, second: Departure,
    charging: Option<bool>, offPeakStart: Option<TimeOfDay>, offPeakEnd: Option<TimeOfDay>, offPeakOnly: Option<bool>)

  /** The documented defaults of one fill. */
  datatype Defaults = Defaults(flag: bool, days: seq<int>, time: TimeOfDay, temperature: real)

  const DEFAULTS := Defaults(false, NOT_SELECTED, MIDNIGHT, 21.0)

  function Or<T>(a: Option<T>, b: Option<T>): Option<T> {
    if a.Some? then a else b
  }

  function Pick<T>(current: Option<T>, source: Option<T>, default: T): T {
    if current.Some? then current.value else if source.Some? then source.value else default
  }

  // ----- scopes

  predicate ChargeActive(o: Options) {
    o.charging.Some? || o.offPeakStart.Some? || o.offPeakEnd.Some? || o.offPeakOnly.Some?
  }

  predicate ClimateActive(o: Options) {
    o.climate.Some? || o.temperature.Some? || o.defrost.Some? || o.first.Some? || o.second.Some?
  }

  // ----- the filler, on values

  function FillDeparture(d: Departure, v: Departure, top: Fallback, df: Defaults): Departure {
    var days := Pick(d.days, v.days, df.days);
    Departure(
      Some(Pick(d.enabled, v.enabled, df.flag)),
      Some(if days == [] then NOT_SELECTED else days),
      Some(Pick(d.time, v.time, df.time)),
      Some(Pick(Or(d.climate, top.climate), v.climate, df.flag)),
      Some(Pick(Or(d.temperature, top.temperature), v.temperature, df.temperature)),
      Some(Pick(Or(d.defrost, top.defrost), v.defrost, df.flag)))
  }

  function FillCharge(o: Options, v: Reported, df: Defaults): Options {
    o.(charging := Some(Pick(o.charging, v.charging, df.flag)),
       offPeakStart := Some(Pick(o.offPeakStart, v.offPeakStart, df.time)),
       offPeakEnd := Some(Pick(o.offPeakEnd, v.offPeakEnd, df.time)),
       offPeakOnly := Some(Pick(o.offPeakOnly, v.offPeakOnly, df.flag)))
  }

  function Given(d: Option<Departure>): Departure {
    if d.Some? then d.value else NO_DEPARTURE
  }

  /** `shared` says that the caller passed one object as both departures: it is then
      filled from the first departure's state, and nothing is left for the second. */
  function FillClimate(o: Options, v: Reported, shared: bool, df: Defaults): Options {
    var first := FillDeparture(Given(o.first), v.first, TopLevel(o), df);
    var second := if shared then first else FillDeparture(Given(o.second), v.second, TopLevel(o), df);
    o.(first := Some(first), second := Some(second),
       climate := Or(o.climate, first.climate),
       temperature := Or(o.temperature, first.temperature),
       defrost := Or(o.defrost, first.defrost))
  }

  function FillWith(o: Options, v: Reported, charge: bool, climate: bool, shared: bool, df: Defaults): Options {
    var filled := if charge then FillCharge(o, v, df) else o;
    if climate then FillClimate(filled, v, shared, df) else filled
  }

  function Fill(o: Options, v: Reported, charge: bool, climate: bool, shared: bool): Options {
    FillWith(o, v, charge, climate, shared, DEFAULTS)
  }

  // ----- the labels of defaulted fields

  datatype Field = Enabled | Days | DepartureTime | ClimateEnabled | Temperature | Defrost

  /** The label of an option: `off_peak_end_time`, `first_departure.days` and so on. */
  datatype Label = Charging | OffPeakStart | OffPeakEnd | OffPeakOnly | OfDeparture(number: nat, field: Field)

  /** `missing` once a field has been resolved: the label is added when the default was used. */
  function Note<T>(missing: seq<Label>, current: Option<T>, source: Option<T>, label': Label): seq<Label> {
    if current.None? && source.None? then missing + [label'] else missing
  }

  function MissingDeparture(m: seq<Label>, d: Departure, v: Departure, top: Fallback, n: nat): seq<Label> {
    var m1 := Note(m, d.enabled, v.enabled, OfDeparture(n, Enabled));
    var m2 := Note(m1, d.days, v.days, OfDeparture(n, Days));
    var m3 := Note(m2, d.time, v.time, OfDeparture(n, DepartureTime));
    var m4 := Note(m3, Or(d.climate, top.climate), v.climate, OfDeparture(n, ClimateEnabled));
    var m5 := Note(m4, Or(d.temperature, top.temperature), v.temperature, OfDeparture(n, Temperature));
    Note(m5, Or(d.defrost, top.defrost), v.defrost, OfDeparture(n, Defrost))
  }

  function MissingCharge(m: seq<Label>, o: Options, v: Reported): seq<Label> {
    var m1 := Note(m, o.charging, v.charging, Charging);
    var m2 := Note(m1, o.offPeakStart, v.offPeakStart, OffPeakStart);
    var m3 := Note(m2, o.offPeakEnd, v.offPeakEnd, OffPeakEnd);
    Note(m3, o.offPeakOnly, v.offPeakOnly, OffPeakOnly)
  }

  function MissingClimate(m: seq<Label>, o: Options, v: Reported, shared: bool): seq<Label> {
    var m1 := MissingDeparture(m, Given(o.first), v.first, TopLevel(o), 1);
    if shared then m1 else MissingDeparture(m1, Given(o.second), v.second, TopLevel(o), 2)
  }

  function Missing(o: Options, v: Reported, charge: bool, climate: bool, shared: bool): seq<Label> {
    var m := if charge then MissingCharge([], o, v) else [];
    if climate then MissingClimate(m, o, v, shared) else m
  }

  // ----- objects

  class DepartureOptions {
    var enabled: Option<bool>
    var days: Option<seq<int>>
    var time: Option<TimeOfDay>
    var climateEnabled: Option<bool>
    var temperature: Option<real>
    var defrost: Option<bool>

    constructor ()
      ensures View() == NO_DEPARTURE
    {
      enabled, days, time, climateEnabled, temperature, defrost := None, None, None, None, None, None;
    }

    function View(): Departure
      reads this
    {
      Departure(enabled, days, time, climateEnabled, temperature, defrost)
    }
  }

  class ScheduleOptions {
    var firstDeparture: DepartureOptions?
    var secondDeparture: DepartureOptions?
    var chargingEnabled: Option<bool>
    var offPeakStartTime: Option<TimeOfDay>
    var offPeakEndTime: Option<TimeOfDay>
    var offPeakChargeOnlyEnabled: Option<bool>
    var climateEnabled: Option<bool>
    var temperature: Option<real>
    var defrost: Option<bool>

    constructor ()
      ensures View() == NO_OPTIONS && !Shared()
    {
      firstDeparture, secondDeparture := null, null;
      chargingEnabled, offPeakStartTime, offPeakEndTime, offPeakChargeOnlyEnabled := None, None, None, None;
      climateEnabled, temperature, defrost := None, None, None;
    }

    function View(): Options
      reads this, firstDeparture, secondDeparture
    {
      Options(if firstDeparture == null then None else Some(firstDeparture.View()),
              if secondDeparture == null then None else Some(secondDeparture.View()),
              chargingEnabled, offPeakStartTime, offPeakEndTime, offPeakChargeOnlyEnabled,
              climateEnabled, temperature, defrost)
    }

    predicate Shared()
      reads this
    {
      firstDeparture != null && firstDeparture == secondDeparture
    }
  }

  /** `_fill_option_value`; `missing` is the list it appends to. */
  method FillOptionValue<T>(current: Option<T>, source: Option<T>, default: T, label': Label, missing: seq<Label>)
      returns (value: T, missing': seq<Label>)
    ensures value == Pick(current, source, default)
    ensures missing' == Note(missing, current, source, label')
  {
    if current.Some? {
      return current.value, missing;
    }
    if source.Some? {
      return source.value, missing;
    }
    return default, missing + [label'];
  }

  /** `_fill_departure_options`, for the vehicle state `v` of the departure's number. */
  method FillDepartureOptions(departure: DepartureOptions, v: Departure, number: nat, fallback: Fallback,
                              missing: seq<Label>)
      returns (missing': seq<Label>)
    modifies departure
    ensures departure.View() == FillDeparture(old(departure.View()), v, fallback, DEFAULTS)
    ensures missing' == MissingDeparture(missing, old(departure.View()), v, fallback, number)
  {
    var enabled, m1 := FillOptionValue(departure.enabled, v.enabled, false, OfDeparture(number, Enabled), missing);
    departure.enabled := Some(enabled);
    var days, m2 := FillOptionValue(departure.days, v.days, NOT_SELECTED, OfDeparture(number, Days), m1);
    departure.days := Some(days);
    if departure.days.value == [] {
      departure.days := Some(NOT_SELECTED);
    }
    var time, m3 := FillOptionValue(departure.time, v.time, MIDNIGHT, OfDeparture(number, DepartureTime), m2);
    departure.time := Some(time);
    var climate, m4 := FillOptionValue(Or(departure.climateEnabled, fallback.climate), v.climate, false,
                                       OfDeparture(number, ClimateEnabled), m3);
    departure.climateEnabled := Some(climate);
    var temperature, m5 := FillOptionValue(Or(departure.temperature, fallback.temperature), v.temperature, 21.0,
                                           OfDeparture(number, Temperature), m4);
    departure.temperature := Some(temperature);
    var defrost, m6 := FillOptionValue(Or(departure.defrost, fallback.defrost), v.defrost, false,
                                       OfDeparture(number, Defrost), m5);
    departure.defrost := Some(defrost);
    missing' := m6;
  }

  method FillChargeFields(options: ScheduleOptions, v: Reported, missing: seq<Label>) returns (missing': seq<Label>)
    modifies options
    ensures options.View() == FillCharge(old(options.View()), v, DEFAULTS)
    ensures options.firstDeparture == old(options.firstDeparture)
    ensures options.secondDeparture == old(options.secondDeparture)
    ensures missing' == MissingCharge(missing, old(options.View()), v)
  {
    var charging, m1 := FillOptionValue(options.chargingEnabled, v.charging, false, Charging, missing);
    options.chargingEnabled := Some(charging);
    var start, m2 := FillOptionValue(options.offPeakStartTime, v.offPeakStart, MIDNIGHT, OffPeakStart, m1);
    options.offPeakStartTime := Some(start);
    var end, m3 := FillOptionValue(options.offPeakEndTime, v.offPeakEnd, MIDNIGHT, OffPeakEnd, m2);
    options.offPeakEndTime := Some(end);
    var only, m4 := FillOptionValue(options.offPeakChargeOnlyEnabled, v.offPeakOnly, false,
                                    OffPeakOnly, m3);
    options.offPeakChargeOnlyEnabled := Some(only);
    missing' := m4;
  }

  /** A filled departure is left alone by another fill, whatever state that one reads. */
  lemma FilledDepartureStays(d: Departure, v: Departure, w: Departure, top: Fallback, m: seq<Label>)
    ensures var f := FillDeparture(d, v, top, DEFAULTS);
            FillDeparture(f, w, top, DEFAULTS) == f && MissingDeparture(m, f, w, top, 2) == m
  {
  }

  /** The first departure's climate fields, mirrored to the top level where that has none. */
  method MirrorFirstDeparture(options: ScheduleOptions)
    requires options.firstDeparture != null
    modifies options`climateEnabled, options`temperature, options`defrost
    ensures options.climateEnabled == Or(old(options.climateEnabled), options.firstDeparture.climateEnabled)
    ensures options.temperature == Or(old(options.temperature), options.firstDeparture.temperature)
    ensures options.defrost == Or(old(options.defrost), options.firstDeparture.defrost)
  {
    if options.climateEnabled.None? {
      options.climateEnabled := options.firstDeparture.climateEnabled;
    }
    if options.temperature.None? {
      options.temperature := options.firstDeparture.temperature;
    }
    if options.defrost.None? {
      options.defrost := options.firstDeparture.defrost;
    }
  }

  /** The climate half of the filler: each departure in turn, created when it is not
      there, then the first one mirrored to the top level. */
  method FillClimateFields(options: ScheduleOptions, v: Reported, missing: seq<Label>) returns (missing': seq<Label>)
    modifies options, options.firstDeparture, options.secondDeparture
    ensures options.View() == FillClimate(old(options.View()), v, old(options.Shared()), DEFAULTS)
    ensures options.Shared() == old(options.Shared())
    ensures old(options.firstDeparture) != null ==> options.firstDeparture == old(options.firstDeparture)
    ensures old(options.secondDeparture) != null ==> options.secondDeparture == old(options.secondDeparture)
    ensures options.firstDeparture != null && (old(options.firstDeparture) == null ==> fresh(options.firstDeparture))
    ensures options.secondDeparture != null && (old(options.secondDeparture) == null ==> fresh(options.secondDeparture))
    ensures missing' == MissingClimate(missing, old(options.View()), v, old(options.Shared()))
  {
    hide FillDeparture, MissingDeparture;
    ghost var o := options.View();
    var first, second := options.firstDeparture, options.secondDeparture;
    if first == null {
      first := new DepartureOptions();
      options.firstDeparture := first;
    }
    var fallback := Fallback(options.climateEnabled, options.temperature, options.defrost);
    assert first.View() == Given(o.first);
    var m1 := FillDepartureOptions(first, v.first, 1, fallback, missing);
    if second == null {
      second := new DepartureOptions();
      options.secondDeparture := second;
    }
    ghost var shared := first == second;
    assert !shared ==> second.View() == Given(o.second);
    missing' := FillDepartureOptions(second, v.second, 2, fallback, m1);
    if shared {
      FilledDepartureStays(Given(o.first), v.first, v.second, fallback, m1);
    }
    MirrorFirstDeparture(options);
  }

  /** `_fill_schedule_options_from_vehicle`; the labels of its one warning are returned. */
  method FillScheduleOptions(options: ScheduleOptions, v: Reported, charge: bool, climate: bool)
      returns (missing: seq<Label>)
    modifies options, options.firstDeparture, options.secondDeparture
    ensures options.View() == Fill(old(options.View()), v, charge, climate, old(options.Shared()))
    ensures options.Shared() == old(options.Shared())
    ensures !climate ==> options.firstDeparture == old(options.firstDeparture)
    ensures !climate ==> options.secondDeparture == old(options.secondDeparture)
    ensures old(options.firstDeparture) != null ==> options.firstDeparture == old(options.firstDeparture)
    ensures old(options.secondDeparture) != null ==> options.secondDeparture == old(options.secondDeparture)
    ensures old(options.firstDeparture) == null && options.firstDeparture != null ==> fresh(options.firstDeparture)
    ensures old(options.secondDeparture) == null && options.secondDeparture != null ==> fresh(options.secondDeparture)
    ensures missing == Missing(old(options.View()), v, charge, climate, old(options.Shared()))
  {
    missing := [];
    if charge {
      missing := FillChargeFields(options, v, missing);
    }
    if climate {
      missing := FillClimateFields(options, v, missing);
    }
  }

  /** `ScheduleChargingClimateRequestOptions.from_vehicle` */
  method FromVehicle(v: Reported) returns (options: ScheduleOptions)
    ensures fresh(options) && options.View() == Fill(NO_OPTIONS, v, true, true, false)
  {
    options := new ScheduleOptions();
    var _ := FillScheduleOptions(options, v, true, true);
  }

  // ----- what filling means

  predicate CompleteDeparture(d: Option<Departure>) {
    && d.Some? && d.value.enabled.Some? && d.value.days.Some? && d.value.days != Some([]) && d.value.time.Some?
    && d.value.climate.Some? && d.value.temperature.Some? && d.value.defrost.Some?
  }

  predicate ChargeComplete(o: Options) {
    o.charging.Some? && o.offPeakStart.Some? && o.offPeakEnd.Some? && o.offPeakOnly.Some?
  }

  predicate ClimateComplete(o: Options) {
    && CompleteDeparture(o.first) && CompleteDeparture(o.second)
    && o.climate.Some? && o.temperature.Some? && o.defrost.Some?
  }

  /** A shared object shows the same fields as both departures. */
  predicate Aliasing(o: Options, shared: bool) {
    shared ==> o.first.Some? && o.first == o.second
  }

  /** Every field of a requested scope is set, and the other scope is untouched. */
  lemma FillCompletes(o: Options, v: Reported, charge: bool, climate: bool, shared: bool)
    ensures var f := Fill(o, v, charge, climate, shared);
            && (charge ==> ChargeComplete(f)) && (climate ==> ClimateComplete(f))
            && (!charge ==> MissingCharge([], f, v) == MissingCharge([], o, v) && ChargeActive(f) == ChargeActive(o))
            && (!climate ==> f.first == o.first && f.second == o.second && TopLevel(f) == TopLevel(o))
            && (!charge && !climate ==> f == o)
            && (climate && Aliasing(o, shared) ==> Aliasing(f, shared))
  {
  }

  /** An explicit value survives; explicit empty days become the sentinel. */
  predicate Survives<T(==)>(before: Option<T>, after: Option<T>) {
    before.Some? ==> after == before
  }

  predicate DepartureSurvives(d: Departure, e: Departure) {
    && Survives(d.enabled, e.enabled) && Survives(d.time, e.time)
    && Survives(d.climate, e.climate) && Survives(d.temperature, e.temperature) && Survives(d.defrost, e.defrost)
    && Survives(if d.days == Some([]) then Some(NOT_SELECTED) else d.days, e.days)
  }

  lemma ExplicitSurvives(o: Options, v: Reported, charge: bool, climate: bool, shared: bool)
    requires Aliasing(o, shared)
    ensures var f := Fill(o, v, charge, climate, shared);
            && Survives(o.charging, f.charging) && Survives(o.offPeakStart, f.offPeakStart)
            && Survives(o.offPeakEnd, f.offPeakEnd) && Survives(o.offPeakOnly, f.offPeakOnly)
            && Survives(o.climate, f.climate) && Survives(o.temperature, f.temperature)
            && Survives(o.defrost, f.defrost)
            && (climate && o.first.Some? ==> DepartureSurvives(o.first.value, f.first.value))
            && (climate && o.second.Some? ==> DepartureSurvives(o.second.value, f.second.value))
  {
  }

  /** Filling twice is filling once. */
  lemma FillIdempotent(o: Options, v: Reported, charge: bool, climate: bool, shared: bool)
    ensures var f := Fill(o, v, charge, climate, shared);
            Fill(f, v, charge, climate, shared) == f && Missing(f, v, charge, climate, shared) == []
  {
  }

  /** The two scopes can be filled in either order, or at once. */
  lemma FillScopesCommute(o: Options, v: Reported, shared: bool)
    ensures Fill(Fill(o, v, true, false, shared), v, false, true, shared) == Fill(o, v, true, true, shared)
    ensures Fill(Fill(o, v, false, true, shared), v, true, false, shared) == Fill(o, v, true, true, shared)
  {
  }

  /** Filling the active scopes activates no other one. */
  lemma FillKeepsScopes(o: Options, v: Reported, shared: bool)
    ensures var f := Fill(o, v, ChargeActive(o), ClimateActive(o), shared);
            ChargeActive(f) == ChargeActive(o) && ClimateActive(f) == ClimateActive(o)
  {
  }

  /** The options with one scope's fields left alone, the other's cleared. */
  function OnlyCharge(o: Options): Options {
    o.(first := None, second := None, climate := None, temperature := None, defrost := None)
  }

  function OnlyClimate(o: Options): Options {
    o.(charging := None, offPeakStart := None, offPeakEnd := None, offPeakOnly := None)
  }

  lemma InactiveIff(o: Options)
    ensures !ChargeActive(o) <==> OnlyClimate(o) == o
    ensures !ClimateActive(o) <==> OnlyCharge(o) == o
    ensures !ChargeActive(o) && !ClimateActive(o) <==> o == NO_OPTIONS
  {
  }

  /** Options made from a vehicle that reports everything are that vehicle's settings. */
  lemma FromVehicleIsTheVehicle(v: Reported)
    requires CompleteDeparture(Some(v.first)) && CompleteDeparture(Some(v.second))
    requires v.charging.Some? && v.offPeakStart.Some? && v.offPeakEnd.Some? && v.offPeakOnly.Some?
    ensures Fill(NO_OPTIONS, v, true, true, false)
         == Options(Some(v.first), Some(v.second), v.charging, v.offPeakStart, v.offPeakEnd, v.offPeakOnly,
                    v.first.climate, v.first.temperature, v.first.defrost)
  {
  }

  /** When neither caller nor vehicle knows anything: everything is off, at midnight, on no
      day, at 21 degrees. */
  lemma NothingKnown()
    ensures var unknown := Departure(None, None, None, None, None, None);
            var off := Departure(Some(false), Some([9]), Some(Time(0, 0, 0, 0)), Some(false), Some(21.0), Some(false));
            Fill(NO_OPTIONS, Reported(unknown, unknown, None, None, None, None), true, true, false)
            == Options(Some(off), Some(off), Some(false), Some(Time(0, 0, 0, 0)), Some(Time(0, 0, 0, 0)), Some(false),
                       Some(false), Some(21.0), Some(false))
  {
  }

  /** A departure with the top-level fields written out where it has none of its own. */
  function SpelledOut(d: Option<Departure>, top: Fallback): Option<Departure> {
    var e := Given(d);
    Some(e.(climate := Or(e.climate, top.climate), temperature := Or(e.temperature, top.temperature),
            defrost := Or(e.defrost, top.defrost)))
  }

  /** The top-level climate fields are shorthand for both departures: they yield to a
      departure's own values and go before the vehicle's. */
  lemma TopLevelIsShorthand(o: Options, v: Reported, charge: bool, shared: bool)
    requires Aliasing(o, shared)
    ensures var spelled := o.(first := SpelledOut(o.first, TopLevel(o)), second := SpelledOut(o.second, TopLevel(o)));
            Fill(o, v, charge, true, shared) == Fill(spelled, v, charge, true, shared)
    ensures var d, e := SpelledOut(o.first, TopLevel(o)).value, SpelledOut(o.second, TopLevel(o)).value;
            var f := Fill(o, v, charge, true, shared);
            DepartureSurvives(d, f.first.value) && DepartureSurvives(e, f.second.value)
  {
  }

  // ----- the default values, and who is told about them

  /** Defaults that differ from the documented ones in every field. */
  const OTHER_DEFAULTS := Defaults(true, [0], Time(1, 0, 0, 0), 20.0)

  lemma DefaultsUnusedDeparture(m: seq<Label>, d: Departure, v: Departure, top: Fallback, n: nat)
    ensures |MissingDeparture(m, d, v, top, n)| >= |m|
    ensures MissingDeparture(m, d, v, top, n) == m
       ==> forall df: Defaults :: FillDeparture(d, v, top, df) == FillDeparture(d, v, top, DEFAULTS)
    ensures FillDeparture(d, v, top, OTHER_DEFAULTS) == FillDeparture(d, v, top, DEFAULTS)
       ==> MissingDeparture(m, d, v, top, n) == m
  {
  }

  lemma DefaultsUnusedCharge(o: Options, v: Reported)
    ensures MissingCharge([], o, v) == [] ==> forall df: Defaults :: FillCharge(o, v, df) == FillCharge(o, v, DEFAULTS)
    ensures FillCharge(o, v, OTHER_DEFAULTS) == FillCharge(o, v, DEFAULTS) ==> MissingCharge([], o, v) == []
  {
  }

  /** The warning is empty exactly when no default reached the result. */
  lemma NothingMissingIff(o: Options, v: Reported, charge: bool, climate: bool, shared: bool)
    ensures Missing(o, v, charge, climate, shared) == []
       <==> forall df: Defaults :: FillWith(o, v, charge, climate, shared, df) == Fill(o, v, charge, climate, shared)
  {
    var m := if charge then MissingCharge([], o, v) else [];
    var m1 := MissingDeparture(m, Given(o.first), v.first, TopLevel(o), 1);
    DefaultsUnusedCharge(o, v);
    DefaultsUnusedDeparture(m, Given(o.first), v.first, TopLevel(o), 1);
    DefaultsUnusedDeparture(m1, Given(o.second), v.second, TopLevel(o), 2);
    hide FillDeparture, MissingDeparture, MissingCharge;
    if Missing(o, v, charge, climate, shared) != [] {
      assert FillWith(o, v, charge, climate, shared, OTHER_DEFAULTS) != Fill(o, v, charge, climate, shared);
    }
  }

  // ----- field by field

  /** The value of a field, whatever its type. */
  datatype Value = Flag(on: bool) | DayList(days: seq<int>) | At(time: TimeOfDay) | Degrees(number: real)

  function FlagOf(x: Option<bool>): Option<Value> {
    if x.Some? then Some(Flag(x.value)) else None
  }

  function DaysOf(x: Option<seq<int>>): Option<Value> {
    if x.Some? then Some(DayList(x.value)) else None
  }

  function TimeOf(x: Option<TimeOfDay>): Option<Value> {
    if x.Some? then Some(At(x.value)) else None
  }

  function DegreesOf(x: Option<real>): Option<Value> {
    if x.Some? then Some(Degrees(x.value)) else None
  }

  function FieldOf(d: Departure, field: Field): Option<Value> {
    match field
    case Enabled => FlagOf(d.enabled)
    case Days => DaysOf(d.days)
    case DepartureTime => TimeOf(d.time)
    case ClimateEnabled => FlagOf(d.climate)
    case Temperature => DegreesOf(d.temperature)
    case Defrost => FlagOf(d.defrost)
  }

  /** What the options say under a label. */
  function OptionAt(o: Options, name: Label): Option<Value> {
    match name
    case Charging => FlagOf(o.charging)
    case OffPeakStart => TimeOf(o.offPeakStart)
    case OffPeakEnd => TimeOf(o.offPeakEnd)
    case OffPeakOnly => FlagOf(o.offPeakOnly)
    case OfDeparture(n, field) => FieldOf(Given(if n == 1 then o.first else o.second), field)
  }

  function TopField(top: Fallback, field: Field): Option<Value> {
    match field
    case ClimateEnabled => FlagOf(top.climate)
    case Temperature => DegreesOf(top.temperature)
    case Defrost => FlagOf(top.defrost)
    case _ => None
  }

  /** What the top level of the options says for a departure's field. */
  function TopAt(o: Options, name: Label): Option<Value> {
    if name.OfDeparture? then TopField(TopLevel(o), name.field) else None
  }

  function VehicleAt(v: Reported, name: Label): Option<Value> {
    match name
    case Charging => FlagOf(v.charging)
    case OffPeakStart => TimeOf(v.offPeakStart)
    case OffPeakEnd => TimeOf(v.offPeakEnd)
    case OffPeakOnly => FlagOf(v.offPeakOnly)
    case OfDeparture(n, field) => FieldOf(if n == 1 then v.first else v.second, field)
  }

  function DefaultAt(name: Label): Value {
    match name
    case OffPeakStart => At(Time(0, 0, 0, 0))
    case OffPeakEnd => At(Time(0, 0, 0, 0))
    case OfDeparture(_, Days) => DayList([9])
    case OfDeparture(_, DepartureTime) => At(Time(0, 0, 0, 0))
    case OfDeparture(_, Temperature) => Degrees(21.0)
    case _ => Flag(false)
  }

  /** The order of precedence; an empty day list means no day selected, whoever gave it. */
  function Resolve(own: Option<Value>, top: Option<Value>, vehicle: Option<Value>, default: Value): Value {
    var found := Or(own, Or(top, vehicle));
    if found.None? then default else if found == Some(DayList([])) then DayList([9]) else found.value
  }

  predicate Requested(name: Label, charge: bool, climate: bool) {
    match name
    case OfDeparture(n, _) => climate && 1 <= n <= 2
    case _ => charge
  }

  /** The same order for one departure and its fallback. */
  lemma FilledField(d: Departure, v: Departure, top: Fallback, n: nat, field: Field)
    ensures FieldOf(FillDeparture(d, v, top, DEFAULTS), field)
         == Some(Resolve(FieldOf(d, field), TopField(top, field), FieldOf(v, field), DefaultAt(OfDeparture(n, field))))
  {
  }

  /** The label whose departure object, and so whose vehicle state, decides a field: one
      object in both slots is the first departure's. */
  function Owner(name: Label, shared: bool): Label {
    if shared && name.OfDeparture? then name.(number := 1) else name
  }

  /** Every field of a requested scope has the departure's explicit value, else the top
      level's, else the vehicle's, else the default; every other field stays. */
  lemma FieldsFollowTheOrder(o: Options, v: Reported, charge: bool, climate: bool, shared: bool, name: Label)
    requires Aliasing(o, shared) && (name.OfDeparture? ==> 1 <= name.number <= 2)
    ensures var own := Owner(name, shared);
            OptionAt(Fill(o, v, charge, climate, shared), name)
            == if Requested(name, charge, climate)
            then Some(Resolve(OptionAt(o, own), TopAt(o, own), VehicleAt(v, own), DefaultAt(own)))
            else OptionAt(o, name)
  {
    if name.OfDeparture? {
      var own := Owner(name, shared);
      var first := own.number == 1;
      FilledField(Given(if first then o.first else o.second), if first then v.first else v.second, TopLevel(o),
                  own.number, own.field);
      hide FieldOf, FillDeparture, DefaultAt, TopField, Resolve;
    }
  }

  /** Neither the caller, on either level, nor the vehicle knows the field. */
  predicate Unknown(o: Options, v: Reported, name: Label) {
    OptionAt(o, name).None? && TopAt(o, name).None? && VehicleAt(v, name).None?
  }

  function ChargeLabels(): seq<Label> {
    [Charging, OffPeakStart, OffPeakEnd, OffPeakOnly]
  }

  function DepartureLabels(n: nat): seq<Label> {
    [OfDeparture(n, Enabled), OfDeparture(n, Days), OfDeparture(n, DepartureTime),
     OfDeparture(n, ClimateEnabled), OfDeparture(n, Temperature), OfDeparture(n, Defrost)]
  }

  /** The labels of the requested scopes, in the order in which they are filled. */
  function Labels(charge: bool, climate: bool, shared: bool): seq<Label> {
    (if charge then ChargeLabels() else [])
    + (if !climate then [] else if shared then DepartureLabels(1) else DepartureLabels(1) + DepartureLabels(2))
  }

  /** The labels of unknown fields among `names`. */
  function UnknownOf(names: seq<Label>, o: Options, v: Reported): seq<Label> {
    if names == [] then []
    else
      var n := |names| - 1;
      UnknownOf(names[..n], o, v) + if Unknown(o, v, names[n]) then [names[n]] else []
  }

  lemma NoteUnknown<T>(names: seq<Label>, o: Options, v: Reported, current: Option<T>, source: Option<T>, name: Label)
    requires Unknown(o, v, name) <==> current.None? && source.None?
    ensures Note(UnknownOf(names, o, v), current, source, name) == UnknownOf(names + [name], o, v)
  {
    assert (names + [name])[..|names|] == names;
  }

  lemma DepartureUnknown(names: seq<Label>, o: Options, v: Reported, n: nat)
    requires 1 <= n <= 2
    ensures MissingDeparture(UnknownOf(names, o, v), Given(if n == 1 then o.first else o.second),
                             if n == 1 then v.first else v.second, TopLevel(o), n)
         == UnknownOf(names + DepartureLabels(n), o, v)
  {
    hide Note, UnknownOf;
    var d, w := Given(if n == 1 then o.first else o.second), if n == 1 then v.first else v.second;
    var l := DepartureLabels(n);
    NoteUnknown(names, o, v, d.enabled, w.enabled, l[0]);
    NoteUnknown(names + [l[0]], o, v, d.days, w.days, l[1]);
    NoteUnknown(names + [l[0]] + [l[1]], o, v, d.time, w.time, l[2]);
    NoteUnknown(names + [l[0]] + [l[1]] + [l[2]], o, v, Or(d.climate, o.climate), w.climate, l[3]);
    NoteUnknown(names + [l[0]] + [l[1]] + [l[2]] + [l[3]], o, v, Or(d.temperature, o.temperature), w.temperature, l[4]);
    NoteUnknown(names + [l[0]] + [l[1]] + [l[2]] + [l[3]] + [l[4]], o, v, Or(d.defrost, o.defrost), w.defrost, l[5]);
    hide Unknown;
    assert names + l == names + [l[0]] + [l[1]] + [l[2]] + [l[3]] + [l[4]] + [l[5]];
  }

  lemma UnknownCharge(o: Options, v: Reported)
    ensures Unknown(o, v, Charging) <==> o.charging.None? && v.charging.None?
    ensures Unknown(o, v, OffPeakStart) <==> o.offPeakStart.None? && v.offPeakStart.None?
    ensures Unknown(o, v, OffPeakEnd) <==> o.offPeakEnd.None? && v.offPeakEnd.None?
    ensures Unknown(o, v, OffPeakOnly) <==> o.offPeakOnly.None? && v.offPeakOnly.None?
  {
  }

  lemma NoLabels(o: Options, v: Reported)
    ensures UnknownOf([], o, v) == []
  {
  }

  lemma ChargeUnknown(o: Options, v: Reported)
    ensures MissingCharge([], o, v) == UnknownOf(ChargeLabels(), o, v)
  {
    hide Note, UnknownOf, Unknown;
    NoLabels(o, v);
    UnknownCharge(o, v);
    var l := ChargeLabels();
    NoteUnknown([], o, v, o.charging, v.charging, l[0]);
    NoteUnknown([] + [l[0]], o, v, o.offPeakStart, v.offPeakStart, l[1]);
    NoteUnknown([] + [l[0]] + [l[1]], o, v, o.offPeakEnd, v.offPeakEnd, l[2]);
    NoteUnknown([] + [l[0]] + [l[1]] + [l[2]], o, v, o.offPeakOnly, v.offPeakOnly, l[3]);
    assert l == [] + [l[0]] + [l[1]] + [l[2]] + [l[3]];
  }

  /** The warning lists the unknown fields of the requested scopes, in filling order; a
      shared object's only once. */
  lemma MissingIsUnknown(o: Options, v: Reported, charge: bool, climate: bool, shared: bool)
    ensures Missing(o, v, charge, climate, shared) == UnknownOf(Labels(charge, climate, shared), o, v)
  {
    hide MissingDeparture, MissingCharge, UnknownOf, DepartureLabels, Unknown;
    NoLabels(o, v);
    ChargeUnknown(o, v);
    var names := if charge then ChargeLabels() else [];
    DepartureUnknown(names, o, v, 1);
    DepartureUnknown(names + DepartureLabels(1), o, v, 2);
    assert Labels(charge, climate, shared)
        == if !climate then names
           else if shared then names + DepartureLabels(1) else names + DepartureLabels(1) + DepartureLabels(2);
  }

  /** How often a label is listed. */
  function Times(name: Label, names: seq<Label>): nat {
    if names == [] then 0 else Times(name, names[..|names| - 1]) + if names[|names| - 1] == name then 1 else 0
  }

  lemma {:induction false} TimesSum(name: Label, a: seq<Label>, b: seq<Label>)
    ensures Times(name, a + b) == Times(name, a) + Times(name, b)
  {
    if b == [] {
      assert a + b == a;
    } else {
      var n := |b| - 1;
      assert (a + b)[..|a + b| - 1] == a + b[..n];
      TimesSum(name, a, b[..n]);
    }
  }

  lemma {:induction false} ListedIff(name: Label, names: seq<Label>)
    ensures name in names <==> Times(name, names) > 0
  {
    if names != [] {
      var n := |names| - 1;
      assert names == names[..n] + [names[n]];
      ListedIff(name, names[..n]);
    }
  }

  lemma {:induction false} UnknownCount(names: seq<Label>, o: Options, v: Reported, name: Label)
    ensures Times(name, UnknownOf(names, o, v)) == if Unknown(o, v, name) then Times(name, names) else 0
  {
    hide Unknown;
    if names != [] {
      var n := |names| - 1;
      UnknownCount(names[..n], o, v, name);
      TimesSum(name, UnknownOf(names[..n], o, v), if Unknown(o, v, names[n]) then [names[n]] else []);
    }
  }

  lemma {:induction false} CountedOnce(name: Label, names: seq<Label>)
    requires forall i, j | 0 <= i < j < |names| :: names[i] != names[j]
    ensures Times(name, names) == if name in names then 1 else 0
  {
    if names != [] {
      var n := |names| - 1;
      CountedOnce(name, names[..n]);
      assert names == names[..n] + [names[n]];
    }
  }

  /** The filled fields that have a label of their own. */
  predicate Listed(name: Label, charge: bool, climate: bool, shared: bool) {
    Requested(name, charge, climate) && Owner(name, shared) == name
  }

  lemma ChargeLabel(name: Label)
    ensures Times(name, ChargeLabels()) == if name.OfDeparture? then 0 else 1
  {
    CountedOnce(name, ChargeLabels());
    var s := ChargeLabels();
    assert s[0] == Charging && s[1] == OffPeakStart && s[2] == OffPeakEnd && s[3] == OffPeakOnly;
    hide Times;
  }

  function Place(field: Field): nat {
    match field
    case Enabled => 0
    case Days => 1
    case DepartureTime => 2
    case ClimateEnabled => 3
    case Temperature => 4
    case Defrost => 5
  }

  lemma DepartureLabel(n: nat, name: Label)
    ensures Times(name, DepartureLabels(n)) == if name.OfDeparture? && name.number == n then 1 else 0
  {
    CountedOnce(name, DepartureLabels(n));
    var k := if name.OfDeparture? then Place(name.field) else 0;
    assert name.OfDeparture? && name.number == n ==> DepartureLabels(n)[k] == name;
    hide Times;
  }

  lemma LabelCount(charge: bool, climate: bool, shared: bool, name: Label)
    ensures Times(name, Labels(charge, climate, shared)) == if Listed(name, charge, climate, shared) then 1 else 0
  {
    ChargeLabel(name);
    DepartureLabel(1, name);
    DepartureLabel(2, name);
    hide ChargeLabels, DepartureLabels;
    TimesSum(name, DepartureLabels(1), DepartureLabels(2));
    TimesSum(name, if charge then ChargeLabels() else [],
             if !climate then [] else if shared then DepartureLabels(1) else DepartureLabels(1) + DepartureLabels(2));
  }

  /** A label is listed, and then once, exactly when its scope is requested and nobody
      knows the field. */
  lemma MissingIff(o: Options, v: Reported, charge: bool, climate: bool, shared: bool, name: Label)
    ensures Times(name, Missing(o, v, charge, climate, shared))
         == if Listed(name, charge, climate, shared) && Unknown(o, v, name) then 1 else 0
    ensures name in Missing(o, v, charge, climate, shared)
       <==> Listed(name, charge, climate, shared) && Unknown(o, v, name)
  {
    hide Missing, UnknownOf, Labels, Unknown, Listed, Times;
    MissingIsUnknown(o, v, charge, climate, shared);
    UnknownCount(Labels(charge, climate, shared), o, v, name);
    LabelCount(charge, climate, shared, name);
    ListedIff(name, Missing(o, v, charge, climate, shared));
  }

  // ----- the temperature guard

  /** The condition of `_guard_schedule_temperature`; it raises a ValueError otherwise. */
  predicate HasTemperature(o: Options, v: Reported) {
    || o.temperature.Some?
    || (o.first.Some? && o.first.value.temperature.Some?)
    || (o.second.Some? && o.second.value.temperature.Some?)
    || v.first.temperature.Some?
    || v.second.temperature.Some?
  }

  /** The guard refuses exactly when every departure would get the default temperature and,
      for an object in both slots, the vehicle knows no second temperature either. */
  lemma GuardRefusesIff(o: Options, v: Reported, shared: bool)
    requires Aliasing(o, shared)
    ensures !HasTemperature(o, v) <==>
            && OfDeparture(1, Temperature) in Missing(o, v, false, true, shared)
            && if shared then v.second.temperature.None?
               else OfDeparture(2, Temperature) in Missing(o, v, false, true, shared)
  {
    hide Missing;
    MissingIff(o, v, false, true, shared, OfDeparture(1, Temperature));
    MissingIff(o, v, false, true, shared, OfDeparture(2, Temperature));
  }

  /** Its docstring promises that no unknown temperature is reset to the default. It lets
      one departure's through when only the other one's is known. */
  lemma GuardLetsOneDefaultThrough()
    ensures var v := Reported(NO_DEPARTURE.(temperature := Some(22.0)), NO_DEPARTURE, None, None, None, None);
            && HasTemperature(NO_OPTIONS, v)
            && Fill(NO_OPTIONS, v, false, true, false).second.value.temperature == Some(21.0)
            && OfDeparture(2, Temperature) in Missing(NO_OPTIONS, v, false, true, false)
  {
  }

  /** No temperature is defaulted exactly when the caller gives a top-level one or each
      departure object has its own, from the caller or the vehicle. */
  lemma NoTemperatureDefaultedIff(o: Options, v: Reported, shared: bool)
    requires Aliasing(o, shared)
    ensures (forall n :: OfDeparture(n, Temperature) !in Missing(o, v, false, true, shared)) <==>
            || o.temperature.Some?
            || ((Given(o.first).temperature.Some? || v.first.temperature.Some?)
                && (shared || Given(o.second).temperature.Some? || v.second.temperature.Some?))
  {
    hide Missing;
    var missing := Missing(o, v, false, true, shared);
    MissingIff(o, v, false, true, shared, OfDeparture(1, Temperature));
    MissingIff(o, v, false, true, shared, OfDeparture(2, Temperature));
    forall n: nat | !(1 <= n <= 2)
      ensures OfDeparture(n, Temperature) !in missing
    {
      MissingIff(o, v, false, true, shared, OfDeparture(n, Temperature));
    }
    assert forall n: nat | OfDeparture(n, Temperature) in missing :: n == 1 || n == 2;
  }

  // ----- one object passed as both departures

  /** What a departure's field gets when the caller says nothing about it. */
  function FromState(v: Departure, field: Field): Value {
    Resolve(None, None, FieldOf(v, field), DefaultAt(OfDeparture(1, field)))
  }

  /** Two departures with the same fields are the same. */
  lemma FieldsDecide(d: Departure, e: Departure)
    requires forall field :: FieldOf(d, field) == FieldOf(e, field)
    ensures d == e
  {
    assert FieldOf(d, Enabled) == FieldOf(e, Enabled) && FieldOf(d, Days) == FieldOf(e, Days);
    assert FieldOf(d, DepartureTime) == FieldOf(e, DepartureTime) && FieldOf(d, Defrost) == FieldOf(e, Defrost);
    assert FieldOf(d, ClimateEnabled) == FieldOf(e, ClimateEnabled);
    assert FieldOf(d, Temperature) == FieldOf(e, Temperature);
  }

  /** Passing one object as both departures is harmless exactly when each field is given, in
      the object or on the top level, or the two vehicle states resolve alike. */
  lemma SharedFillIff(o: Options, v: Reported, charge: bool)
    requires Aliasing(o, true)
    ensures Fill(o, v, charge, true, true) == Fill(o, v, charge, true, false)
       <==> forall field :: || FieldOf(o.first.value, field).Some?
                            || TopField(TopLevel(o), field).Some?
                            || FromState(v.first, field) == FromState(v.second, field)
  {
    var d, top := o.first.value, TopLevel(o);
    var first, second := FillDeparture(d, v.first, top, DEFAULTS), FillDeparture(d, v.second, top, DEFAULTS);
    forall field
      ensures FieldOf(first, field) == FieldOf(second, field)
         <==> || FieldOf(d, field).Some?
              || TopField(top, field).Some?
              || FromState(v.first, field) == FromState(v.second, field)
    {
      FilledField(d, v.first, top, 1, field);
      FilledField(d, v.second, top, 1, field);
    }
    hide FillDeparture, FromState, FieldOf, TopField;
    if forall field :: FieldOf(first, field) == FieldOf(second, field) {
      FieldsDecide(first, second);
    }
  }

  /** An otherwise empty object in both slots gives the second departure the first one's days. */
  lemma SharedFillDiffers()
    ensures var monday, saturday := NO_DEPARTURE.(days := Some([1])), NO_DEPARTURE.(days := Some([6]));
            var v := Reported(monday, saturday, None, None, None, None);
            var o := NO_OPTIONS.(first := Some(NO_DEPARTURE), second := Some(NO_DEPARTURE));
            && Fill(o, v, false, true, true).second.value.days == Some([1])
            && Fill(o, v, false, true, false).second.value.days == Some([6])
  {
  }
}
