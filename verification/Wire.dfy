/** The schedule on the wire: twelve-hour times, the three request payloads, and the EU
    decoder that reads the schedule back into a vehicle. */
module Wire {
  import opened Prelude
  import opened Schedule
  import opened Vehicles
  import HexTemp
  import Numerals

  // ----- times

  /** `{"time": "%I%M", "timeSection": 0 | 1}` */
  datatype WireTime = WireTime(time: string, section: int)

  function TwoDigits(n: nat): (s: string)
    requires n < 100
    ensures |s| == 2
  {
    [Numerals.DigitChar(n / 10), Numerals.DigitChar(n % 10)]
  }

  function PrintTime(t: TimeOfDay): WireTime {
    WireTime(TwoDigits(if t.hour % 12 == 0 then 12 else t.hour % 12) + TwoDigits(t.minute),
             if t.hour >= 12 then 1 else 0)
  }

  predicate Between(c: char, low: char, high: char) {
    low <= c <= high
  }

  /** Length of the minute that strptime's `%M` matches at the front; 0 for no match. */
  function MinuteLength(s: string): (n: nat)
    ensures n <= 2 && n <= |s|
  {
    if |s| >= 2 && Between(s[0], '0', '5') && Between(s[1], '0', '9') then 2
    else if |s| >= 1 && Between(s[0], '0', '9') then 1
    else 0
  }

  function Small(s: string): nat
    requires 1 <= |s| <= 2
  {
    if |s| == 1 then Numerals.DigitValue(s[0]) else 10 * Numerals.DigitValue(s[0]) + Numerals.DigitValue(s[1])
  }

  /** strptime takes the first hour length that leaves a minute to match, and then wants
      the whole string used up. */
  function HourAndMinute(s: string, two: bool, one: bool): (r: Option<(nat, nat)>)
    requires (two ==> |s| >= 2) && (one ==> |s| >= 1)
  {
    var h := if two && MinuteLength(s[2..]) > 0 then 2 else if one && MinuteLength(s[1..]) > 0 then 1 else 0;
    if h == 0 || h + MinuteLength(s[h..]) != |s| then None
    else Some((Small(s[..h]), Small(s[h..])))
  }

  /** `strptime(s, "%I%M")` without an AM/PM mark: twelve o'clock is hour 0. */
  function Strptime12(s: string): (r: Option<TimeOfDay>)
    ensures r.Some? ==> r.value.hour < 12 && r.value.second == 0 && r.value.micro == 0
  {
    var two := |s| >= 2 && ((s[0] == '1' && Between(s[1], '0', '2')) || (s[0] == '0' && Between(s[1], '1', '9')));
    match HourAndMinute(s, two, |s| >= 1 && Between(s[0], '1', '9'))
    case None => None
    case Some((h, m)) => Some(Time(if h == 12 then 0 else h, m, 0, 0))
  }

  function Strptime24(s: string): Option<TimeOfDay> {
    var two := && |s| >= 2
               && ((s[0] == '2' && Between(s[1], '0', '3')) || (Between(s[0], '0', '1') && Between(s[1], '0', '9')));
    match HourAndMinute(s, two, |s| >= 1 && Between(s[0], '0', '9'))
    case None => None
    case Some((h, m)) => Some(Time(h, m, 0, 0))
  }

  /** `_get_time_from_string` on strings of plain digits; every other string is unparseable. */
  function ParseTime(value: Option<string>, section: Option<int>): Option<TimeOfDay> {
    if value.None? then None
    else
      var s := value.value;
      match Numerals.Parse(s, 10)
      case None => None
      case Some(n) =>
        if n == 0 then None
        else
          var lastTwo := Small(if |s| >= 2 then s[|s| - 2..] else s);
          var m := if lastTwo > 60 then n + 40 else n;
          var text := if lastTwo > 60 then Numerals.Print(m, 10) else s;
          if m > 1260 then Strptime24(text)
          else
            match Strptime12(text)
            case None => None
            case Some(t) =>
              if section.Some? && section.value > 0 then Some(t.(hour := t.hour + 12)) else Some(t)
  }

  predicate WholeMinute(t: TimeOfDay) {
    t.second == 0 && t.micro == 0
  }

  lemma TwoDigitsValue(n: nat)
    requires n < 100
    ensures Small(TwoDigits(n)) == n
    ensures Numerals.DigitValue(TwoDigits(n)[0]) == n / 10 && Numerals.DigitValue(TwoDigits(n)[1]) == n % 10
    ensures Between(TwoDigits(n)[1], '0', '9') && Between(TwoDigits(n)[0], '0', '9')
    ensures n < 60 ==> Between(TwoDigits(n)[0], '0', '5')
    ensures 1 <= n <= 9 ==> TwoDigits(n)[0] == '0' && Between(TwoDigits(n)[1], '1', '9')
    ensures 10 <= n <= 12 ==> TwoDigits(n)[0] == '1' && Between(TwoDigits(n)[1], '0', '2')
  {
    Numerals.DigitCharValue(n / 10);
    Numerals.DigitCharValue(n % 10);
  }

  lemma FourDigitsValue(h: nat, m: nat)
    requires h < 100 && m < 100
    ensures Numerals.Parse(TwoDigits(h) + TwoDigits(m), 10) == Some(100 * h + m)
  {
    TwoDigitsValue(h);
    TwoDigitsValue(m);
    var d := [h / 10, h % 10, m / 10, m % 10];
    assert Numerals.DigitValues(TwoDigits(h) + TwoDigits(m)) == d;
    assert d[..3] == [h / 10, h % 10, m / 10] && d[..3][..2] == [h / 10, h % 10] && d[..3][..2][..1] == [h / 10];
    Numerals.ValueOfOne(h / 10, 10);
    assert Numerals.Value(d[..3][..2], 10) == h;
    assert Numerals.Value(d[..3], 10) == 10 * h + m / 10;
  }

  lemma Strptime12Reads(h: nat, m: nat)
    requires 1 <= h <= 12 && m < 60
    ensures Strptime12(TwoDigits(h) + TwoDigits(m)) == Some(Time(if h == 12 then 0 else h, m, 0, 0))
  {
    TwoDigitsValue(h);
    TwoDigitsValue(m);
    var s := TwoDigits(h) + TwoDigits(m);
    assert s[..2] == TwoDigits(h) && s[2..] == TwoDigits(m);
    hide TwoDigits;
  }

  /** Reading back a printed time drops its seconds and nothing else, at midnight, at noon
      and everywhere between. */
  lemma ParsePrintTime(t: TimeOfDay)
    ensures ParseTime(Some(PrintTime(t).time), Some(PrintTime(t).section)) == Some(Time(t.hour, t.minute, 0, 0))
  {
    hide Strptime24, Strptime12, Numerals.Parse, Numerals.Print;
    var h := if t.hour % 12 == 0 then 12 else t.hour % 12;
    FourDigitsValue(h, t.minute);
    Strptime12Reads(h, t.minute);
    TwoDigitsValue(t.minute);
    var s := TwoDigits(h) + TwoDigits(t.minute);
    assert s[|s| - 2..] == TwoDigits(t.minute);
    hide TwoDigits, Small;
  }

  lemma TwelveHour(hour: nat)
    requires hour < 24
    ensures var h := if hour == 0 then 12 else if hour <= 12 then hour else hour - 12;
            h % 12 == hour % 12 && h == if hour % 12 == 0 then 12 else hour % 12
  {
  }

  /** The printed time: four digits, the hour on a twelve-hour clock from 01 to 12 and then
      the minute; section 1 from noon on. */
  lemma PrintTimeMeans(t: TimeOfDay)
    ensures var h := if t.hour == 0 then 12 else if t.hour <= 12 then t.hour else t.hour - 12;
            && 1 <= h <= 12 && h % 12 == t.hour % 12
            && |PrintTime(t).time| == 4
            && Numerals.Parse(PrintTime(t).time, 10) == Some(100 * h + t.minute)
            && PrintTime(t).section == if t.hour < 12 then 0 else 1
  {
    hide TwoDigits, Numerals.Parse;
    TwelveHour(t.hour);
    FourDigitsValue(if t.hour % 12 == 0 then 12 else t.hour % 12, t.minute);
  }

  lemma TensDigit(h: nat)
    requires h < 100
    ensures Between(TwoDigits(h)[0], '0', '1') <==> h < 20
    ensures TwoDigits(h)[0] == '2' && Between(TwoDigits(h)[1], '0', '3') <==> 20 <= h < 24
    ensures TwoDigits(h)[0] == '0' <==> h < 10
  {
  }

  lemma Strptime24Reads(h: nat, m: nat)
    requires h < 100 && m < 60
    ensures Strptime24(TwoDigits(h) + TwoDigits(m)) == if h < 24 then Some(Time(h, m, 0, 0)) else None
  {
    TwoDigitsValue(h);
    TwoDigitsValue(m);
    var s := TwoDigits(h) + TwoDigits(m);
    assert s[..2] == TwoDigits(h) && s[2..] == TwoDigits(m);
    assert s[1..][0] == s[1] && s[1..][1] == s[2];
    hide TwoDigits, Small;
    assert h < 20 || (20 <= h < 24) || 24 <= h;
    TensDigit(h);
  }

  lemma Strptime12Zero(m: nat)
    requires m < 60
    ensures Strptime12(TwoDigits(0) + TwoDigits(m)) == None
  {
    var s := TwoDigits(0) + TwoDigits(m);
    assert s[0] == '0' && s[1] == '0';
    hide TwoDigits;
  }

  /** A reported clock time of four digits: nothing for hour 0; on the twelve-hour clock the
      section says whether it is after noon; from 13 to 23 the hour counts by itself. */
  lemma ParseClock(h: nat, m: nat, section: Option<int>)
    requires h < 100 && m < 60
    ensures ParseTime(Some(TwoDigits(h) + TwoDigits(m)), section)
         == if h == 0 || h >= 24 then None
            else if h <= 12 then
              Some(Time((if h == 12 then 0 else h) + (if section.Some? && section.value > 0 then 12 else 0), m, 0, 0))
            else Some(Time(h, m, 0, 0))
  {
    hide Strptime24, Strptime12, Numerals.Parse, Numerals.Print;
    FourDigitsValue(h, m);
    Strptime24Reads(h, m);
    if h == 0 {
      Strptime12Zero(m);
    } else if h <= 12 {
      Strptime12Reads(h, m);
    }
    TwoDigitsValue(m);
    var s := TwoDigits(h) + TwoDigits(m);
    assert s[|s| - 2..] == TwoDigits(m);
    hide TwoDigits, Small;
  }

  lemma FourDigits(h: nat, m: nat)
    requires h < 100 && m < 100
    ensures Numerals.Value([h / 10, h % 10, m / 10, m % 10], 10) == 100 * h + m
  {
    var d := [h / 10, h % 10, m / 10, m % 10];
    hide Numerals.Value;
    Numerals.ValueOfOne(h / 10, 10);
    Numerals.ValueAppend([h / 10], h % 10, 10);
    Numerals.ValueAppend([h / 10, h % 10], m / 10, 10);
    Numerals.ValueAppend([h / 10, h % 10, m / 10], m % 10, 10);
    assert [h / 10] + [h % 10] == [h / 10, h % 10];
    assert [h / 10, h % 10] + [m / 10] == [h / 10, h % 10, m / 10];
    assert [h / 10, h % 10, m / 10] + [m % 10] == d;
  }

  lemma PrintFour(h: nat, m: nat)
    requires 10 <= h < 100 && m < 100
    ensures Numerals.Print(100 * h + m, 10) == TwoDigits(h) + TwoDigits(m)
  {
    var d := [h / 10, h % 10, m / 10, m % 10];
    hide Numerals.Digits, Numerals.Value;
    FourDigits(h, m);
    Numerals.DigitsOfValue(d, 10);
    assert Numerals.Digits(100 * h + m, 10) == d;
    hide Small, Numerals.DigitChar;
  }

  /** Minutes past sixty are carried into the hour. */
  lemma ParseCarry(h: nat, m: nat, section: Option<int>)
    requires 9 <= h < 99 && 60 < m < 100
    ensures ParseTime(Some(TwoDigits(h) + TwoDigits(m)), section)
         == ParseTime(Some(TwoDigits(h + 1) + TwoDigits(m - 60)), section)
  {
    FourDigitsValue(h, m);
    FourDigitsValue(h + 1, m - 60);
    TwoDigitsValue(m);
    TwoDigitsValue(m - 60);
    PrintFour(h + 1, m - 60);
    hide Strptime24, Strptime12, Numerals.Parse, Numerals.Print, TwoDigits, Small;
    var s, u := TwoDigits(h) + TwoDigits(m), TwoDigits(h + 1) + TwoDigits(m - 60);
    assert s[|s| - 2..] == TwoDigits(m) && u[|u| - 2..] == TwoDigits(m - 60);
  }

  /** A missing time, an empty one and one of zeros are no time; nor is a word. */
  lemma ParseUnset(section: Option<int>)
    ensures ParseTime(None, section) == None && ParseTime(Some(""), section) == None
    ensures ParseTime(Some("0"), section) == None && ParseTime(Some("0000"), section) == None
    ensures ParseTime(Some("ABCD"), section) == None
  {
    ParseClock(0, 0, section);
    assert TwoDigits(0) == "00" && "00" + "00" == "0000";
    Numerals.ValueOfOne(0, 10);
    assert Numerals.DigitValues("0") == [0];
    assert Numerals.Parse("0", 10) == Some(0);
    assert "ABCD"[0] == 'A' && Numerals.DigitValue('A') == 10;
    hide Numerals.Value, Strptime12, Strptime24;
  }

  lemma TimeRoundTripIff(t: TimeOfDay)
    ensures ParseTime(Some(PrintTime(t).time), Some(PrintTime(t).section)) == Some(t) <==> WholeMinute(t)
  {
    ParsePrintTime(t);
    hide ParseTime, PrintTime;
  }

  // ----- temperatures

  /** The temperature that is printed: on the half-degree grid from 17 to 27 in Celsius. */
  function WireTemperature(temperature: real, unit: int): real {
    if unit != 0 then temperature
    else
      var t := Numerals.Round(temperature * 2.0) as real / 2.0;
      if t > 27.0 then 27.0 else if t < 17.0 then 17.0 else t
  }

  lemma WireTemperatureStable(temperature: real, unit: int)
    ensures WireTemperature(WireTemperature(temperature, unit), unit) == WireTemperature(temperature, unit)
    ensures unit == 0 ==> 17.0 <= WireTemperature(temperature, unit) <= 27.0
    ensures unit == 0 ==>
              var twice := WireTemperature(temperature, unit) * 2.0; twice == Numerals.Round(twice) as real
    ensures unit == 0 && 17.0 <= temperature <= 27.0 ==>
              -0.25 <= WireTemperature(temperature, unit) - temperature <= 0.25
    ensures unit == 0 && temperature < 17.0 ==> WireTemperature(temperature, unit) == 17.0
    ensures unit == 0 && temperature > 27.0 ==> WireTemperature(temperature, unit) == 27.0
    ensures unit != 0 ==> WireTemperature(temperature, unit) == temperature
  {
    assert 17.0 == 34 as real / 2.0 && 27.0 == 54 as real / 2.0;
    Numerals.RoundInt(Numerals.Round(temperature * 2.0));
    Numerals.RoundInt(54);
    Numerals.RoundInt(34);
  }

  function Tenths(t: real): nat {
    Numerals.Round((if t < 0.0 then -t else t) * 10.0)
  }

  /** `f"{t:.1f}"` */
  function PrintTenths(t: real): string {
    (if t < 0.0 then "-" else "") + Numerals.Print(Tenths(t) / 10, 10) + "." + [Numerals.DigitChar(Tenths(t) % 10)]
  }

  lemma PrintIsDigits(n: nat, base: nat)
    requires 2 <= base <= 16
    ensures |Numerals.Print(n, base)| >= 1
    ensures forall i | 0 <= i < |Numerals.Print(n, base)| :: Numerals.DigitValue(Numerals.Print(n, base)[i]) < base
    ensures '.' !in Numerals.Print(n, base) && '-' !in Numerals.Print(n, base) && 'H' !in Numerals.Print(n, base)
  {
    var s, ds := Numerals.Print(n, base), Numerals.Digits(n, base);
    forall i | 0 <= i < |s|
      ensures Numerals.DigitValue(s[i]) < base && s[i] != '.' && s[i] != '-' && s[i] != 'H'
    {
      Numerals.DigitCharValue(ds[i]);
    }
  }

  lemma PrintDigit(d: nat)
    requires d < 10
    ensures Numerals.DigitValue(Numerals.DigitChar(d)) == d
    ensures Numerals.DigitChar(d) != '.' && Numerals.DigitChar(d) != '-' && Numerals.DigitChar(d) != 'H'
  {
  }

  /** What a printed temperature names: its sign, and its tenths. */
  function ReadTenths(s: string): (bool, Option<nat>) {
    var negative := |s| > 0 && s[0] == '-';
    (negative, Numerals.Parse(HexTemp.Without(if negative then s[1..] else s, '.'), 10))
  }

  lemma OnlyDot()
    ensures HexTemp.Without(".", '.') == ""
  {
  }

  lemma PrintAt(n: nat, base: nat)
    requires 2 <= base <= 16
    ensures |Numerals.Print(n, base)| == |Numerals.Digits(n, base)|
    ensures forall i | 0 <= i < |Numerals.Digits(n, base)| ::
              Numerals.DigitValue(Numerals.Print(n, base)[i]) == Numerals.Digits(n, base)[i] < base
  {
    var ds := Numerals.Digits(n, base);
    forall i | 0 <= i < |ds|
      ensures Numerals.DigitValue(Numerals.Print(n, base)[i]) == ds[i]
    {
      Numerals.DigitCharValue(ds[i]);
    }
  }

  lemma ParseTwoParts(q: nat, r: nat)
    requires r < 10
    ensures Numerals.Parse(Numerals.Print(q, 10) + [Numerals.DigitChar(r)], 10) == Some(q * 10 + r)
  {
    hide Numerals.Digits, Numerals.DigitValue, Numerals.Value, Numerals.Parse, Numerals.ParseInt, Numerals.Print;
    PrintAt(q, 10);
    PrintDigit(r);
    var ds := Numerals.Digits(q, 10);
    Numerals.ParseDigits(Numerals.Print(q, 10) + [Numerals.DigitChar(r)], ds + [r], 10);
    Numerals.ValueAppend(ds, r, 10);
    Numerals.ValueOfDigits(q, 10);
  }

  lemma WithoutDot(q: nat, r: nat)
    requires r < 10
    ensures var a, d := Numerals.Print(q, 10), [Numerals.DigitChar(r)];
            HexTemp.Without(a + "." + d, '.') == a + d
  {
    var a, d := Numerals.Print(q, 10), [Numerals.DigitChar(r)];
    PrintIsDigits(q, 10);
    PrintDigit(r);
    OnlyDot();
    hide Numerals.Print, HexTemp.Without;
    HexTemp.WithoutConcat(a + ".", d, '.');
    HexTemp.WithoutConcat(a, ".", '.');
    HexTemp.WithoutAbsent(a, '.');
    HexTemp.WithoutAbsent(d, '.');
  }

  lemma ReadPrintTenths(t: real)
    ensures ReadTenths(PrintTenths(t)) == (t < 0.0, Some(Tenths(t)))
  {
    var n := Tenths(t);
    var q, r := n / 10, n % 10;
    var a, d := Numerals.Print(q, 10), Numerals.DigitChar(r);
    PrintIsDigits(q, 10);
    var body := a + "." + [d];
    assert PrintTenths(t) == if t < 0.0 then "-" + body else body;
    assert ("-" + body)[1..] == body;
    WithoutDot(q, r);
    ParseTwoParts(q, r);
    hide HexTemp.Without, Numerals.Parse, Numerals.Print, Numerals.DigitChar, Tenths, PrintTenths;
    assert body[0] == a[0];
  }

  /** The printed temperature: a point before its last digit, a numeral before that, both
      together the nearest tenth. */
  lemma PrintTenthsMeans(t: real)
    requires t >= 0.0
    ensures var s := PrintTenths(t);
            && |s| >= 3 && s[|s| - 2] == '.'
            && var whole, tenth := Numerals.Parse(s[..|s| - 2], 10), Numerals.DigitValue(s[|s| - 1]);
               && whole.Some? && tenth < 10
               && -0.05 <= whole.value as real + tenth as real / 10.0 - t <= 0.05
  {
    var n := Tenths(t);
    var s, a := PrintTenths(t), Numerals.Print(n / 10, 10);
    assert -0.5 <= n as real - t * 10.0 <= 0.5;
    Numerals.ParsePrint(n / 10, 10);
    PrintIsDigits(n / 10, 10);
    PrintDigit(n % 10);
    hide Tenths, Numerals.Print, Numerals.Parse, Numerals.DigitChar;
    assert s == a + "." + [Numerals.DigitChar(n % 10)];
    assert s[..|s| - 2] == a;
    assert n == 10 * (n / 10) + n % 10;
  }

  // ----- payloads

  /** `_vehicle_temperature_unit(vehicle) or 0` */
  function WireUnit(unit: Option<TemperatureUnit>): int {
    if unit == Some(Fahrenheit) then 1 else 0
  }

  datatype HvacSet = HvacSet(airCtrl: int, temperature: string, unit: int, defrost: bool)
  datatype ChargeSlot = ChargeSlot(enabled: bool, days: seq<int>, time: WireTime, hvac: HvacSet)
  datatype HvacSlot = HvacSlot(flag: int, days: seq<int>, time: WireTime, hvac: HvacSet)

  datatype CombinedPayload = CombinedPayload(
    first: ChargeSlot, second: ChargeSlot, offPeakStart: WireTime, offPeakEnd: WireTime,
    offPeakFlag: int, reservFlag: int)
  datatype ChargePayload = ChargePayload(reservFlag: int, offPeakFlag: int, start: WireTime, end: WireTime)
  datatype HvacPayload = HvacPayload(first: HvacSlot, second: HvacSlot)

  function Bit(b: bool): int {
    if b then 1 else 0
  }

  function BuildHvacSet(d: Departure, unit: int): HvacSet
    requires CompleteDeparture(Some(d))
  {
    HvacSet(Bit(d.climate.value), PrintTenths(WireTemperature(d.temperature.value, unit)), unit, d.defrost.value)
  }

  function BuildChargeSlot(d: Departure, unit: int): ChargeSlot
    requires CompleteDeparture(Some(d))
  {
    ChargeSlot(d.enabled.value, d.days.value, PrintTime(d.time.value), BuildHvacSet(d, unit))
  }

  function BuildHvacSlot(d: Departure, unit: int): HvacSlot
    requires CompleteDeparture(Some(d))
  {
    HvacSlot(Bit(d.enabled.value), d.days.value, PrintTime(d.time.value), BuildHvacSet(d, unit))
  }

  /** The combined request; flag 2 is "off-peak only", 1 "off-peak preferred". */
  function BuildCombined(o: Options, unit: int): CombinedPayload
    requires ChargeComplete(o) && ClimateComplete(o)
  {
    CombinedPayload(
      BuildChargeSlot(o.first.value, unit), BuildChargeSlot(o.second.value, unit),
      PrintTime(o.offPeakStart.value), PrintTime(o.offPeakEnd.value),
      if o.offPeakOnly.value then 2 else 1, Bit(o.charging.value))
  }

  /** The flat charge request; here flag 1 is "off-peak only" and 2 "off-peak preferred". */
  function BuildCharge(o: Options): ChargePayload
    requires ChargeComplete(o)
  {
    ChargePayload(Bit(o.charging.value), if o.offPeakOnly.value then 1 else 2,
                  PrintTime(o.offPeakStart.value), PrintTime(o.offPeakEnd.value))
  }

  function BuildHvac(o: Options, unit: int): HvacPayload
    requires ClimateComplete(o)
  {
    HvacPayload(BuildHvacSlot(o.first.value, unit), BuildHvacSlot(o.second.value, unit))
  }

  /** The two flat requests together say what the combined one says, but with the two
      off-peak flags exchanged. */
  lemma FlatSaysTheSame(o: Options, unit: int)
    requires ChargeComplete(o) && ClimateComplete(o)
    ensures var p, q, h := BuildCombined(o, unit), BuildCharge(o), BuildHvac(o, unit);
            && q.reservFlag == p.reservFlag
            && q.offPeakFlag + p.offPeakFlag == 3 && {p.offPeakFlag, q.offPeakFlag} == {1, 2}
            && q.start == p.offPeakStart && q.end == p.offPeakEnd
            && h.first == HvacSlot(Bit(p.first.enabled), p.first.days, p.first.time, p.first.hvac)
            && h.second == HvacSlot(Bit(p.second.enabled), p.second.days, p.second.time, p.second.hvac)
  {
    hide PrintTime, PrintTenths, WireTemperature;
  }

  /** The units' numbers on the wire. */
  lemma UnitsMean()
    ensures WireUnit(Some(Fahrenheit)) == 1 && WireUnit(Some(Celsius)) == 0
    ensures WireUnit(Some(OtherUnit)) == 0 && WireUnit(None) == 0
  {
  }

  /** What the fields of a departure's slot say, in either request. */
  lemma SlotsMean(d: Departure, unit: int)
    requires CompleteDeparture(Some(d))
    ensures var c, h := BuildChargeSlot(d, unit), BuildHvacSlot(d, unit);
            && Some(c.enabled) == d.enabled
            && (h.flag == 1 <==> d.enabled == Some(true)) && (h.flag == 0 || h.flag == 1)
            && Some(c.days) == d.days == Some(h.days)
            && c.time == PrintTime(d.time.value) == h.time && c.hvac == h.hvac
            && (c.hvac.airCtrl == 1 <==> d.climate == Some(true)) && (c.hvac.airCtrl == 0 || c.hvac.airCtrl == 1)
            && c.hvac.temperature == PrintTenths(WireTemperature(d.temperature.value, unit))
            && c.hvac.unit == unit && Some(c.hvac.defrost) == d.defrost
  {
    hide PrintTime, PrintTenths, WireTemperature;
  }

  /** What the three requests say about charging; the off-peak flags are exchanged. */
  lemma RequestsMean(o: Options, unit: int)
    requires ChargeComplete(o) && ClimateComplete(o)
    ensures var p, q, h := BuildCombined(o, unit), BuildCharge(o), BuildHvac(o, unit);
            && p.first == BuildChargeSlot(o.first.value, unit) && p.second == BuildChargeSlot(o.second.value, unit)
            && h.first == BuildHvacSlot(o.first.value, unit) && h.second == BuildHvacSlot(o.second.value, unit)
            && p.offPeakStart == q.start == PrintTime(o.offPeakStart.value)
            && p.offPeakEnd == q.end == PrintTime(o.offPeakEnd.value)
            && p.offPeakFlag == (if o.offPeakOnly == Some(true) then 2 else 1)
            && q.offPeakFlag == (if o.offPeakOnly == Some(true) then 1 else 2)
            && p.reservFlag == q.reservFlag == if o.charging == Some(true) then 1 else 0
  {
    hide PrintTime, BuildChargeSlot, BuildHvacSlot;
  }

  // ----- the EU decoder

  datatype DecodeError = ValueError | IndexError | KeyError

  /** `temperature_range[i]`: half degrees from 14 to 31.5, negative indices from the end. */
  function TableTemperature(i: int): Option<real> {
    if 0 <= i < 36 then Some(14.0 + i as real / 2.0)
    else if -36 <= i < 0 then Some(14.0 + (i + 36) as real / 2.0)
    else None
  }

  /** `TEMPERATURE_UNITS[unit]` */
  function UnitOf(unit: Option<int>): Result<Option<TemperatureUnit>, DecodeError> {
    if unit == None then Ok(None)
    else if unit == Some(0) then Ok(Some(Celsius))
    else if unit == Some(1) then Ok(Some(Fahrenheit))
    else Err(KeyError)
  }

  /** The unit that a request's own unit number names. */
  function UnitFor(unit: int): TemperatureUnit {
    if unit == 1 then Fahrenheit else Celsius
  }

  datatype Reading = Reading(temperature: real, unit: Option<TemperatureUnit>)

  /** A departure's temperature: nothing when its leaf is missing or empty. */
  function DecodeTemperature(code: Option<string>, unit: Option<int>): Result<Option<Reading>, DecodeError> {
    if code.None? || code.value == "" then Ok(None)
    else
      match HexTemp.FromCode(code.value)
      case None => Err(ValueError)
      case Some(i) =>
        match TableTemperature(i)
        case None => Err(IndexError)
        case Some(t) =>
          match UnitOf(unit)
          case Err(e) => Err(e)
          case Ok(u) => Ok(Some(Reading(t, u)))
  }

  /** The leaves that the decoder reads for one departure; None is a missing leaf. */
  datatype Detail = Detail(
    enabled: Option<bool>, days: Option<seq<int>>, time: Option<string>, section: Option<int>,
    airCtrl: Option<int>, temperature: Option<string>, unit: Option<int>, defrost: Option<bool>)

  datatype ReservationInfo = ReservationInfo(
    first: Detail, second: Detail, start: Option<string>, startSection: Option<int>,
    end: Option<string>, endSection: Option<int>, offPeakFlag: Option<int>, reservFlag: Option<int>)

  /** The schedule part of a vehicle, temperature units included. */
  datatype State = State(
    first: Departure, second: Departure, firstUnit: Option<TemperatureUnit>, secondUnit: Option<TemperatureUnit>,
    charging: Option<bool>, offPeakStart: Option<TimeOfDay>, offPeakEnd: Option<TimeOfDay>, offPeakOnly: Option<bool>)

  function ReportedBy(s: State): Reported {
    Reported(s.first, s.second, s.charging, s.offPeakStart, s.offPeakEnd, s.offPeakOnly)
  }

  function StateOf(vehicle: Vehicle): State
    reads vehicle
  {
    State(vehicle.FirstDeparture(), vehicle.SecondDeparture(),
          vehicle.evFirstDepartureClimateTemperatureUnit, vehicle.evSecondDepartureClimateTemperatureUnit,
          vehicle.evScheduleChargeEnabled, vehicle.evOffPeakStartTime, vehicle.evOffPeakEndTime,
          vehicle.evOffPeakChargeOnlyEnabled)
  }

  /** What is read before the first temperature. */
  function DecodeDeparture(d: Departure, i: Detail): Departure {
    d.(enabled := i.enabled, days := i.days, time := ParseTime(i.time, i.section),
       climate := Some(i.airCtrl.Some? && i.airCtrl.value != 0))
  }

  function WithReading(d: Departure, r: Option<Reading>): Departure {
    if r.None? then d else d.(temperature := Some(r.value.temperature))
  }

  function UnitWith(unit: Option<TemperatureUnit>, r: Option<Reading>): Option<TemperatureUnit> {
    if r.None? then unit else Or(r.value.unit, unit)
  }

  function DecodeFlag(before: Option<bool>, flag: Option<int>, on: int, off: int): Option<bool> {
    if flag == Some(on) then Some(true) else if flag == Some(off) then Some(false) else before
  }

  /** What is read after the second temperature. */
  function DecodeRest(s: State, i: ReservationInfo): State {
    s.(first := s.first.(defrost := i.first.defrost), second := s.second.(defrost := i.second.defrost),
       offPeakStart := ParseTime(i.start, i.startSection), offPeakEnd := ParseTime(i.end, i.endSection),
       offPeakOnly := DecodeFlag(s.offPeakOnly, i.offPeakFlag, 2, 1),
       charging := DecodeFlag(s.charging, i.reservFlag, 1, 0))
  }

  /** The schedule part of the vehicle after an update, and the exception that cut it. */
  function Decode(s: State, i: ReservationInfo): (State, Option<DecodeError>) {
    var s1 := s.(first := DecodeDeparture(s.first, i.first), second := DecodeDeparture(s.second, i.second));
    match DecodeTemperature(i.first.temperature, i.first.unit)
    case Err(e) => (s1, Some(e))
    case Ok(r) =>
      var s2 := s1.(first := WithReading(s1.first, r), firstUnit := UnitWith(s1.firstUnit, r));
      match DecodeTemperature(i.second.temperature, i.second.unit)
      case Err(e) => (s2, Some(e))
      case Ok(q) =>
        (DecodeRest(s2.(second := WithReading(s2.second, q), secondUnit := UnitWith(s2.secondUnit, q)), i), None)
  }

  method UpdateDepartures(vehicle: Vehicle, i: ReservationInfo)
    modifies vehicle`evFirstDepartureEnabled, vehicle`evSecondDepartureEnabled, vehicle`evFirstDepartureDays,
             vehicle`evSecondDepartureDays, vehicle`evFirstDepartureTime, vehicle`evSecondDepartureTime,
             vehicle`evFirstDepartureClimateEnabled, vehicle`evSecondDepartureClimateEnabled
    ensures vehicle.FirstDeparture() == DecodeDeparture(old(vehicle.FirstDeparture()), i.first)
    ensures vehicle.SecondDeparture() == DecodeDeparture(old(vehicle.SecondDeparture()), i.second)
  {
    hide ParseTime;
    vehicle.evFirstDepartureEnabled := i.first.enabled;
    vehicle.evSecondDepartureEnabled := i.second.enabled;
    vehicle.evFirstDepartureDays := i.first.days;
    vehicle.evSecondDepartureDays := i.second.days;
    vehicle.evFirstDepartureTime := ParseTime(i.first.time, i.first.section);
    vehicle.evSecondDepartureTime := ParseTime(i.second.time, i.second.section);
    vehicle.evFirstDepartureClimateEnabled := Some(i.first.airCtrl.Some? && i.first.airCtrl.value != 0);
    vehicle.evSecondDepartureClimateEnabled := Some(i.second.airCtrl.Some? && i.second.airCtrl.value != 0);
  }

  method UpdateFlags(vehicle: Vehicle, i: ReservationInfo)
    modifies vehicle`evOffPeakChargeOnlyEnabled, vehicle`evScheduleChargeEnabled
    ensures vehicle.evOffPeakChargeOnlyEnabled
         == DecodeFlag(old(vehicle.evOffPeakChargeOnlyEnabled), i.offPeakFlag, 2, 1)
    ensures vehicle.evScheduleChargeEnabled == DecodeFlag(old(vehicle.evScheduleChargeEnabled), i.reservFlag, 1, 0)
  {
    if i.offPeakFlag.Some? && i.offPeakFlag.value != 0 {
      if i.offPeakFlag.value == 2 {
        vehicle.evOffPeakChargeOnlyEnabled := Some(true);
      } else if i.offPeakFlag.value == 1 {
        vehicle.evOffPeakChargeOnlyEnabled := Some(false);
      }
    }
    if i.reservFlag == Some(1) {
      vehicle.evScheduleChargeEnabled := Some(true);
    } else if i.reservFlag == Some(0) {
      vehicle.evScheduleChargeEnabled := Some(false);
    }
  }

  method UpdateCharging(vehicle: Vehicle, i: ReservationInfo)
    modifies vehicle`evFirstDepartureClimateDefrost, vehicle`evSecondDepartureClimateDefrost,
             vehicle`evOffPeakStartTime, vehicle`evOffPeakEndTime, vehicle`evOffPeakChargeOnlyEnabled,
             vehicle`evScheduleChargeEnabled
    ensures StateOf(vehicle) == DecodeRest(old(StateOf(vehicle)), i)
  {
    hide ParseTime, DecodeFlag;
    vehicle.evFirstDepartureClimateDefrost := i.first.defrost;
    vehicle.evSecondDepartureClimateDefrost := i.second.defrost;
    vehicle.evOffPeakStartTime := ParseTime(i.start, i.startSection);
    vehicle.evOffPeakEndTime := ParseTime(i.end, i.endSection);
    UpdateFlags(vehicle, i);
  }

  /** The schedule part of the EU `_update_vehicle_properties`, field after field; a bad
      temperature raises, and leaves what comes after it as it was. */
  method UpdateSchedule(vehicle: Vehicle, i: ReservationInfo) returns (error: Option<DecodeError>)
    modifies vehicle`evFirstDepartureEnabled, vehicle`evSecondDepartureEnabled, vehicle`evFirstDepartureDays,
             vehicle`evSecondDepartureDays, vehicle`evFirstDepartureTime, vehicle`evSecondDepartureTime,
             vehicle`evFirstDepartureClimateEnabled, vehicle`evSecondDepartureClimateEnabled,
             vehicle`evFirstDepartureClimateTemperature, vehicle`evFirstDepartureClimateTemperatureUnit,
             vehicle`evSecondDepartureClimateTemperature, vehicle`evSecondDepartureClimateTemperatureUnit,
             vehicle`evFirstDepartureClimateDefrost, vehicle`evSecondDepartureClimateDefrost,
             vehicle`evOffPeakStartTime, vehicle`evOffPeakEndTime, vehicle`evOffPeakChargeOnlyEnabled,
             vehicle`evScheduleChargeEnabled
    ensures (StateOf(vehicle), error) == Decode(old(StateOf(vehicle)), i)
  {
    hide ParseTime, DecodeDeparture, DecodeRest, DecodeTemperature;
    ghost var s := StateOf(vehicle);
    UpdateDepartures(vehicle, i);
    assert StateOf(vehicle)
        == s.(first := DecodeDeparture(s.first, i.first), second := DecodeDeparture(s.second, i.second));
    match DecodeTemperature(i.first.temperature, i.first.unit)
    case Err(e) => return Some(e);
    case Ok(r) =>
      if r.Some? {
        vehicle.SetFirstDepartureTemperature(Some(r.value.temperature), r.value.unit);
      }
      match DecodeTemperature(i.second.temperature, i.second.unit)
      case Err(e) => return Some(e);
      case Ok(q) =>
        if q.Some? {
          vehicle.SetSecondDepartureTemperature(Some(q.value.temperature), q.value.unit);
        }
        UpdateCharging(vehicle, i);
        error := None;
  }

  // ----- which temperatures can be read

  /** The code of a table temperature, as `get_index_into_hex_temp` prints its index. */
  function CodeFor(t: real): string {
    HexTemp.ToCode(Numerals.Round(t * 2.0) - 28)
  }

  predicate InTable(t: real) {
    Numerals.Round(t * 2.0) as real == t * 2.0 && 14.0 <= t <= 31.5
  }

  lemma TableIsInTable(i: int)
    requires TableTemperature(i).Some?
    ensures InTable(TableTemperature(i).value)
  {
    Numerals.RoundInt(if i >= 0 then 28 + i else 64 + i);
  }

  lemma CodeNotEmpty(n: nat)
    ensures HexTemp.ToCode(n) != "" && HexTemp.FromCode(HexTemp.ToCode(n)) == Some(n)
  {
    HexTemp.FromToCode(n);
    hide HexTemp.FromCode, HexTemp.ToCode;
  }

  /** The code of index `n` is read exactly when the table has that index: "23H" is the last
      one, and the next raises an IndexError. */
  lemma CodeReadableIff(n: nat, unit: Option<int>)
    requires UnitOf(unit).Ok?
    ensures DecodeTemperature(Some(HexTemp.ToCode(n)), unit)
         == if n < 36 then Ok(Some(Reading(14.0 + n as real / 2.0, UnitOf(unit).value))) else Err(IndexError)
  {
    CodeNotEmpty(n);
    hide HexTemp.FromCode, HexTemp.ToCode;
  }

  /** A temperature can be reported back, by some code, exactly when it is a half degree from
      14 to 31.5; `CodeFor` is then such a code. */
  lemma ReportableIff(t: real, unit: int)
    requires 0 <= unit <= 1
    ensures (exists code :: DecodeTemperature(Some(code), Some(unit)) == Ok(Some(Reading(t, Some(UnitFor(unit))))))
       <==> InTable(t)
    ensures InTable(t) ==>
              DecodeTemperature(Some(CodeFor(t)), Some(unit)) == Ok(Some(Reading(t, Some(UnitFor(unit)))))
  {
    hide HexTemp.FromCode, HexTemp.ToCode;
    if InTable(t) {
      CodeReadableIff(Numerals.Round(t * 2.0) - 28, Some(unit));
    }
    forall code | DecodeTemperature(Some(code), Some(unit)) == Ok(Some(Reading(t, Some(UnitFor(unit)))))
      ensures InTable(t)
    {
      TableIsInTable(HexTemp.FromCode(code).value);
    }
  }

  /** Every temperature that is sent in Celsius can be reported back. */
  lemma CelsiusIsReportable(t: real)
    ensures InTable(WireTemperature(t, 0))
  {
    WireTemperatureStable(t, 0);
  }

  lemma DotIsNoNumber(s: string, k: nat)
    requires 1 <= k < |s| && s[k] == '.'
    ensures Numerals.ParseInt(s, 16) == None
  {
    assert s[1..][k - 1] == '.';
    assert Numerals.DigitValue('.') == 16;
  }

  /** The text of a sent temperature is no code: reading it raises a ValueError. */
  lemma SentTextIsNoCode(t: real, unit: Option<int>)
    ensures DecodeTemperature(Some(PrintTenths(t)), unit) == Err(ValueError)
  {
    var s := PrintTenths(t);
    PrintIsDigits(Tenths(t) / 10, 10);
    PrintDigit(Tenths(t) % 10);
    hide Tenths, Numerals.Print, Numerals.DigitChar, HexTemp.Without, Numerals.ParseInt;
    assert s[|s| - 2] == '.' && 'H' !in s;
    hide PrintTenths;
    HexTemp.WithoutAbsent(s, 'H');
    DotIsNoNumber(s, |s| - 2);
  }

  /** No temperature, or a hexadecimal index into the table with a known unit. */
  predicate Readable(d: Detail) {
    || d.temperature.None?
    || d.temperature.value == ""
    || (&& HexTemp.FromCode(d.temperature.value).Some?
        && -36 <= HexTemp.FromCode(d.temperature.value).value < 36
        && (d.unit.None? || 0 <= d.unit.value <= 1))
  }

  function ReadError(d: Detail): Option<DecodeError> {
    match DecodeTemperature(d.temperature, d.unit)
    case Err(e) => Some(e)
    case Ok(_) => None
  }

  lemma ReadableIff(d: Detail)
    ensures Readable(d) <==> ReadError(d).None?
  {
    hide HexTemp.FromCode;
  }

  /** An update completes exactly when both temperatures can be read. When one cannot, the
      caller gets the first one's error; defrost, off-peak and charging stay as they were,
      although flags, days and times of both departures have been read. */
  lemma DecodeCompletesIff(s: State, i: ReservationInfo)
    ensures var (t, error) := Decode(s, i);
            && (error.None? <==> Readable(i.first) && Readable(i.second))
            && (!Readable(i.first) ==> error == ReadError(i.first)
                                       && t.first.temperature == s.first.temperature && t.firstUnit == s.firstUnit)
            && (Readable(i.first) && !Readable(i.second) ==> error == ReadError(i.second))
            && (error.Some? ==>
                  && t.first.defrost == s.first.defrost && t.second.defrost == s.second.defrost
                  && t.offPeakStart == s.offPeakStart && t.offPeakEnd == s.offPeakEnd
                  && t.offPeakOnly == s.offPeakOnly && t.charging == s.charging
                  && t.second.temperature == s.second.temperature && t.secondUnit == s.secondUnit)
            && t.first.enabled == i.first.enabled && t.second.enabled == i.second.enabled
            && t.first.days == i.first.days && t.second.days == i.second.days
            && t.first.time == ParseTime(i.first.time, i.first.section)
            && t.second.time == ParseTime(i.second.time, i.second.section)
  {
    ReadableIff(i.first);
    ReadableIff(i.second);
    hide ParseTime, DecodeTemperature, Readable;
  }

  /** The table's ends, indices from its end, and the units. */
  lemma TableMeans()
    ensures TableTemperature(0) == Some(14.0) && TableTemperature(35) == Some(31.5) && TableTemperature(36) == None
    ensures TableTemperature(-1) == Some(31.5) && TableTemperature(-36) == Some(14.0) && TableTemperature(-37) == None
    ensures UnitOf(None) == Ok(None) && UnitOf(Some(0)) == Ok(Some(Celsius)) && UnitOf(Some(1)) == Ok(Some(Fahrenheit))
    ensures forall n | n < 0 || n > 1 :: UnitOf(Some(n)) == Err(KeyError)
    ensures UnitFor(0) == Celsius && UnitFor(1) == Fahrenheit
  {
  }

  /** Whatever was reported before: off-peak only for flag 2, not for 1, and as it was for
      any other; charging for reservation flag 1, not for 0, and as it was for any other. */
  lemma FlagsMean(s: State, i: ReservationInfo)
    requires Decode(s, i).1.None?
    ensures var t := Decode(s, i).0;
            && t.offPeakOnly == (if i.offPeakFlag == Some(2) then Some(true)
                                 else if i.offPeakFlag == Some(1) then Some(false) else s.offPeakOnly)
            && t.charging == (if i.reservFlag == Some(1) then Some(true)
                              else if i.reservFlag == Some(0) then Some(false) else s.charging)
            && t.first.climate == Some(i.first.airCtrl.Some? && i.first.airCtrl != Some(0))
            && t.second.climate == Some(i.second.airCtrl.Some? && i.second.airCtrl != Some(0))
            && t.first.defrost == i.first.defrost && t.second.defrost == i.second.defrost
            && t.offPeakStart == ParseTime(i.start, i.startSection) && t.offPeakEnd == ParseTime(i.end, i.endSection)
  {
    hide ParseTime, DecodeTemperature;
  }

  // ----- write, then read

  /** A server that reports each leaf as it was last written, but the temperature as `code`. */
  function EchoSlot(s: ChargeSlot, code: string): Detail {
    Detail(Some(s.enabled), Some(s.days), Some(s.time.time), Some(s.time.section), Some(s.hvac.airCtrl),
           Some(code), Some(s.hvac.unit), Some(s.hvac.defrost))
  }

  function Echo(p: CombinedPayload, firstCode: string, secondCode: string): ReservationInfo {
    ReservationInfo(EchoSlot(p.first, firstCode), EchoSlot(p.second, secondCode),
                    Some(p.offPeakStart.time), Some(p.offPeakStart.section),
                    Some(p.offPeakEnd.time), Some(p.offPeakEnd.section), Some(p.offPeakFlag), Some(p.reservFlag))
  }

  function ToMinute(t: TimeOfDay): TimeOfDay {
    Time(t.hour, t.minute, 0, 0)
  }

  function MinuteDeparture(d: Departure, temperature: Option<real>): Departure
    requires CompleteDeparture(Some(d))
  {
    d.(time := Some(ToMinute(d.time.value)), temperature := temperature)
  }

  /** What a departure's leaves give before the temperature is read. */
  lemma SlotReadBack(d: Departure, x: Departure, unit: int, code: string)
    requires CompleteDeparture(Some(x))
    ensures DecodeDeparture(d, EchoSlot(BuildChargeSlot(x, unit), code))
         == MinuteDeparture(x, d.temperature).(defrost := d.defrost)
  {
    ParsePrintTime(x.time.value);
    hide ParseTime, PrintTime, PrintTenths, WireTemperature;
  }

  lemma RestReadBack(s: State, o: Options, unit: int, c1: string, c2: string)
    requires ChargeComplete(o) && ClimateComplete(o)
    ensures DecodeRest(s, Echo(BuildCombined(o, unit), c1, c2))
         == s.(first := s.first.(defrost := o.first.value.defrost),
               second := s.second.(defrost := o.second.value.defrost),
               offPeakStart := Some(ToMinute(o.offPeakStart.value)), offPeakEnd := Some(ToMinute(o.offPeakEnd.value)),
               offPeakOnly := o.offPeakOnly, charging := o.charging)
  {
    ParsePrintTime(o.offPeakStart.value);
    ParsePrintTime(o.offPeakEnd.value);
    hide ParseTime, PrintTime, PrintTenths, WireTemperature;
  }

  /** Writing the combined schedule and reading it back gives the vehicle exactly the
      written one: flags, days, departure climate and all four times to the minute, and the
      temperatures and the unit that the server's codes name. */
  lemma WriteThenRead(o: Options, s: State, unit: int, c1: string, c2: string, t1: real, t2: real)
    requires ChargeComplete(o) && ClimateComplete(o) && 0 <= unit <= 1
    requires DecodeTemperature(Some(c1), Some(unit)) == Ok(Some(Reading(t1, Some(UnitFor(unit)))))
    requires DecodeTemperature(Some(c2), Some(unit)) == Ok(Some(Reading(t2, Some(UnitFor(unit)))))
    ensures var u := Some(UnitFor(unit));
            Decode(s, Echo(BuildCombined(o, unit), c1, c2)) == (State(
              MinuteDeparture(o.first.value, Some(t1)), MinuteDeparture(o.second.value, Some(t2)), u, u,
              o.charging, Some(ToMinute(o.offPeakStart.value)), Some(ToMinute(o.offPeakEnd.value)),
              o.offPeakOnly), None)
  {
    hide DecodeTemperature, DecodeDeparture, DecodeRest, ToMinute, PrintTenths, WireTemperature, PrintTime, UnitFor;
    SlotReadBack(s.first, o.first.value, unit, c1);
    SlotReadBack(s.second, o.second.value, unit, c2);
    var i, u := Echo(BuildCombined(o, unit), c1, c2), Some(UnitFor(unit));
    var f, g := DecodeDeparture(s.first, i.first), DecodeDeparture(s.second, i.second);
    var w := s.(first := f.(temperature := Some(t1)), second := g.(temperature := Some(t2)),
                firstUnit := u, secondUnit := u);
    assert Decode(s, i) == (DecodeRest(w, i), None);
    hide Decode;
    RestReadBack(w, o, unit, c1, c2);
  }

  /** A server that reports the temperature text as it was written makes the read raise a
      ValueError: nothing after the first temperature is read. */
  lemma LiteralEchoRaises(o: Options, s: State, unit: int)
    requires ChargeComplete(o) && ClimateComplete(o)
    ensures var p := BuildCombined(o, unit);
            var (t, error) := Decode(s, Echo(p, p.first.hvac.temperature, p.second.hvac.temperature));
            && error == Some(ValueError)
            && t == s.(first := MinuteDeparture(o.first.value, s.first.temperature).(defrost := s.first.defrost),
                       second := MinuteDeparture(o.second.value, s.second.temperature).(defrost := s.second.defrost))
  {
    var p := BuildCombined(o, unit);
    SlotReadBack(s.first, o.first.value, unit, p.first.hvac.temperature);
    SlotReadBack(s.second, o.second.value, unit, p.second.hvac.temperature);
    SentTextIsNoCode(WireTemperature(o.first.value.temperature.value, unit), Some(unit));
    hide ParseTime, PrintTime, PrintTenths, WireTemperature, DecodeTemperature, DecodeDeparture, ToMinute;
  }

  lemma PrintToMinute(t: TimeOfDay)
    ensures PrintTime(ToMinute(t)) == PrintTime(t)
  {
  }

  /** The server's codes can be read, and the vehicle's own settings then make the very
      request that was written. */
  predicate Resends(o: Options, s: State, unit: int, c1: string, c2: string)
    requires ChargeComplete(o) && ClimateComplete(o)
  {
    var (w, error) := Decode(s, Echo(BuildCombined(o, unit), c1, c2));
    var again := Fill(NO_OPTIONS, ReportedBy(w), true, true, false);
    && error.None?
    && ChargeComplete(again) && ClimateComplete(again)
    && BuildCombined(again, WireUnit(w.firstUnit)) == BuildCombined(o, unit)
  }

  /** Two temperatures that are sent alike. */
  predicate SentAlike(t: real, u: real, unit: int) {
    PrintTenths(WireTemperature(t, unit)) == PrintTenths(WireTemperature(u, unit))
  }

  /** Once the codes are read as `t1` and `t2`, the request is the same exactly when these
      are sent as the written temperatures were. */
  lemma ResendsWhen(o: Options, s: State, unit: int, c1: string, c2: string, t1: real, t2: real)
    requires ChargeComplete(o) && ClimateComplete(o) && 0 <= unit <= 1
    requires DecodeTemperature(Some(c1), Some(unit)) == Ok(Some(Reading(t1, Some(UnitFor(unit)))))
    requires DecodeTemperature(Some(c2), Some(unit)) == Ok(Some(Reading(t2, Some(UnitFor(unit)))))
    ensures Resends(o, s, unit, c1, c2) <==>
            && SentAlike(t1, o.first.value.temperature.value, unit)
            && SentAlike(t2, o.second.value.temperature.value, unit)
  {
    hide DecodeTemperature, PrintTenths, WireTemperature, Decode, Echo, Fill, PrintTime;
    WriteThenRead(o, s, unit, c1, c2, t1, t2);
    var w := Decode(s, Echo(BuildCombined(o, unit), c1, c2)).0;
    FromVehicleIsTheVehicle(ReportedBy(w));
    PrintToMinute(o.first.value.time.value);
    PrintToMinute(o.second.value.time.value);
    PrintToMinute(o.offPeakStart.value);
    PrintToMinute(o.offPeakEnd.value);
    hide ToMinute;
  }

  /** A sent temperature that some code names: in Celsius every one, in Fahrenheit those
      that are printed as a half degree from 14.0 to 31.5. */
  predicate Expressible(t: real, unit: int) {
    unit == 0 || (t >= 0.0 && 140 <= Tenths(t) <= 315 && Tenths(t) % 5 == 0)
  }

  /** The half degree that an expressible temperature is printed as. */
  function Named(t: real, unit: int): real
    requires Expressible(t, unit)
  {
    if unit == 0 then WireTemperature(t, 0) else Tenths(t) as real / 10.0
  }

  lemma NamedIsSentAlike(t: real, unit: int)
    requires 0 <= unit <= 1 && Expressible(t, unit)
    ensures InTable(Named(t, unit)) && SentAlike(Named(t, unit), t, unit)
  {
    if unit == 0 {
      CelsiusIsReportable(t);
      WireTemperatureStable(t, 0);
    } else {
      var n := Tenths(t);
      assert n as real / 10.0 * 10.0 == n as real;
      Numerals.RoundInt(n);
      assert n == 5 * (n / 5);
      assert n as real / 10.0 * 2.0 == (n / 5) as real;
      Numerals.RoundInt(n / 5);
      assert Tenths(n as real / 10.0) == n;
      hide Tenths;
    }
  }

  lemma TableTenths(t: real)
    requires InTable(t)
    ensures t >= 0.0 && 140 <= Tenths(t) <= 315 && Tenths(t) % 5 == 0
  {
    var n := Numerals.Round(t * 2.0);
    assert t * 10.0 == (5 * n) as real;
    Numerals.RoundInt(5 * n);
    hide Numerals.Round;
  }

  lemma SentAlikeIsExpressible(t: real, u: real, unit: int)
    requires 0 <= unit <= 1 && InTable(t) && SentAlike(t, u, unit)
    ensures Expressible(u, unit)
  {
    if unit == 1 {
      ReadPrintTenths(t);
      ReadPrintTenths(u);
      TableTenths(t);
      hide PrintTenths, ReadTenths, Tenths, InTable;
    }
  }

  lemma CodeForNotEmpty(t: real)
    requires InTable(t)
    ensures CodeFor(t) != ""
  {
    hide HexTemp.ToCode, HexTemp.FromCode;
    CodeNotEmpty(Numerals.Round(t * 2.0) - 28);
  }

  lemma ReportedNamed(t: real, unit: int)
    requires 0 <= unit <= 1 && Expressible(t, unit)
    ensures var n := Named(t, unit);
            && CodeFor(n) != "" && SentAlike(n, t, unit)
            && DecodeTemperature(Some(CodeFor(n)), Some(unit)) == Ok(Some(Reading(n, Some(UnitFor(unit)))))
  {
    hide Expressible, Named, SentAlike, DecodeTemperature, UnitFor, InTable, CodeFor;
    NamedIsSentAlike(t, unit);
    ReportableIff(Named(t, unit), unit);
    CodeForNotEmpty(Named(t, unit));
  }

  lemma ResentWasRead(o: Options, s: State, unit: int, c1: string, c2: string)
    requires ChargeComplete(o) && ClimateComplete(o)
    requires Resends(o, s, unit, c1, c2)
    ensures DecodeTemperature(Some(c1), Some(unit)).Ok? && DecodeTemperature(Some(c2), Some(unit)).Ok?
  {
    hide DecodeTemperature, ParseTime, PrintTime, PrintTenths, WireTemperature, Fill, DecodeRest;
    var i := Echo(BuildCombined(o, unit), c1, c2);
    assert Decode(s, i).1.None?;
    DecodeCompletesIff(s, i);
    ReadableIff(i.first);
    ReadableIff(i.second);
    hide Readable;
  }

  lemma ReadCode(code: string, unit: int) returns (t: real)
    requires code != "" && 0 <= unit <= 1 && DecodeTemperature(Some(code), Some(unit)).Ok?
    ensures InTable(t) && DecodeTemperature(Some(code), Some(unit)) == Ok(Some(Reading(t, Some(UnitFor(unit)))))
  {
    hide HexTemp.FromCode;
    var i := HexTemp.FromCode(code).value;
    TableIsInTable(i);
    t := TableTemperature(i).value;
  }

  /** What the vehicle reads back of a write, written again, can be the same request exactly
      when both sent temperatures can be named by a code: always in Celsius. */
  lemma ResendIff(o: Options, s: State, unit: int)
    requires ChargeComplete(o) && ClimateComplete(o) && 0 <= unit <= 1
    ensures (exists c1, c2 :: c1 != "" && c2 != "" && Resends(o, s, unit, c1, c2))
       <==> Expressible(o.first.value.temperature.value, unit) && Expressible(o.second.value.temperature.value, unit)
  {
    hide DecodeTemperature, InTable, SentAlike, Expressible, Named, Resends;
    var t, u := o.first.value.temperature.value, o.second.value.temperature.value;
    if Expressible(t, unit) && Expressible(u, unit) {
      ReportedNamed(t, unit);
      ReportedNamed(u, unit);
      var c1, c2 := CodeFor(Named(t, unit)), CodeFor(Named(u, unit));
      ResendsWhen(o, s, unit, c1, c2, Named(t, unit), Named(u, unit));
      assert c1 != "" && c2 != "" && Resends(o, s, unit, c1, c2);
    }
    forall c1: string, c2: string | c1 != "" && c2 != "" && Resends(o, s, unit, c1, c2)
      ensures Expressible(t, unit) && Expressible(u, unit)
    {
      ResentWasRead(o, s, unit, c1, c2);
      var r1 := ReadCode(c1, unit);
      var r2 := ReadCode(c2, unit);
      ResendsWhen(o, s, unit, c1, c2, r1, r2);
      SentAlikeIsExpressible(r1, t, unit);
      SentAlikeIsExpressible(r2, u, unit);
    }
  }

}
